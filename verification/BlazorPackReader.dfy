/** The BlazorPack readers: a cursor over a buffer that each read advances. */
module BlazorPackReader {
  import opened ByteStrings
  import opened BlazorPack

  class Cursor {
    const buf: Bytes
    var p: nat

    constructor (buf: Bytes)
      ensures this.buf == buf && p == 0
    {
      this.buf, p := buf, 0;
    }

    method ReadLengthPrefix() returns (r: Result<int>)
      modifies this
      ensures r == Outcome(DecPrefix(buf, old(p)))
      ensures r.Success? ==> p == DecPrefix(buf, old(p)).next
    {
      var value: nat, weight: nat := 0, 1;
      for i := 0 to 5
        invariant ReadVarint(buf, old(p), 5) == Scaled(value, weight, ReadVarint(buf, p, 5 - i))
      {
        if p >= |buf| { return Failure(FormatError); }
        var b: int := buf[p];
        VarintStep(buf, p, 5 - i, value, weight);
        p := p + 1;
        value := value + (b % 0x80) * weight;
        if b < 0x80 { return Success(AsInt32(value)); }
        weight := weight * 0x80;
      }
      r := Failure(FormatError);
    }

    /** A big-endian count of 1, 2 or 4 bytes. */
    method ReadCount(width: nat) returns (r: Result<int>)
      requires width == 1 || width == 2 || width == 4
      modifies this
      ensures r == Outcome(DecCount(buf, old(p), width))
      ensures r.Success? ==> p == old(p) + width
    {
      if p + width > |buf| { return Failure(OutOfRange); }
      var n := 0;
      if width == 1 {
        n := buf[p];
      } else if width == 2 {
        n := U2(buf, p);
      } else {
        n := AsInt32(U4(buf, p));
      }
      p := p + width;
      r := Success(n);
    }

    method ReadArrayHeader() returns (r: Result<int>)
      modifies this
      ensures r == Outcome(DecArrayHeader(buf, old(p)))
      ensures r.Success? ==> p == DecArrayHeader(buf, old(p)).next
    {
      if p >= |buf| { return Failure(OutOfRange); }
      var t := buf[p];
      p := p + 1;
      if 0x90 <= t <= 0x9F { return Success(t - 0x90); }
      if t == 0xDC { r := ReadCount(2); return; }
      if t == 0xDD { r := ReadCount(4); return; }
      r := Failure(FormatError);
    }

    method ReadMapHeader() returns (r: Result<int>)
      modifies this
      ensures r == Outcome(DecMapHeader(buf, old(p)))
      ensures r.Success? ==> p == DecMapHeader(buf, old(p)).next
    {
      if p >= |buf| { return Failure(OutOfRange); }
      var t := buf[p];
      p := p + 1;
      if 0x80 <= t <= 0x8F { return Success(t - 0x80); }
      if t == 0xDE { r := ReadCount(2); return; }
      if t == 0xDF { r := ReadCount(4); return; }
      r := Failure(FormatError);
    }

    method ReadInt64() returns (r: Result<int>)
      modifies this
      ensures r == Outcome(DecInt(buf, old(p)))
      ensures r.Success? ==> p == DecInt(buf, old(p)).next
    {
      if p >= |buf| { return Failure(OutOfRange); }
      var t := buf[p];
      p := p + 1;
      if t < 0x80 { return Success(t); }
      if t >= 0xE0 { return Success(t as int - 0x100); }
      var width := IntWidth(t);
      if width == None { return Failure(FormatError); }
      if p + width.value > |buf| { return Failure(OutOfRange); }
      var v;
      match t {
        case 0xCC => v := buf[p] as int;
        case 0xCD => v := U2(buf, p);
        case 0xCE => v := U4(buf, p);
        case 0xCF =>
          v := U8(buf, p);
          if v >= 0x8000_0000_0000_0000 { return Failure(FormatError); }
        case 0xD0 => v := Signed(buf[p], 0x80);
        case 0xD1 => v := Signed(U2(buf, p), 0x8000);
        case 0xD2 => v := Signed(U4(buf, p), 0x8000_0000);
        case _ => v := Signed(U8(buf, p), 0x8000_0000_0000_0000);
      }
      p := p + width.value;
      r := Success(v);
    }

    /** The next `len` bytes. */
    method ReadBytes(len: int) returns (r: Result<Bytes>)
      modifies this
      ensures r == Outcome(Take(buf, Ok(len, old(p))))
      ensures r.Success? ==> p == old(p) + len
    {
      if len < 0 || p + len > |buf| { return Failure(OutOfRange); }
      r := Success(buf[p..p + len]);
      p := p + len;
    }

    method ReadString() returns (r: Result<Option<Bytes>>)
      modifies this
      ensures r == Outcome(DecStr(buf, old(p)))
      ensures r.Success? ==> p == DecStr(buf, old(p)).next
    {
      if p >= |buf| { return Failure(OutOfRange); }
      var t := buf[p];
      p := p + 1;
      if t == 0xC0 { return Success(None); }
      var len: Result<int>;
      if 0xA0 <= t <= 0xBF {
        len := Success(t - 0xA0);
      } else if t == 0xD9 {
        len := ReadCount(1);
      } else if t == 0xDA {
        len := ReadCount(2);
      } else if t == 0xDB {
        len := ReadCount(4);
      } else {
        return Failure(FormatError);
      }
      if len.Failure? { return Failure(len.error); }
      var s := ReadBytes(len.value);
      r := match s case Success(b) => Success(Some(b)) case Failure(e) => Failure(e);
    }

    method ReadBinary() returns (r: Result<Bytes>)
      modifies this
      ensures r == Outcome(DecBin(buf, old(p)))
      ensures r.Success? ==> p == DecBin(buf, old(p)).next
    {
      if p >= |buf| { return Failure(OutOfRange); }
      var t := buf[p];
      p := p + 1;
      var len: Result<int>;
      if t == 0xC4 {
        len := ReadCount(1);
      } else if t == 0xC5 {
        len := ReadCount(2);
      } else if t == 0xC6 {
        len := ReadCount(4);
      } else {
        return Failure(FormatError);
      }
      if len.Failure? { return Failure(len.error); }
      r := ReadBytes(len.value);
    }

    method ReadValue() returns (r: Result<Value>)
      modifies this
      ensures r == Outcome(DecValue(buf, old(p)))
      ensures r.Success? ==> p == DecValue(buf, old(p)).next
    {
      if p >= |buf| { return Failure(OutOfRange); }
      var t := buf[p];
      if t == 0xC0 { p := p + 1; return Success(Nil); }
      if t == 0xC2 || t == 0xC3 { p := p + 1; return Success(Bool(t == 0xC3)); }
      if IsBinTag(t) {
        var b := ReadBinary();
        return match b case Success(s) => Success(Bin(s)) case Failure(e) => Failure(e);
      }
      if IsStrTag(t) {
        var s := ReadString();
        return match s
               case Success(o) => Success(if o.Some? then Str(o.value) else Nil)
               case Failure(e) => Failure(e);
      }
      if IntWidth(t).Some? {
        var i := ReadInt64();
        return match i case Success(v) => Success(Int(v)) case Failure(e) => Failure(e);
      }
      r := Failure(NotSupported);
    }

    /** None when a value was skipped. */
    method SkipValue() returns (error: Option<Error>)
      modifies this
      ensures error == FailureOf(Skip(buf, old(p)))
      ensures error == None ==> p == Skip(buf, old(p)).next
      decreases if p < |buf| then |buf| - p else 0, 0
    {
      if p >= |buf| { return Some(OutOfRange); }
      var t := buf[p];
      if t == 0xC0 || t == 0xC2 || t == 0xC3 { p := p + 1; return None; }
      if IntWidth(t).Some? {
        var i := ReadInt64();
        return ErrorOf(i);
      }
      if IsStrTag(t) {
        var s := ReadString();
        return ErrorOf(s);
      }
      if IsBinTag(t) {
        var b := ReadBinary();
        return ErrorOf(b);
      }
      if IsArrayTag(t) {
        var n := ReadArrayHeader();
        if n.Failure? { return Some(n.error); }
        error := SkipValues(Iterations(n.value));
        return;
      }
      if IsMapTag(t) {
        var n := ReadMapHeader();
        if n.Failure? { return Some(n.error); }
        error := SkipValues(2 * Iterations(n.value));
        return;
      }
      error := Some(NotSupported);
    }

    method SkipValues(n: nat) returns (error: Option<Error>)
      modifies this
      ensures error == FailureOf(SkipMany(buf, old(p), n))
      ensures error == None ==> p == SkipMany(buf, old(p), n).next
      decreases if p < |buf| then |buf| - p else 0, 1
    {
      for i := 0 to n
        invariant SkipMany(buf, old(p), i).Ok? && SkipMany(buf, old(p), i).next == p
        invariant p >= old(p)
      {
        error := SkipValue();
        if error.Some? {
          SkipManyFails(buf, old(p), i + 1, n);
          return;
        }
      }
      error := None;
    }
  }

  function FailureOf<T>(r: Read<T>): Option<Error> {
    match r case Ok(_, _) => None case Fail(e) => Some(e)
  }

  function ErrorOf<T>(r: Result<T>): Option<Error> {
    match r case Success(_) => None case Failure(e) => Some(e)
  }

  lemma {:induction false} SkipManyFails(buf: Bytes, p: nat, i: nat, n: nat)
    requires i <= n && SkipMany(buf, p, i).Fail?
    ensures SkipMany(buf, p, n) == SkipMany(buf, p, i)
  {
    if i < n { SkipManyFails(buf, p, i, n - 1); }
  }

  lemma {:induction false} ReadManyFails<T>(read: nat -> Read<T>, p: nat, i: nat, n: nat)
    requires i <= n && ReadMany(read, p, i).Fail?
    ensures ReadMany(read, p, n).Fail? && ReadMany(read, p, n).error == ReadMany(read, p, i).error
  {
    if i < n { ReadManyFails(read, p, i, n - 1); }
  }

  /** The body of the frame, as its prefix announces it. */
  method ReadFrame(frame: Bytes) returns (r: Result<Bytes>)
    ensures r == Outcome(FrameBody(frame))
  {
    var c := new Cursor(frame);
    var n := c.ReadLengthPrefix();
    if n.Failure? { return Failure(n.error); }
    if n.value > |frame| - c.p { return Failure(FormatError); }
    if n.value < 0 { return Failure(OutOfRange); }
    r := Success(frame[c.p..c.p + n.value]);
  }

  method ReadArguments(c: Cursor, n: nat) returns (r: Result<seq<Value>>)
    modifies c
    ensures r == Outcome(DecValues(c.buf, old(c.p), n))
    ensures r.Success? ==> c.p == DecValues(c.buf, old(c.p), n).next
  {
    var args := [];
    ghost var read := q => DecValue(c.buf, q);
    for i := 0 to n
      invariant ReadMany(read, old(c.p), i) == Ok(args, c.p)
    {
      var v := c.ReadValue();
      if v.Failure? {
        ReadManyFails(read, old(c.p), i + 1, n);
        return Failure(v.error);
      }
      args := args + [v.value];
    }
    r := Success(args);
  }

  method ReadInvocation(frame: Bytes) returns (r: Result<Invocation>)
    ensures r == Outcome(DecInvocation(frame))
  {
    var body := ReadFrame(frame);
    if body.Failure? { return Failure(body.error); }
    var c := new Cursor(body.value);
    var n := c.ReadArrayHeader();
    if n.Failure? { return Failure(n.error); }
    if n.value < 5 { return Failure(FormatError); }
    var kind := c.ReadInt64();
    if kind.Failure? { return Failure(kind.error); }
    var headers := c.SkipValue();
    if headers.Some? { return Failure(headers.value); }
    var id := c.ReadString();
    if id.Failure? { return Failure(id.error); }
    var target := c.ReadString();
    if target.Failure? { return Failure(target.error); }
    if target.value == None { return Failure(FormatError); }
    var argc := c.ReadArrayHeader();
    if argc.Failure? { return Failure(argc.error); }
    if argc.value < 0 { return Failure(OutOfRange); }
    var args := ReadArguments(c, argc.value);
    if args.Failure? { return Failure(args.error); }
    if n.value >= 6 {
      var streams := c.SkipValue();
      if streams.Some? { return Failure(streams.value); }
    }
    r := Success(Invocation(AsInt32(kind.value), id.value, target.value.value, args.value));
  }

  method ReadCompletion(frame: Bytes) returns (r: Result<Completion>)
    ensures r == Outcome(DecCompletion(frame))
  {
    var body := ReadFrame(frame);
    if body.Failure? { return Failure(body.error); }
    var c := new Cursor(body.value);
    var n := c.ReadArrayHeader();
    if n.Failure? { return Failure(n.error); }
    if n.value < 4 { return Failure(FormatError); }
    var kind := c.ReadInt64();
    if kind.Failure? { return Failure(kind.error); }
    if AsInt32(kind.value) != 3 { return Failure(FormatError); }
    var headers := c.SkipValue();
    if headers.Some? { return Failure(headers.value); }
    var id := c.ReadString();
    if id.Failure? { return Failure(id.error); }
    var resultKind := c.ReadInt64();
    if resultKind.Failure? { return Failure(resultKind.error); }
    match AsInt32(resultKind.value) {
      case 1 =>
        if n.value < 5 { return Failure(FormatError); }
        var error := c.ReadString();
        if error.Failure? { return Failure(error.error); }
        r := Success(Completion(id.value, error.value, false, Nil));
      case 2 =>
        r := Success(Completion(id.value, None, false, Nil));
      case 3 =>
        if n.value < 5 { return Failure(FormatError); }
        var result := c.ReadValue();
        if result.Failure? { return Failure(result.error); }
        r := Success(Completion(id.value, None, true, result.value));
      case _ =>
        r := Failure(FormatError);
    }
  }
}
