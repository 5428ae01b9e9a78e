/**
 The BlazorPack wire format: what each writer emits and what each reader accepts.
 Tag tests on bits are written as ranges of byte values.
 */
module BlazorPack {
  import opened ByteStrings

  datatype Error = FormatError | OutOfRange | NotSupported

  /** A reader's outcome: a value and the offset just past it. */
  datatype Read<+T> = Ok(value: T, next: nat) | Fail(error: Error) {
    predicate IsFailure() { Fail? }

    function PropagateFailure<U>(): Read<U>
      requires Fail?
    {
      Fail(error)
    }

    function Extract(): (T, nat)
      requires Ok?
    {
      (value, next)
    }
  }

  datatype Result<+T> = Success(value: T) | Failure(error: Error)

  /** The outcome without its offset. */
  function Outcome<T>(r: Read<T>): Result<T> {
    match r case Ok(v, _) => Success(v) case Fail(e) => Failure(e)
  }

  /** Arguments the codec carries. Integers of every width read back as 64-bit ones. */
  datatype Value = Nil | Bool(b: bool) | Int(v: int) | Str(utf8: Bytes) | Bin(data: Bytes)

  datatype Invocation = Invocation(kind: int, id: Option<Bytes>, target: Bytes, args: seq<Value>)

  datatype Completion = Completion(id: Option<Bytes>, error: Option<Bytes>, hasResult: bool, result: Value)

  predicate Int64(v: int) { -0x8000_0000_0000_0000 <= v < 0x8000_0000_0000_0000 }

  /** The two's-complement reading of the low 32 bits. */
  function AsInt32(n: int): (r: int)
    ensures -0x8000_0000 <= r < 0x8000_0000
    ensures -0x8000_0000 <= n < 0x8000_0000 ==> r == n
  {
    var low := n % 0x1_0000_0000;
    if low < 0x8000_0000 then low else low - 0x1_0000_0000
  }

  predicate Encodable(v: Value) {
    match v
    case Int(i) => Int64(i)
    case Str(s) => |s| < 0x8000_0000
    case Bin(s) => |s| < 0x8000_0000
    case _ => true
  }

  // ─── Big-endian integers ─────────────────────────────────────────────

  function BE2(n: nat): Bytes
    requires n < 0x1_0000
  {
    [n / 0x100, n % 0x100]
  }

  function BE4(n: nat): Bytes
    requires n < 0x1_0000_0000
  {
    BE2(n / 0x1_0000) + BE2(n % 0x1_0000)
  }

  lemma {:induction false} FourBytes(n: nat)
    requires n < 0x1_0000_0000
    ensures BE4(n) == [n / 0x100_0000, n / 0x1_0000 % 0x100, n / 0x100 % 0x100, n % 0x100]
  {
    var third := n / 0x100;
    var second := third / 0x100;
    var a, b, c, d := second / 0x100, second % 0x100, third % 0x100, n % 0x100;
    assert n == ((a * 0x100 + b) * 0x100 + c) * 0x100 + d;
    assert n / 0x1_0000 == a * 0x100 + b && n % 0x1_0000 == c * 0x100 + d && n / 0x100_0000 == a;
  }

  function BE8(n: nat): Bytes
    requires n < 0x1_0000_0000_0000_0000
  {
    BE4(n / 0x1_0000_0000) + BE4(n % 0x1_0000_0000)
  }

  function U2(buf: Bytes, p: nat): (n: nat)
    requires p + 2 <= |buf|
    ensures n < 0x1_0000
  {
    buf[p] as int * 0x100 + buf[p + 1]
  }

  function U4(buf: Bytes, p: nat): (n: nat)
    requires p + 4 <= |buf|
    ensures n < 0x1_0000_0000
  {
    U2(buf, p) * 0x1_0000 + U2(buf, p + 2)
  }

  function U8(buf: Bytes, p: nat): (n: nat)
    requires p + 8 <= |buf|
    ensures n < 0x1_0000_0000_0000_0000
  {
    U4(buf, p) * 0x1_0000_0000 + U4(buf, p + 4)
  }

  lemma {:induction false} ReadBE2(buf: Bytes, p: nat, n: nat)
    requires n < 0x1_0000 && At(buf, p, BE2(n))
    ensures U2(buf, p) == n
  {
    AtIndex(buf, p, BE2(n), 0);
    AtIndex(buf, p, BE2(n), 1);
  }

  lemma {:induction false} ReadBE4(buf: Bytes, p: nat, n: nat)
    requires n < 0x1_0000_0000 && At(buf, p, BE4(n))
    ensures U4(buf, p) == n
  {
    AtSplit(buf, p, BE2(n / 0x1_0000), BE2(n % 0x1_0000));
    ReadBE2(buf, p, n / 0x1_0000);
    ReadBE2(buf, p + 2, n % 0x1_0000);
  }

  lemma {:induction false} ReadBE8(buf: Bytes, p: nat, n: nat)
    requires n < 0x1_0000_0000_0000_0000 && At(buf, p, BE8(n))
    ensures U8(buf, p) == n
  {
    AtSplit(buf, p, BE4(n / 0x1_0000_0000), BE4(n % 0x1_0000_0000));
    ReadBE4(buf, p, n / 0x1_0000_0000);
    ReadBE4(buf, p + 4, n % 0x1_0000_0000);
  }

  // ─── Length prefix ───────────────────────────────────────────────────

  /** Five bytes carry 35 bits; the accumulator keeps the low 32 as a signed number. */
  function DecPrefix(buf: Bytes, p: nat): Read<int> {
    match ReadVarint(buf, p, 5)
    case Number(v, q) => Ok(AsInt32(v), q)
    case _ => Fail(FormatError)
  }

  /** The prefix of any 31-bit length takes at most five bytes. */
  lemma {:induction false} PrefixIsShort(n: nat)
    requires n < 0x8000_0000
    ensures 1 <= |EncVarint(n)| <= 5
  {
    var a := n / 0x80;
    var b := a / 0x80;
    var c := b / 0x80;
    var d := c / 0x80;
    assert d < 0x80;
    assert |EncVarint(d)| == 1 && |EncVarint(c)| <= 2 && |EncVarint(b)| <= 3 && |EncVarint(a)| <= 4;
  }

  /** Every length from 0 to 2^31-1 decodes back, with any bytes following. */
  lemma {:induction false} PrefixRoundTrip(buf: Bytes, p: nat, n: nat)
    requires n < 0x8000_0000 && At(buf, p, EncVarint(n))
    ensures DecPrefix(buf, p) == Ok(n, p + |EncVarint(n)|)
  {
    PrefixIsShort(n);
    VarintReads(buf, p, n, 5);
  }

  // ─── Integers ────────────────────────────────────────────────────────

  function EncInt(v: int): Bytes
    requires Int64(v)
  {
    if 0 <= v then
      if v < 0x80 then [v]
      else if v < 0x100 then [0xCC, v]
      else if v < 0x1_0000 then [0xCD] + BE2(v)
      else if v < 0x1_0000_0000 then [0xCE] + BE4(v)
      else [0xCF] + BE8(v)
    else
      if -0x20 <= v then [v + 0x100]
      else if -0x80 <= v then [0xD0, v + 0x100]
      else if -0x8000 <= v then [0xD1] + BE2(v + 0x1_0000)
      else if -0x8000_0000 <= v then [0xD2] + BE4(v + 0x1_0000_0000)
      else [0xD3] + BE8(v + 0x1_0000_0000_0000_0000)
  }

  function Signed(n: int, half: int): int {
    if n < half then n else n - 2 * half
  }

  /** Width of the payload after an integer tag; 0 for the one-byte integers. */
  function IntWidth(t: byte): Option<nat> {
    if t < 0x80 || 0xE0 <= t then Some(0)
    else if t == 0xCC || t == 0xD0 then Some(1)
    else if t == 0xCD || t == 0xD1 then Some(2)
    else if t == 0xCE || t == 0xD2 then Some(4)
    else if t == 0xCF || t == 0xD3 then Some(8)
    else None
  }

  function DecInt(buf: Bytes, p: nat): Read<int> {
    if p >= |buf| then Fail(OutOfRange)
    else
      var t, q := buf[p], p + 1;
      match IntWidth(t)
      case None => Fail(FormatError)
      case Some(w) =>
        if q + w > |buf| then Fail(OutOfRange)
        else if t < 0x80 then Ok(t, q)
        else if 0xE0 <= t then Ok(t as int - 0x100, q)
        else if t == 0xCC then Ok(buf[q], q + w)
        else if t == 0xCD then Ok(U2(buf, q), q + w)
        else if t == 0xCE then Ok(U4(buf, q), q + w)
        else if t == 0xCF then
          if U8(buf, q) < 0x8000_0000_0000_0000 then Ok(U8(buf, q), q + w) else Fail(FormatError)
        else if t == 0xD0 then Ok(Signed(buf[q], 0x80), q + w)
        else if t == 0xD1 then Ok(Signed(U2(buf, q), 0x8000), q + w)
        else if t == 0xD2 then Ok(Signed(U4(buf, q), 0x8000_0000), q + w)
        else Ok(Signed(U8(buf, q), 0x8000_0000_0000_0000), q + w)
  }

  lemma {:induction false} TagThenRest(buf: Bytes, p: nat, t: byte, rest: Bytes)
    requires At(buf, p, [t] + rest)
    ensures buf[p] == t && At(buf, p + 1, rest)
  {
    AtSplit(buf, p, [t], rest);
    AtIndex(buf, p, [t], 0);
  }

  lemma {:induction false} UnsignedRoundTrip(buf: Bytes, p: nat, v: nat)
    requires Int64(v) && At(buf, p, EncInt(v))
    ensures DecInt(buf, p) == Ok(v, p + |EncInt(v)|)
  {
    AtIndex(buf, p, EncInt(v), 0);
    if v < 0x80 {
    } else if v < 0x100 {
      AtIndex(buf, p, EncInt(v), 1);
    } else if v < 0x1_0000 {
      TagThenRest(buf, p, 0xCD, BE2(v));
      ReadBE2(buf, p + 1, v);
    } else if v < 0x1_0000_0000 {
      TagThenRest(buf, p, 0xCE, BE4(v));
      ReadBE4(buf, p + 1, v);
    } else {
      TagThenRest(buf, p, 0xCF, BE8(v));
      ReadBE8(buf, p + 1, v);
    }
  }

  lemma {:induction false} NegativeRoundTrip(buf: Bytes, p: nat, v: int)
    requires Int64(v) && v < 0 && At(buf, p, EncInt(v))
    ensures DecInt(buf, p) == Ok(v, p + |EncInt(v)|)
  {
    AtIndex(buf, p, EncInt(v), 0);
    if -0x20 <= v {
    } else if -0x80 <= v {
      AtIndex(buf, p, EncInt(v), 1);
    } else if -0x8000 <= v {
      TagThenRest(buf, p, 0xD1, BE2(v + 0x1_0000));
      ReadBE2(buf, p + 1, v + 0x1_0000);
    } else {
      WideNegativeRoundTrip(buf, p, v);
    }
  }

  lemma {:induction false} WideNegativeRoundTrip(buf: Bytes, p: nat, v: int)
    requires Int64(v) && v < -0x8000 && At(buf, p, EncInt(v))
    ensures DecInt(buf, p) == Ok(v, p + |EncInt(v)|)
  {
    if -0x8000_0000 <= v {
      TagThenRest(buf, p, 0xD2, BE4(v + 0x1_0000_0000));
      ReadBE4(buf, p + 1, v + 0x1_0000_0000);
    } else {
      TagThenRest(buf, p, 0xD3, BE8(v + 0x1_0000_0000_0000_0000));
      ReadBE8(buf, p + 1, v + 0x1_0000_0000_0000_0000);
    }
  }

  lemma {:induction false} IntRoundTrip(buf: Bytes, p: nat, v: int)
    requires Int64(v) && At(buf, p, EncInt(v))
    ensures DecInt(buf, p) == Ok(v, p + |EncInt(v)|)
  {
    if v >= 0 { UnsignedRoundTrip(buf, p, v); } else { NegativeRoundTrip(buf, p, v); }
  }

  predicate IsWidth(width: nat) { width == 1 || width == 2 || width == 4 || width == 8 }

  function Half(width: nat): int {
    if width == 1 then 0x80
    else if width == 2 then 0x8000
    else if width == 4 then 0x8000_0000
    else 0x8000_0000_0000_0000
  }

  /** The payload of a fixed-width integer. */
  function IntBytes(n: nat, width: nat): Bytes
    requires n < 2 * Half(width)
  {
    if width == 1 then [n] else if width == 2 then BE2(n) else if width == 4 then BE4(n) else BE8(n)
  }

  /** The place of a width among the four formats of a sign. */
  function WidthIndex(width: nat): nat {
    if width == 1 then 0 else if width == 2 then 1 else if width == 4 then 2 else 3
  }

  /** Every unsigned format reads as its number, also where a shorter one would do; above 2^63 - 1 it is refused. */
  lemma {:induction false} UnsignedFormatReads(buf: Bytes, p: nat, n: nat, width: nat)
    requires IsWidth(width) && n < 2 * Half(width) && At(buf, p, [0xCC + WidthIndex(width)] + IntBytes(n, width))
    ensures DecInt(buf, p) == if Int64(n) then Ok(n, p + 1 + width) else Fail(FormatError)
  {
    TagThenRest(buf, p, 0xCC + WidthIndex(width), IntBytes(n, width));
    if width == 1 {
      AtIndex(buf, p + 1, [n], 0);
    } else if width == 2 {
      ReadBE2(buf, p + 1, n);
    } else if width == 4 {
      ReadBE4(buf, p + 1, n);
    } else {
      ReadBE8(buf, p + 1, n);
    }
  }

  /** Every signed format reads as the two's-complement number of its width. */
  lemma {:induction false} SignedFormatReads(buf: Bytes, p: nat, n: nat, width: nat)
    requires IsWidth(width) && n < 2 * Half(width) && At(buf, p, [0xD0 + WidthIndex(width)] + IntBytes(n, width))
    ensures DecInt(buf, p) == Ok(if n < Half(width) then n else n - 2 * Half(width), p + 1 + width)
  {
    TagThenRest(buf, p, 0xD0 + WidthIndex(width), IntBytes(n, width));
    if width == 1 {
      AtIndex(buf, p + 1, [n], 0);
    } else if width == 2 {
      ReadBE2(buf, p + 1, n);
    } else if width == 4 {
      ReadBE4(buf, p + 1, n);
    } else {
      ReadBE8(buf, p + 1, n);
    }
  }

  /** No byte string the reader accepts as `v` is shorter than the one the writer emits. */
  lemma {:induction false} WrittenIntIsShortest(buf: Bytes, p: nat, v: int)
    requires Int64(v) && DecInt(buf, p).Ok? && DecInt(buf, p).value == v
    ensures p + |EncInt(v)| <= DecInt(buf, p).next <= |buf|
  {
  }

  // ─── Counted values ──────────────────────────────────────────────────

  function EncArrayHeader(n: nat): Bytes
    requires n < 0x8000_0000
  {
    if n <= 15 then [0x90 + n] else if n < 0x1_0000 then [0xDC] + BE2(n) else [0xDD] + BE4(n)
  }

  /** A count: in the tag itself, or in 1, 2 or 4 bytes after it; 4-byte counts are cast to a signed number. */
  function DecCount(buf: Bytes, q: nat, width: nat): Read<int>
    requires width == 1 || width == 2 || width == 4
  {
    if q + width > |buf| then Fail(OutOfRange)
    else Ok(if width == 1 then buf[q] else if width == 2 then U2(buf, q) else AsInt32(U4(buf, q)), q + width)
  }

  function DecArrayHeader(buf: Bytes, p: nat): Read<int> {
    if p >= |buf| then Fail(OutOfRange)
    else
      var t := buf[p];
      if 0x90 <= t <= 0x9F then Ok(t - 0x90, p + 1)
      else if t == 0xDC then DecCount(buf, p + 1, 2)
      else if t == 0xDD then DecCount(buf, p + 1, 4)
      else Fail(FormatError)
  }

  function DecMapHeader(buf: Bytes, p: nat): Read<int> {
    if p >= |buf| then Fail(OutOfRange)
    else
      var t := buf[p];
      if 0x80 <= t <= 0x8F then Ok(t - 0x80, p + 1)
      else if t == 0xDE then DecCount(buf, p + 1, 2)
      else if t == 0xDF then DecCount(buf, p + 1, 4)
      else Fail(FormatError)
  }

  lemma {:induction false} ArrayHeaderRoundTrip(buf: Bytes, p: nat, n: nat)
    requires n < 0x8000_0000 && At(buf, p, EncArrayHeader(n))
    ensures DecArrayHeader(buf, p) == Ok(n, p + |EncArrayHeader(n)|)
  {
    var e := EncArrayHeader(n);
    AtIndex(buf, p, e, 0);
    if n > 15 {
      AtSplit(buf, p, [e[0]], e[1..]);
      assert e == [e[0]] + e[1..];
      if n < 0x1_0000 { ReadBE2(buf, p + 1, n); } else { ReadBE4(buf, p + 1, n); }
    }
  }

  /** Header of a string of `n` bytes. */
  function StrHeader(n: nat): Bytes
    requires n < 0x8000_0000
  {
    if n <= 31 then [0xA0 + n] else if n < 0x100 then [0xD9, n]
    else if n < 0x1_0000 then [0xDA] + BE2(n) else [0xDB] + BE4(n)
  }

  function EncStr(s: Bytes): Bytes
    requires |s| < 0x8000_0000
  {
    StrHeader(|s|) + s
  }

  function BinHeader(n: nat): Bytes
    requires n < 0x8000_0000
  {
    if n < 0x100 then [0xC4, n] else if n < 0x1_0000 then [0xC5] + BE2(n) else [0xC6] + BE4(n)
  }

  function EncBin(s: Bytes): Bytes
    requires |s| < 0x8000_0000
  {
    BinHeader(|s|) + s
  }

  predicate IsStrTag(t: byte) { 0xA0 <= t <= 0xBF || 0xD9 <= t <= 0xDB }

  predicate IsBinTag(t: byte) { 0xC4 <= t <= 0xC6 }

  function StrLength(buf: Bytes, p: nat): Read<int> {
    if p >= |buf| then Fail(OutOfRange)
    else
      var t := buf[p];
      if 0xA0 <= t <= 0xBF then Ok(t - 0xA0, p + 1)
      else if t == 0xD9 then DecCount(buf, p + 1, 1)
      else if t == 0xDA then DecCount(buf, p + 1, 2)
      else if t == 0xDB then DecCount(buf, p + 1, 4)
      else Fail(FormatError)
  }

  function BinLength(buf: Bytes, p: nat): Read<int> {
    if p >= |buf| then Fail(OutOfRange)
    else
      var t := buf[p];
      if t == 0xC4 then DecCount(buf, p + 1, 1)
      else if t == 0xC5 then DecCount(buf, p + 1, 2)
      else if t == 0xC6 then DecCount(buf, p + 1, 4)
      else Fail(FormatError)
  }

  /** `len` bytes from the length's end; a negative or too large length is out of range. */
  function Take(buf: Bytes, len: Read<int>): Read<Bytes> {
    match len
    case Fail(e) => Fail(e)
    case Ok(n, q) => if n < 0 || q + n > |buf| then Fail(OutOfRange) else Ok(buf[q..q + n], q + n)
  }

  /** A string or nil. */
  function DecStr(buf: Bytes, p: nat): Read<Option<Bytes>> {
    if p < |buf| && buf[p] == 0xC0 then Ok(None, p + 1)
    else
      match Take(buf, StrLength(buf, p))
      case Fail(e) => Fail(e)
      case Ok(s, q) => Ok(Some(s), q)
  }

  function DecBin(buf: Bytes, p: nat): Read<Bytes> {
    Take(buf, BinLength(buf, p))
  }

  lemma {:induction false} StrHeaderReads(buf: Bytes, p: nat, n: nat)
    requires n < 0x8000_0000 && At(buf, p, StrHeader(n))
    ensures IsStrTag(buf[p]) && StrLength(buf, p) == Ok(n, p + |StrHeader(n)|)
  {
    var e := StrHeader(n);
    AtIndex(buf, p, e, 0);
    if |e| == 2 { AtIndex(buf, p, e, 1); }
    if |e| > 2 {
      AtSplit(buf, p, [e[0]], e[1..]);
      assert e == [e[0]] + e[1..];
      if n < 0x1_0000 { ReadBE2(buf, p + 1, n); } else { ReadBE4(buf, p + 1, n); }
    }
  }

  lemma {:induction false} BinHeaderReads(buf: Bytes, p: nat, n: nat)
    requires n < 0x8000_0000 && At(buf, p, BinHeader(n))
    ensures IsBinTag(buf[p]) && BinLength(buf, p) == Ok(n, p + |BinHeader(n)|)
  {
    var e := BinHeader(n);
    AtIndex(buf, p, e, 0);
    AtIndex(buf, p, e, 1);
    if |e| > 2 {
      AtSplit(buf, p, [e[0]], e[1..]);
      assert e == [e[0]] + e[1..];
      if n < 0x1_0000 { ReadBE2(buf, p + 1, n); } else { ReadBE4(buf, p + 1, n); }
    }
  }

  lemma {:induction false} StrRoundTrip(buf: Bytes, p: nat, s: Bytes)
    requires |s| < 0x8000_0000 && At(buf, p, EncStr(s))
    ensures IsStrTag(buf[p]) && DecStr(buf, p) == Ok(Some(s), p + |EncStr(s)|)
  {
    AtSplit(buf, p, StrHeader(|s|), s);
    StrHeaderReads(buf, p, |s|);
  }

  lemma {:induction false} BinRoundTrip(buf: Bytes, p: nat, s: Bytes)
    requires |s| < 0x8000_0000 && At(buf, p, EncBin(s))
    ensures IsBinTag(buf[p]) && DecBin(buf, p) == Ok(s, p + |EncBin(s)|)
  {
    AtSplit(buf, p, BinHeader(|s|), s);
    BinHeaderReads(buf, p, |s|);
  }

  // ─── Values ──────────────────────────────────────────────────────────

  function EncValue(v: Value): Bytes
    requires Encodable(v)
  {
    match v
    case Nil => [0xC0]
    case Bool(b) => [if b then 0xC3 else 0xC2]
    case Int(i) => EncInt(i)
    case Str(s) => EncStr(s)
    case Bin(s) => EncBin(s)
  }

  function DecValue(buf: Bytes, p: nat): Read<Value> {
    if p >= |buf| then Fail(OutOfRange)
    else
      var t := buf[p];
      if t == 0xC0 then Ok(Nil, p + 1)
      else if t == 0xC2 || t == 0xC3 then Ok(Bool(t == 0xC3), p + 1)
      else if IsBinTag(t) then
        match DecBin(buf, p) case Ok(s, q) => Ok(Bin(s), q) case Fail(e) => Fail(e)
      else if IsStrTag(t) then
        match Take(buf, StrLength(buf, p)) case Ok(s, q) => Ok(Str(s), q) case Fail(e) => Fail(e)
      else if IntWidth(t).Some? then
        match DecInt(buf, p) case Ok(i, q) => Ok(Int(i), q) case Fail(e) => Fail(e)
      else Fail(NotSupported)
  }

  /** Every reader consumes exactly what its writer wrote, with any bytes following. */
  lemma {:induction false} ValueRoundTrip(buf: Bytes, p: nat, v: Value)
    requires Encodable(v) && At(buf, p, EncValue(v))
    ensures DecValue(buf, p) == Ok(v, p + |EncValue(v)|)
  {
    AtIndex(buf, p, EncValue(v), 0);
    match v
    case Nil =>
    case Bool(_) =>
    case Int(i) => IntRoundTrip(buf, p, i);
    case Str(s) => StrRoundTrip(buf, p, s);
    case Bin(s) => BinRoundTrip(buf, p, s);
  }

  predicate AllEncodable(vs: seq<Value>) { forall i | 0 <= i < |vs| :: Encodable(vs[i]) }

  function EncParts(vs: seq<Value>): (parts: seq<Bytes>)
    requires AllEncodable(vs)
    ensures |parts| == |vs| && forall i | 0 <= i < |vs| :: parts[i] == EncValue(vs[i])
  {
    seq(|vs|, i requires 0 <= i < |vs| && Encodable(vs[i]) => EncValue(vs[i]))
  }

  function EncValues(vs: seq<Value>): Bytes
    requires AllEncodable(vs)
  {
    Concat(EncParts(vs))
  }

  /** `n` reads in a row, each from where the last one stopped. */
  function ReadMany<T>(read: nat -> Read<T>, p: nat, n: nat): Read<seq<T>> {
    if n == 0 then Ok([], p)
    else
      match ReadMany(read, p, n - 1)
      case Fail(e) => Fail(e)
      case Ok(vs, q) =>
        match read(q)
        case Fail(e) => Fail(e)
        case Ok(v, r) => Ok(vs + [v], r)
  }

  function DecValues(buf: Bytes, p: nat, n: nat): Read<seq<Value>> {
    ReadMany(q => DecValue(buf, q), p, n)
  }

  /** The `k`th part stands just past the ones before it. */
  lemma {:induction false} PartAt(buf: Bytes, p: nat, parts: seq<Bytes>, k: nat)
    requires At(buf, p, Concat(parts)) && k < |parts|
    ensures At(buf, p + |Concat(parts[..k])|, parts[k])
    ensures |Concat(parts[..k + 1])| == |Concat(parts[..k])| + |parts[k]|
  {
    assert parts == parts[..k] + parts[k..] && parts[..k + 1] == parts[..k] + [parts[k]];
    ConcatAppend(parts[..k], parts[k..]);
    ConcatSnoc(parts[..k], parts[k]);
    AtSplit(buf, p, Concat(parts[..k]), Concat(parts[k..]));
    AtSplit(buf, p + |Concat(parts[..k])|, parts[k], Concat(parts[k..][1..]));
  }

  lemma {:induction false} OneMoreRead<T>(read: nat -> Read<T>, p: nat, vs: seq<T>, k: nat, q: nat, r: nat)
    requires k < |vs| && ReadMany(read, p, k) == Ok(vs[..k], q) && read(q) == Ok(vs[k], r)
    ensures ReadMany(read, p, k + 1) == Ok(vs[..k + 1], r)
  {
    assert vs[..k] + [vs[k]] == vs[..k + 1];
  }

  /** Reading a list part by part, when each part reads back wherever it stands. */
  lemma {:induction false} PartsRead<T>(read: nat -> Read<T>, buf: Bytes, p: nat, vs: seq<T>, parts: seq<Bytes>, k: nat)
    requires k <= |parts| == |vs| && At(buf, p, Concat(parts))
    requires forall i: nat, q: nat | i < |vs| && At(buf, q, parts[i]) :: read(q) == Ok(vs[i], q + |parts[i]|)
    ensures ReadMany(read, p, k) == Ok(vs[..k], p + |Concat(parts[..k])|)
  {
    if k > 0 {
      PartsRead(read, buf, p, vs, parts, k - 1);
      PartAt(buf, p, parts, k - 1);
      OneMoreRead(read, p, vs, k - 1, p + |Concat(parts[..k - 1])|, p + |Concat(parts[..k])|);
    }
  }

  lemma {:induction false} ValuesRoundTrip(buf: Bytes, p: nat, vs: seq<Value>)
    requires AllEncodable(vs) && At(buf, p, EncValues(vs))
    ensures DecValues(buf, p, |vs|) == Ok(vs, p + |EncValues(vs)|)
  {
    forall i: nat, q: nat | i < |vs| && At(buf, q, EncParts(vs)[i])
      ensures DecValue(buf, q) == Ok(vs[i], q + |EncParts(vs)[i]|)
    {
      ValueRoundTrip(buf, q, vs[i]);
    }
    PartsRead(q => DecValue(buf, q), buf, p, vs, EncParts(vs), |vs|);
    assert vs[..|vs|] == vs && EncParts(vs)[..|vs|] == EncParts(vs);
  }

  // ─── Skipping ────────────────────────────────────────────────────────

  predicate IsArrayTag(t: byte) { 0x90 <= t <= 0x9F || t == 0xDC || t == 0xDD }

  predicate IsMapTag(t: byte) { 0x80 <= t <= 0x8F || t == 0xDE || t == 0xDF }

  /** A count that turned negative in the cast runs no iterations. */
  function Iterations(n: int): nat {
    if n < 0 then 0 else n
  }

  function Skip(buf: Bytes, p: nat): (r: Read<()>)
    ensures r.Ok? ==> p < r.next <= |buf|
    decreases if p < |buf| then |buf| - p else 0, 0
  {
    if p >= |buf| then Fail(OutOfRange)
    else
      var t := buf[p];
      if t == 0xC0 || t == 0xC2 || t == 0xC3 then Ok((), p + 1)
      else if IntWidth(t).Some? then var (_, q) :- DecInt(buf, p); Ok((), q)
      else if IsStrTag(t) then var (_, q) :- Take(buf, StrLength(buf, p)); Ok((), q)
      else if IsBinTag(t) then var (_, q) :- DecBin(buf, p); Ok((), q)
      else if IsArrayTag(t) then var (n, q) :- DecArrayHeader(buf, p); SkipMany(buf, q, Iterations(n))
      else if IsMapTag(t) then var (n, q) :- DecMapHeader(buf, p); SkipMany(buf, q, 2 * Iterations(n))
      else Fail(NotSupported)
  }

  function SkipMany(buf: Bytes, p: nat, n: nat): (r: Read<()>)
    ensures r.Ok? ==> p <= r.next && (p <= |buf| ==> r.next <= |buf|)
    decreases if p < |buf| then |buf| - p else 0, 1, n
  {
    if n == 0 then Ok((), p)
    else
      var (_, q) :- SkipMany(buf, p, n - 1);
      Skip(buf, q)
  }

  // ─── Messages ────────────────────────────────────────────────────────

  function EncId(id: Option<Bytes>): Bytes
    requires id.Some? ==> |id.value| < 0x8000_0000
  {
    match id case None => [0xC0] case Some(s) => EncStr(s)
  }

  /** No string or array of the runtime is longer. */
  predicate TypeLimits(id: Option<Bytes>, target: Bytes, args: seq<Value>) {
    && (id.Some? ==> |id.value| < 0x8000_0000)
    && |target| < 0x8000_0000 && |args| < 0x8000_0000
  }

  predicate EncodableCall(id: Option<Bytes>, target: Bytes, args: seq<Value>) {
    TypeLimits(id, target, args) && AllEncodable(args)
  }

  /** An invocation that can be written: every argument is of a supported type, and the body fits a byte array. */
  predicate CallFits(id: Option<Bytes>, target: Bytes, args: seq<Value>) {
    EncodableCall(id, target, args) && |InvocationBody(id, target, args)| < 0x8000_0000
  }

  /** The same without the list of streams, as browsers write it. */
  predicate ClientCallFits(id: Option<Bytes>, target: Bytes, args: seq<Value>) {
    EncodableCall(id, target, args) && |ClientInvocationBody(id, target, args)| < 0x8000_0000
  }

  predicate VoidFits(id: Bytes) {
    |id| < 0x8000_0000 && |VoidCompletionBody(id)| < 0x8000_0000
  }

  predicate ResultFits(id: Bytes, result: Value) {
    |id| < 0x8000_0000 && Encodable(result) && |CompletionBody(id, result)| < 0x8000_0000
  }

  predicate ErrorFits(id: Bytes, error: Bytes) {
    |id| < 0x8000_0000 && |error| < 0x8000_0000 && |CompletionErrorBody(id, error)| < 0x8000_0000
  }

  function InvocationBody(id: Option<Bytes>, target: Bytes, args: seq<Value>): Bytes
    requires EncodableCall(id, target, args)
  {
    [0x96, 0x01, 0x80] + (EncId(id) + (EncStr(target) + (EncArrayHeader(|args|) + (EncValues(args) + [0x90]))))
  }

  /** Five elements: a client that streams nothing leaves the list of streams out. */
  function ClientInvocationBody(id: Option<Bytes>, target: Bytes, args: seq<Value>): Bytes
    requires EncodableCall(id, target, args)
  {
    [0x95, 0x01, 0x80] + (EncId(id) + (EncStr(target) + (EncArrayHeader(|args|) + EncValues(args))))
  }

  function VoidCompletionBody(id: Bytes): Bytes
    requires |id| < 0x8000_0000
  {
    [0x94, 0x03, 0x80] + (EncStr(id) + [0x02])
  }

  function CompletionBody(id: Bytes, result: Value): Bytes
    requires |id| < 0x8000_0000 && Encodable(result)
  {
    [0x95, 0x03, 0x80] + (EncStr(id) + ([0x03] + EncValue(result)))
  }

  function CompletionErrorBody(id: Bytes, error: Bytes): Bytes
    requires |id| < 0x8000_0000 && |error| < 0x8000_0000
  {
    [0x95, 0x03, 0x80] + (EncStr(id) + ([0x01] + EncStr(error)))
  }

  /** The body of a Ping is an array of one element, the type 6. */
  const PING_BODY: Bytes := [0x91, 0x06]

  function Framed(body: Bytes): Bytes {
    EncVarint(|body|) + body
  }

  /** The bytes a length prefix announces. */
  function FrameBody(frame: Bytes): Read<Bytes> {
    var (n, q) :- DecPrefix(frame, 0);
    if n > |frame| - q then Fail(FormatError)
    else if n < 0 then Fail(OutOfRange)
    else Ok(frame[q..q + n], q + n)
  }

  lemma {:induction false} FramedBody(body: Bytes, rest: Bytes)
    requires |body| < 0x8000_0000
    ensures FrameBody(Framed(body) + rest) == Ok(body, |Framed(body)|)
  {
    var buf := Framed(body) + rest;
    AtSplit(buf, 0, EncVarint(|body|), body);
    assert At(buf, 0, Framed(body));
    PrefixRoundTrip(buf, 0, |body|);
  }

  function DecInvocation(frame: Bytes): Read<Invocation> {
    var (body, end) :- FrameBody(frame);
    InvocationOf(body, end)
  }

  function InvocationOf(body: Bytes, end: nat): Read<Invocation> {
    var (n, p1) :- DecArrayHeader(body, 0);
    if n < 5 then Fail(FormatError) else
    var (kind, p2) :- DecInt(body, p1);
    var (_, p3) :- Skip(body, p2);
    var (id, p4) :- DecStr(body, p3);
    var (target, p5) :- DecStr(body, p4);
    if target == None then Fail(FormatError) else
    var (argc, p6) :- DecArrayHeader(body, p5);
    if argc < 0 then Fail(OutOfRange) else
    var (args, p7) :- DecValues(body, p6, argc);
    if n < 6 then Ok(Invocation(AsInt32(kind), id, target.value, args), end) else
    var _ :- Skip(body, p7);
    Ok(Invocation(AsInt32(kind), id, target.value, args), end)
  }

  function DecCompletion(frame: Bytes): Read<Completion> {
    var (body, end) :- FrameBody(frame);
    CompletionOf(body, end)
  }

  function CompletionOf(body: Bytes, end: nat): Read<Completion> {
    var (n, p1) :- DecArrayHeader(body, 0);
    if n < 4 then Fail(FormatError) else
    var (kind, p2) :- DecInt(body, p1);
    if AsInt32(kind) != 3 then Fail(FormatError) else
    var (_, p3) :- Skip(body, p2);
    var (id, p4) :- DecStr(body, p3);
    var (resultKind, p5) :- DecInt(body, p4);
    var k := AsInt32(resultKind);
    if k == 2 then Ok(Completion(id, None, false, Nil), end)
    else if (k != 1 && k != 3) || n < 5 then Fail(FormatError)
    else if k == 1 then
      var (error, _) :- DecStr(body, p5);
      Ok(Completion(id, error, false, Nil), end)
    else
      var (result, _) :- DecValue(body, p5);
      Ok(Completion(id, None, true, result), end)
  }

  /** An array tag, the message type, and an empty headers map. */
  lemma {:induction false} MessageHead(body: Bytes, n: nat, kind: byte, rest: Bytes)
    requires n <= 15 && kind < 0x80 && body == [0x90 + n, kind, 0x80] + rest
    ensures DecArrayHeader(body, 0) == Ok(n, 1) && DecInt(body, 1) == Ok(kind as int, 2)
    ensures Skip(body, 2) == Ok((), 3) && At(body, 3, rest)
  {
    assert body[3..] == rest;
    assert SkipMany(body, 3, 0) == Ok((), 3);
  }

  // What an encoding reads back as, wherever it stands.

  ghost predicate ReadsStr(e: Bytes, v: Option<Bytes>) {
    forall buf: Bytes, p: nat | At(buf, p, e) :: DecStr(buf, p) == Ok(v, p + |e|)
  }

  ghost predicate ReadsCount(e: Bytes, n: nat) {
    forall buf: Bytes, p: nat | At(buf, p, e) :: DecArrayHeader(buf, p) == Ok(n, p + |e|)
  }

  ghost predicate ReadsValues(e: Bytes, vs: seq<Value>) {
    forall buf: Bytes, p: nat | At(buf, p, e) :: DecValues(buf, p, |vs|) == Ok(vs, p + |e|)
  }

  ghost predicate ReadsValue(e: Bytes, v: Value) {
    forall buf: Bytes, p: nat | At(buf, p, e) :: DecValue(buf, p) == Ok(v, p + |e|)
  }

  ghost predicate Skips(e: Bytes) {
    forall buf: Bytes, p: nat | At(buf, p, e) :: Skip(buf, p) == Ok((), p + |e|)
  }

  lemma {:induction false} EmptySkips()
    ensures Skips([0x80]) && Skips([0x90])
  {
    forall buf: Bytes, p: nat | At(buf, p, [0x80]) ensures Skip(buf, p) == Ok((), p + 1) {
      AtIndex(buf, p, [0x80], 0);
      assert SkipMany(buf, p + 1, 0) == Ok((), p + 1);
    }
    forall buf: Bytes, p: nat | At(buf, p, [0x90]) ensures Skip(buf, p) == Ok((), p + 1) {
      AtIndex(buf, p, [0x90], 0);
      assert SkipMany(buf, p + 1, 0) == Ok((), p + 1);
    }
  }

  lemma {:induction false} StreamsSkip()
    ensures Ending(6, [0x90])
  {
    EmptySkips();
  }

  lemma {:induction false} SkipAt(buf: Bytes, p: nat, e: Bytes)
    requires Skips(e) && At(buf, p, e)
    ensures Skip(buf, p) == Ok((), p + |e|)
  {
  }

  lemma {:induction false} StrAt(buf: Bytes, p: nat, e: Bytes, v: Option<Bytes>)
    requires ReadsStr(e, v) && At(buf, p, e)
    ensures DecStr(buf, p) == Ok(v, p + |e|)
  {
  }

  lemma {:induction false} ArgsAt(buf: Bytes, p: nat, count: Bytes, e: Bytes, args: seq<Value>)
    requires ReadsCount(count, |args|) && ReadsValues(e, args) && At(buf, p, count) && At(buf, p + |count|, e)
    ensures DecArrayHeader(buf, p) == Ok(|args|, p + |count|)
    ensures DecValues(buf, p + |count|, |args|) == Ok(args, p + |count| + |e|)
  {
  }

  lemma {:induction false} StrReads(s: Bytes)
    requires |s| < 0x8000_0000
    ensures ReadsStr(EncStr(s), Some(s))
  {
    forall buf: Bytes, p: nat | At(buf, p, EncStr(s)) ensures DecStr(buf, p) == Ok(Some(s), p + |EncStr(s)|) {
      StrRoundTrip(buf, p, s);
    }
  }

  lemma {:induction false} IdReads(id: Option<Bytes>)
    requires id.Some? ==> |id.value| < 0x8000_0000
    ensures ReadsStr(EncId(id), id)
  {
    match id
    case None =>
      forall buf: Bytes, p: nat | At(buf, p, EncId(id)) ensures DecStr(buf, p) == Ok(None, p + 1) {
        AtIndex(buf, p, [0xC0], 0);
      }
    case Some(s) => StrReads(s);
  }

  lemma {:induction false} ArgsRead(args: seq<Value>)
    requires AllEncodable(args) && |args| < 0x8000_0000
    ensures ReadsCount(EncArrayHeader(|args|), |args|) && ReadsValues(EncValues(args), args)
  {
    forall buf: Bytes, p: nat | At(buf, p, EncArrayHeader(|args|))
      ensures DecArrayHeader(buf, p) == Ok(|args|, p + |EncArrayHeader(|args|)|)
    {
      ArrayHeaderRoundTrip(buf, p, |args|);
    }
    forall buf: Bytes, p: nat | At(buf, p, EncValues(args))
      ensures DecValues(buf, p, |args|) == Ok(args, p + |EncValues(args)|)
    {
      ValuesRoundTrip(buf, p, args);
    }
  }

  lemma {:induction false} ValueReads(v: Value)
    requires Encodable(v)
    ensures ReadsValue(EncValue(v), v)
  {
    forall buf: Bytes, p: nat | At(buf, p, EncValue(v)) ensures DecValue(buf, p) == Ok(v, p + |EncValue(v)|) {
      ValueRoundTrip(buf, p, v);
    }
  }

  lemma {:induction false} InvocationFields(body: Bytes, end: nat, n: nat, id: Option<Bytes>, target: Bytes,
      args: seq<Value>, p3: nat, p4: nat, p5: nat, p6: nat, p7: nat)
    requires 5 <= n <= 6 && DecArrayHeader(body, 0) == Ok(n, 1) && DecInt(body, 1) == Ok(1, 2)
    requires Skip(body, 2) == Ok((), p3)
    requires DecStr(body, p3) == Ok(id, p4) && DecStr(body, p4) == Ok(Some(target), p5)
    requires DecArrayHeader(body, p5) == Ok(|args|, p6) && DecValues(body, p6, |args|) == Ok(args, p7)
    requires n == 6 ==> Skip(body, p7).Ok?
    ensures InvocationOf(body, end) == Ok(Invocation(1, id, target, args), end)
  {
  }

  lemma {:induction false} InvocationHead(body: Bytes, n: nat, headers: Bytes, rest: Bytes)
    requires n <= 15 && body == [0x90 + n, 0x01] + (headers + rest) && Skips(headers)
    ensures DecArrayHeader(body, 0) == Ok(n, 1) && DecInt(body, 1) == Ok(1, 2)
    ensures Skip(body, 2) == Ok((), 2 + |headers|) && At(body, 2 + |headers|, rest)
  {
    assert body[2..] == headers + rest;
    assert At(body, 2, headers + rest);
    AtSplit(body, 2, headers, rest);
    SkipAt(body, 2, headers);
  }

  lemma {:induction false} TextsAt(body: Bytes, p: nat, id: Option<Bytes>, target: Bytes, e1: Bytes, e2: Bytes,
      rest: Bytes)
      returns (p4: nat, p5: nat)
    requires At(body, p, e1 + (e2 + rest)) && ReadsStr(e1, id) && ReadsStr(e2, Some(target))
    ensures DecStr(body, p) == Ok(id, p4) && DecStr(body, p4) == Ok(Some(target), p5) && At(body, p5, rest)
  {
    p4, p5 := p + |e1|, p + |e1| + |e2|;
    AtSplit(body, p, e1, e2 + rest);
    AtSplit(body, p4, e2, rest);
    StrAt(body, p, e1, id);
    StrAt(body, p4, e2, Some(target));
  }

  lemma {:induction false} ArgsThen(body: Bytes, p: nat, args: seq<Value>, e3: Bytes, e4: Bytes, streams: Bytes)
    requires At(body, p, e3 + (e4 + streams)) && ReadsCount(e3, |args|) && ReadsValues(e4, args)
    ensures DecArrayHeader(body, p) == Ok(|args|, p + |e3|)
    ensures DecValues(body, p + |e3|, |args|) == Ok(args, p + |e3| + |e4|)
    ensures At(body, p + |e3| + |e4|, streams)
  {
    AtSplit(body, p, e3, e4 + streams);
    AtSplit(body, p + |e3|, e4, streams);
    ArgsAt(body, p, e3, e4, args);
  }

  /** Five elements, or six with something skippable at the end. */
  ghost predicate Ending(n: nat, streams: Bytes) {
    (n == 5 && streams == []) || (n == 6 && Skips(streams))
  }

  /** The rest of an invocation, once its texts are read. */
  lemma {:induction false} ArgsFollow(body: Bytes, end: nat, n: nat, id: Option<Bytes>, target: Bytes,
      args: seq<Value>, p3: nat, p4: nat, p5: nat, e3: Bytes, e4: Bytes, streams: Bytes)
    requires DecArrayHeader(body, 0) == Ok(n, 1) && DecInt(body, 1) == Ok(1, 2) && Skip(body, 2) == Ok((), p3)
    requires DecStr(body, p3) == Ok(id, p4) && DecStr(body, p4) == Ok(Some(target), p5)
    requires At(body, p5, e3 + (e4 + streams)) && ReadsCount(e3, |args|) && ReadsValues(e4, args)
    requires Ending(n, streams)
    ensures InvocationOf(body, end) == Ok(Invocation(1, id, target, args), end)
  {
    ArgsThen(body, p5, args, e3, e4, streams);
    if n == 6 { SkipAt(body, p5 + |e3| + |e4|, streams); }
    InvocationFields(body, end, n, id, target, args, p3, p4, p5, p5 + |e3|, p5 + |e3| + |e4|);
  }

  /** All of an invocation behind its headers. */
  lemma {:induction false} TextsFollow(body: Bytes, end: nat, n: nat, id: Option<Bytes>, target: Bytes,
      args: seq<Value>, p3: nat, e1: Bytes, e2: Bytes, e3: Bytes, e4: Bytes, streams: Bytes, rest: Bytes)
    requires DecArrayHeader(body, 0) == Ok(n, 1) && DecInt(body, 1) == Ok(1, 2) && Skip(body, 2) == Ok((), p3)
    requires At(body, p3, e1 + (e2 + rest)) && rest == e3 + (e4 + streams) && Ending(n, streams)
    requires ReadsStr(e1, id) && ReadsStr(e2, Some(target)) && ReadsCount(e3, |args|) && ReadsValues(e4, args)
    ensures InvocationOf(body, end) == Ok(Invocation(1, id, target, args), end)
  {
    var p4, p5 := TextsAt(body, p3, id, target, e1, e2, rest);
    ArgsFollow(body, end, n, id, target, args, p3, p4, p5, e3, e4, streams);
  }

  /**
   The five or six parts of an invocation in any encodings that read back, with any headers
   and any list of streams.
   */
  lemma {:induction false} AnyInvocationIsRead(body: Bytes, end: nat, n: nat, id: Option<Bytes>, target: Bytes,
      args: seq<Value>, headers: Bytes, e1: Bytes, e2: Bytes, e3: Bytes, e4: Bytes, streams: Bytes)
    requires n <= 15 && body == [0x90 + n, 0x01] + (headers + (e1 + (e2 + (e3 + (e4 + streams)))))
    requires Skips(headers) && Ending(n, streams)
    requires ReadsStr(e1, id) && ReadsStr(e2, Some(target)) && ReadsCount(e3, |args|) && ReadsValues(e4, args)
    ensures InvocationOf(body, end) == Ok(Invocation(1, id, target, args), end)
  {
    var rest := e3 + (e4 + streams);
    InvocationHead(body, n, headers, e1 + (e2 + rest));
    TextsFollow(body, end, n, id, target, args, 2 + |headers|, e1, e2, e3, e4, streams, rest);
  }

  /** Empty headers, and the writer's encodings of everything else. */
  lemma {:induction false} WrittenParts(body: Bytes, end: nat, n: nat, id: Option<Bytes>, target: Bytes,
      args: seq<Value>, streams: Bytes)
    requires EncodableCall(id, target, args) && Ending(n, streams)
    requires body == [0x90 + n, 0x01, 0x80]
                     + (EncId(id) + (EncStr(target) + (EncArrayHeader(|args|) + (EncValues(args) + streams))))
    ensures InvocationOf(body, end) == Ok(Invocation(1, id, target, args), end)
  {
    IdReads(id);
    StrReads(target);
    ArgsRead(args);
    EmptySkips();
    var parts := EncId(id) + (EncStr(target) + (EncArrayHeader(|args|) + (EncValues(args) + streams)));
    HeadFirst(n, parts);
    AnyInvocationIsRead(body, end, n, id, target, args, [0x80],
                        EncId(id), EncStr(target), EncArrayHeader(|args|), EncValues(args), streams);
  }

  lemma {:induction false} HeadFirst(n: nat, parts: Bytes)
    requires n <= 15
    ensures [0x90 + n, 0x01, 0x80] + parts == [0x90 + n, 0x01] + ([0x80] + parts)
  {
  }

  /**
   Reading a written invocation returns the message, for every target, optional id and
   list of supported values, whatever follows the frame.
   */
  lemma {:induction false} InvocationRoundTrip(id: Option<Bytes>, target: Bytes, args: seq<Value>, rest: Bytes)
    requires CallFits(id, target, args)
    ensures var frame := Framed(InvocationBody(id, target, args));
            DecInvocation(frame + rest) == Ok(Invocation(1, id, target, args), |frame|)
  {
    var body := InvocationBody(id, target, args);
    FramedBody(body, rest);
    StreamsSkip();
    WrittenParts(body, |Framed(body)|, 6, id, target, args, [0x90]);
  }

  /** The same for the five elements that a browser posts. */
  lemma {:induction false} ClientInvocationRoundTrip(id: Option<Bytes>, target: Bytes, args: seq<Value>, rest: Bytes)
    requires ClientCallFits(id, target, args)
    ensures var frame := Framed(ClientInvocationBody(id, target, args));
            DecInvocation(frame + rest) == Ok(Invocation(1, id, target, args), |frame|)
  {
    var body := ClientInvocationBody(id, target, args);
    FramedBody(body, rest);
    assert EncValues(args) + [] == EncValues(args);
    WrittenParts(body, |Framed(body)|, 5, id, target, args, []);
  }

  lemma {:induction false} CompletionFields(body: Bytes, end: nat, n: nat, id: Bytes, p4: nat, kind: int)
    requires 4 <= n && DecArrayHeader(body, 0) == Ok(n, 1) && DecInt(body, 1) == Ok(3, 2) && Skip(body, 2) == Ok((), 3)
    requires DecStr(body, 3) == Ok(Some(id), p4) && DecInt(body, p4) == Ok(kind, p4 + 1)
    ensures kind == 2 ==> CompletionOf(body, end) == Ok(Completion(Some(id), None, false, Nil), end)
    ensures kind == 3 && n >= 5 && DecValue(body, p4 + 1).Ok? ==>
      CompletionOf(body, end) == Ok(Completion(Some(id), None, true, DecValue(body, p4 + 1).value), end)
    ensures kind == 1 && n >= 5 && DecStr(body, p4 + 1).Ok? ==>
      CompletionOf(body, end) == Ok(Completion(Some(id), DecStr(body, p4 + 1).value, false, Nil), end)
  {
  }

  /** The parts of a written completion, with the reader's outcome still open. */
  lemma {:induction false} CompletionFrom(body: Bytes, end: nat, n: nat, id: Bytes, kind: byte, e1: Bytes, e2: Bytes)
    requires 4 <= n <= 15 && body == [0x90 + n, 0x03, 0x80] + (e1 + ([kind] + e2))
    requires ReadsStr(e1, Some(id)) && 1 <= kind <= 3
    ensures At(body, 4 + |e1|, e2)
    ensures kind == 2 ==> CompletionOf(body, end) == Ok(Completion(Some(id), None, false, Nil), end)
    ensures kind == 3 && n >= 5 && DecValue(body, 4 + |e1|).Ok? ==>
      CompletionOf(body, end) == Ok(Completion(Some(id), None, true, DecValue(body, 4 + |e1|).value), end)
    ensures kind == 1 && n >= 5 && DecStr(body, 4 + |e1|).Ok? ==>
      CompletionOf(body, end) == Ok(Completion(Some(id), DecStr(body, 4 + |e1|).value, false, Nil), end)
  {
    MessageHead(body, n, 3, e1 + ([kind] + e2));
    AtSplit(body, 3, e1, [kind] + e2);
    StrAt(body, 3, e1, Some(id));
    TagThenRest(body, 3 + |e1|, kind, e2);
    CompletionFields(body, end, n, id, 3 + |e1|, kind);
  }

  lemma {:induction false} CompletionRoundTrip(id: Bytes, result: Value, rest: Bytes)
    requires ResultFits(id, result)
    ensures var frame := Framed(CompletionBody(id, result));
            DecCompletion(frame + rest) == Ok(Completion(Some(id), None, true, result), |frame|)
  {
    StrReads(id);
    ValueReads(result);
    var body := CompletionBody(id, result);
    FramedBody(body, rest);
    CompletionFrom(body, |Framed(body)|, 5, id, 3, EncStr(id), EncValue(result));
  }

  lemma {:induction false} CompletionErrorRoundTrip(id: Bytes, error: Bytes, rest: Bytes)
    requires ErrorFits(id, error)
    ensures var frame := Framed(CompletionErrorBody(id, error));
            DecCompletion(frame + rest) == Ok(Completion(Some(id), Some(error), false, Nil), |frame|)
  {
    StrReads(id);
    StrReads(error);
    var body := CompletionErrorBody(id, error);
    FramedBody(body, rest);
    CompletionFrom(body, |Framed(body)|, 5, id, 1, EncStr(id), EncStr(error));
  }

  /** A completion without a result. */
  lemma {:induction false} VoidCompletionRoundTrip(id: Bytes, rest: Bytes)
    requires VoidFits(id)
    ensures var frame := Framed(VoidCompletionBody(id));
            DecCompletion(frame + rest) == Ok(Completion(Some(id), None, false, Nil), |frame|)
  {
    StrReads(id);
    var body := VoidCompletionBody(id);
    FramedBody(body, rest);
    assert [0x02] + [] == [0x02];
    CompletionFrom(body, |Framed(body)|, 4, id, 2, EncStr(id), []);
  }
}
