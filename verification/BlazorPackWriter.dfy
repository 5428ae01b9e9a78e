/** The BlazorPack writers: they append to a byte list and put the length prefix in front. */
module BlazorPackWriter {
  import opened ByteStrings
  import opened BlazorPack

  class Sink {
    var bytes: Bytes

    constructor ()
      ensures bytes == []
    {
      bytes := [];
    }

    method Add(b: byte)
      modifies this
      ensures bytes == old(bytes) + [b]
    {
      bytes := bytes + [b];
    }

    method AddRange(data: Bytes)
      modifies this
      ensures bytes == old(bytes) + data
    {
      for i := 0 to |data|
        invariant bytes == old(bytes) + data[..i]
      {
        Add(data[i]);
      }
    }

    method WriteArrayHeader(count: nat)
      requires count < 0x8000_0000
      modifies this
      ensures bytes == old(bytes) + EncArrayHeader(count)
    {
      if count <= 15 {
        Add(0x90 + count);
      } else if count <= 0xFFFF {
        Add(0xDC);
        Add(count / 0x100);
        Add(count % 0x100);
      } else {
        Add(0xDD);
        AddBigEndian4(count);
      }
    }

    method AddBigEndian4(n: nat)
      requires n < 0x1_0000_0000
      modifies this
      ensures bytes == old(bytes) + BE4(n)
    {
      FourBytes(n);
      Add(n / 0x100_0000);
      Add(n / 0x1_0000 % 0x100);
      Add(n / 0x100 % 0x100);
      Add(n % 0x100);
    }

    method WriteString(s: Bytes)
      requires |s| < 0x8000_0000
      modifies this
      ensures bytes == old(bytes) + EncStr(s)
    {
      var len := |s|;
      if len <= 31 {
        Add(0xA0 + len);
      } else if len <= 0xFF {
        Add(0xD9);
        Add(len);
      } else if len <= 0xFFFF {
        Add(0xDA);
        Add(len / 0x100);
        Add(len % 0x100);
      } else {
        Add(0xDB);
        AddBigEndian4(len);
      }
      assert bytes == old(bytes) + StrHeader(len);
      AddRange(s);
    }

    method WriteBinary(data: Bytes)
      requires |data| < 0x8000_0000
      modifies this
      ensures bytes == old(bytes) + EncBin(data)
    {
      var len := |data|;
      if len <= 0xFF {
        Add(0xC4);
        Add(len);
      } else if len <= 0xFFFF {
        Add(0xC5);
        Add(len / 0x100);
        Add(len % 0x100);
      } else {
        Add(0xC6);
        AddBigEndian4(len);
      }
      assert bytes == old(bytes) + BinHeader(len);
      AddRange(data);
    }

    method WriteInt64(v: int)
      requires Int64(v)
      modifies this
      ensures bytes == old(bytes) + EncInt(v)
    {
      if v >= 0 { WriteUnsigned(v); } else { WriteNegative(v); }
    }

    method WriteUnsigned(v: nat)
      requires Int64(v)
      modifies this
      ensures bytes == old(bytes) + EncInt(v)
    {
      if v <= 127 { Add(v); return; }
      if v <= 0xFF { Add(0xCC); Add(v); return; }
      if v <= 0xFFFF { Add(0xCD); Add(v / 0x100); Add(v % 0x100); return; }
      AddWide(v);
    }

    method AddWide(v: nat)
      requires Int64(v) && v > 0xFFFF
      modifies this
      ensures bytes == old(bytes) + EncInt(v)
    {
      if v <= 0xFFFF_FFFF { Add(0xCE); AddRange(BE4(v)); return; }
      Add(0xCF);
      AddRange(BE8(v));
    }

    method WriteNegative(v: int)
      requires Int64(v) && v < 0
      modifies this
      ensures bytes == old(bytes) + EncInt(v)
    {
      if v >= -32 { Add(v + 0x100); return; }
      if v >= -0x80 { Add(0xD0); Add(v + 0x100); return; }
      if v >= -0x8000 {
        Add(0xD1);
        Add((v + 0x1_0000) / 0x100);
        Add((v + 0x1_0000) % 0x100);
        return;
      }
      AddWideNegative(v);
    }

    method AddWideNegative(v: int)
      requires Int64(v) && v < -0x8000
      modifies this
      ensures bytes == old(bytes) + EncInt(v)
    {
      if v >= -0x8000_0000 { Add(0xD2); AddRange(BE4(v + 0x1_0000_0000)); return; }
      Add(0xD3);
      AddRange(BE8(v + 0x1_0000_0000_0000_0000));
    }

    method WriteBool(b: bool)
      modifies this
      ensures bytes == old(bytes) + [if b then 0xC3 else 0xC2]
    {
      Add(if b then 0xC3 else 0xC2);
    }

    /** False for a value of a type the writer does not support. */
    method WriteValue(v: Value) returns (ok: bool)
      modifies this
      ensures ok == Encodable(v)
      ensures ok ==> bytes == old(bytes) + EncValue(v)
    {
      if !Encodable(v) { return false; }
      match v {
        case Nil => Add(0xC0);
        case Bool(b) => WriteBool(b);
        case Int(i) => WriteInt64(i);
        case Str(s) => WriteString(s);
        case Bin(s) => WriteBinary(s);
      }
      ok := true;
    }

    /** Array tag, message type, empty headers. */
    method WriteHead(elements: nat, kind: byte)
      requires elements <= 15
      modifies this
      ensures bytes == old(bytes) + [0x90 + elements, kind, 0x80]
    {
      WriteArrayHeader(elements);
      Add(kind);
      Add(0x80);
    }

    method WriteId(id: Option<Bytes>)
      requires id.Some? ==> |id.value| < 0x8000_0000
      modifies this
      ensures bytes == old(bytes) + EncId(id)
    {
      match id
      case None => Add(0xC0);
      case Some(s) => WriteString(s);
    }

    method WriteValues(args: seq<Value>) returns (ok: bool)
      modifies this
      ensures ok == AllEncodable(args)
      ensures ok ==> bytes == old(bytes) + EncValues(args)
    {
      for i := 0 to |args|
        invariant AllEncodable(args[..i]) && bytes == old(bytes) + EncValues(args[..i])
      {
        ok := WriteValue(args[i]);
        if !ok { return; }
        OneMoreValue(args, i);
      }
      assert args[..|args|] == args;
      ok := true;
    }
  }

  lemma {:induction false} OneMoreValue(args: seq<Value>, i: nat)
    requires i < |args| && AllEncodable(args[..i]) && Encodable(args[i])
    ensures AllEncodable(args[..i + 1])
    ensures EncValues(args[..i + 1]) == EncValues(args[..i]) + EncValue(args[i])
  {
    var more := args[..i + 1];
    assert forall k | 0 <= k < |more| :: more[k] == if k < i then args[..i][k] else args[i];
    assert EncParts(more) == EncParts(args[..i]) + [EncValue(args[i])];
    ConcatSnoc(EncParts(args[..i]), EncValue(args[i]));
  }

  /** Bytes written, or None for a negative length. */
  method WriteLengthPrefix(length: int, dest: array<byte>) returns (written: Option<nat>)
    requires length < 0x8000_0000 && dest.Length >= 5
    modifies dest
    ensures written == None <==> length < 0
    ensures written.Some? ==> written.value <= dest.Length && dest[..written.value] == EncVarint(length)
    ensures written.Some? ==> forall k | written.value <= k < dest.Length :: dest[k] == old(dest[k])
  {
    if length < 0 { return None; }
    PrefixIsShort(length);
    var i, rest, more := 0, length, true;
    while more
      invariant i <= 5 && rest >= 0
      invariant PrefixLeft(length, dest[..i], rest, more)
      invariant forall k | i <= k < dest.Length :: dest[k] == old(dest[k])
      decreases if more then rest + 1 else 0
    {
      PrefixStep(length, dest[..i], rest);
      var b := rest % 0x80;
      rest := rest / 0x80;
      more := rest > 0;
      b := if more then b + 0x80 else b;
      ghost var done := dest[..i] + [b];
      dest[i] := b;
      i := i + 1;
      assert dest[..i] == done;
    }
    written := Some(i);
  }

  /** The prefix of `total` is `done`, then that of `rest` when more is to come. */
  ghost predicate PrefixLeft(total: nat, done: Bytes, rest: nat, more: bool) {
    && |EncVarint(total)| <= 5 && (more ==> |done| < 5)
    && EncVarint(total) == done + (if more then EncVarint(rest) else [])
  }

  lemma {:induction false} PrefixStep(total: nat, done: Bytes, rest: nat)
    requires PrefixLeft(total, done, rest, true)
    ensures var more := rest / 0x80 > 0;
            PrefixLeft(total, done + [if more then rest % 0x80 + 0x80 else rest % 0x80], rest / 0x80, more)
  {
    assert EncVarint(rest)[1..] == if rest / 0x80 > 0 then EncVarint(rest / 0x80) else [];
  }

  /** The body behind its length, as long as the whole fits a byte array. */
  method Frame(body: Sink) returns (frame: Option<Bytes>)
    ensures frame == if |body.bytes| < 0x8000_0000 then Some(Framed(body.bytes)) else None
  {
    if |body.bytes| >= 0x8000_0000 { return None; }
    var lenBuf := new byte[5];
    var written := WriteLengthPrefix(|body.bytes|, lenBuf);
    frame := Some(lenBuf[..written.value] + body.bytes);
  }

  lemma {:induction false} Associate(a: Bytes, b: Bytes, c: Bytes, d: Bytes, e: Bytes, f: Bytes)
    ensures ((((a + b) + c) + d) + e) + f == a + (b + (c + (d + (e + f))))
    ensures ((a + b) + c) + d == a + (b + (c + d))
    ensures ([] + a) == a
  {
  }

  method WriteInvocationCore(id: Option<Bytes>, target: Bytes, args: seq<Value>) returns (frame: Option<Bytes>)
    requires TypeLimits(id, target, args)
    ensures frame == if CallFits(id, target, args) then Some(Framed(InvocationBody(id, target, args))) else None
  {
    var body := new Sink();
    body.WriteHead(6, 0x01);
    body.WriteId(id);
    body.WriteString(target);
    body.WriteArrayHeader(|args|);
    var ok := body.WriteValues(args);
    if !ok { return None; }
    body.Add(0x90);
    Associate([0x96, 0x01, 0x80], EncId(id), EncStr(target), EncArrayHeader(|args|), EncValues(args), [0x90]);
    frame := Frame(body);
  }

  lemma {:induction false} InvocationReadsBack(id: Option<Bytes>, target: Bytes, args: seq<Value>)
    requires CallFits(id, target, args)
    ensures var frame := Framed(InvocationBody(id, target, args));
            DecInvocation(frame) == Ok(Invocation(1, id, target, args), |frame|)
  {
    var frame := Framed(InvocationBody(id, target, args));
    InvocationRoundTrip(id, target, args, []);
    assert frame + [] == frame;
  }

  /** Fire-and-forget: no invocation id. */
  method WriteInvocation(target: Bytes, args: seq<Value>) returns (frame: Option<Bytes>)
    requires TypeLimits(None, target, args)
    ensures frame == if CallFits(None, target, args) then Some(Framed(InvocationBody(None, target, args))) else None
    ensures frame.Some? ==>
              DecInvocation(frame.value) == Ok(Invocation(1, None, target, args), |frame.value|)
  {
    frame := WriteInvocationCore(None, target, args);
    if frame.Some? { InvocationReadsBack(None, target, args); }
  }

  /** An empty id is refused. */
  method WriteInvocationWithId(id: Bytes, target: Bytes, args: seq<Value>) returns (frame: Option<Bytes>)
    requires TypeLimits(Some(id), target, args)
    ensures frame == if id != [] && CallFits(Some(id), target, args)
                     then Some(Framed(InvocationBody(Some(id), target, args))) else None
    ensures frame.Some? ==>
              DecInvocation(frame.value) == Ok(Invocation(1, Some(id), target, args), |frame.value|)
  {
    if id == [] { return None; }
    frame := WriteInvocationCore(Some(id), target, args);
    if frame.Some? { InvocationReadsBack(Some(id), target, args); }
  }

  method WriteCompletion(id: Bytes, result: Value) returns (frame: Option<Bytes>)
    requires |id| < 0x8000_0000
    ensures frame == if id != [] && ResultFits(id, result) then Some(Framed(CompletionBody(id, result))) else None
    ensures frame.Some? ==>
              DecCompletion(frame.value) == Ok(Completion(Some(id), None, true, result), |frame.value|)
  {
    if id == [] { return None; }
    var body := new Sink();
    body.WriteHead(5, 0x03);
    body.WriteString(id);
    body.Add(0x03);
    var ok := body.WriteValue(result);
    if !ok { return None; }
    Associate([0x95, 0x03, 0x80], EncStr(id), [0x03], EncValue(result), [], []);
    frame := Frame(body);
    if frame.Some? { CompletionReadsBack(id, result); }
  }

  lemma {:induction false} CompletionReadsBack(id: Bytes, result: Value)
    requires ResultFits(id, result)
    ensures var frame := Framed(CompletionBody(id, result));
            DecCompletion(frame) == Ok(Completion(Some(id), None, true, result), |frame|)
  {
    var frame := Framed(CompletionBody(id, result));
    CompletionRoundTrip(id, result, []);
    assert frame + [] == frame;
  }

  /** Unlike the writer of results, this one takes an empty id. */
  method WriteCompletionError(id: Bytes, error: Bytes) returns (frame: Option<Bytes>)
    requires |id| < 0x8000_0000 && |error| < 0x8000_0000
    ensures frame == if ErrorFits(id, error) then Some(Framed(CompletionErrorBody(id, error))) else None
    ensures frame.Some? ==>
              DecCompletion(frame.value) == Ok(Completion(Some(id), Some(error), false, Nil), |frame.value|)
  {
    var body := new Sink();
    body.WriteHead(5, 0x03);
    body.WriteString(id);
    body.Add(0x01);
    body.WriteString(error);
    Associate([0x95, 0x03, 0x80], EncStr(id), [0x01], EncStr(error), [], []);
    frame := Frame(body);
    if frame.Some? { CompletionErrorReadsBack(id, error); }
  }

  lemma {:induction false} CompletionErrorReadsBack(id: Bytes, error: Bytes)
    requires ErrorFits(id, error)
    ensures var frame := Framed(CompletionErrorBody(id, error));
            DecCompletion(frame) == Ok(Completion(Some(id), Some(error), false, Nil), |frame|)
  {
    var frame := Framed(CompletionErrorBody(id, error));
    CompletionErrorRoundTrip(id, error, []);
    assert frame + [] == frame;
  }
}
