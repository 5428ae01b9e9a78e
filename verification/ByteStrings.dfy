/** Byte strings: order, concatenation, substrings, integers of fixed and variable length, decimal numerals. */
module ByteStrings {

  datatype Option<+T> = None | Some(value: T)

  type byte = b: int | 0 <= b < 256
  type Bytes = seq<byte>

  /** ASCII encoding; anything else becomes a question mark. */
  function Ascii(s: string): (r: Bytes)
    ensures |r| == |s|
    ensures forall i | 0 <= i < |s| && s[i] < '\U{0080}' :: r[i] == s[i] as int
  {
    seq<byte>(|s|, i requires 0 <= i < |s| => if s[i] < '\U{0080}' then s[i] as int else 0x3F)
  }

  // ─── Lexicographic order ─────────────────────────────────────────────

  predicate Less(a: Bytes, b: Bytes) {
    b != [] && (a == [] || a[0] < b[0] || (a[0] == b[0] && Less(a[1..], b[1..])))
  }

  lemma {:induction false} LessIsStrict(a: Bytes, b: Bytes)
    ensures !(Less(a, b) && Less(b, a))
    ensures !Less(a, a)
  {
    if a != [] && b != [] { LessIsStrict(a[1..], b[1..]); }
    if a != [] { LessIsStrict(a[1..], a[1..]); }
  }

  lemma {:induction false} LessIsTransitive(a: Bytes, b: Bytes, c: Bytes)
    requires Less(a, b) && Less(b, c)
    ensures Less(a, c)
  {
    if a != [] && a[0] == b[0] == c[0] { LessIsTransitive(a[1..], b[1..], c[1..]); }
  }

  lemma {:induction false} LessIsTotal(a: Bytes, b: Bytes)
    ensures a == b || Less(a, b) || Less(b, a)
  {
    if a != [] && b != [] && a[0] == b[0] {
      LessIsTotal(a[1..], b[1..]);
      assert a == [a[0]] + a[1..] && b == [b[0]] + b[1..];
    }
  }

  // ─── Concatenation ───────────────────────────────────────────────────

  function Concat<T>(parts: seq<seq<T>>): seq<T> {
    if parts == [] then [] else parts[0] + Concat(parts[1..])
  }

  lemma {:induction false} ConcatAppend<T>(xs: seq<seq<T>>, ys: seq<seq<T>>)
    ensures Concat(xs + ys) == Concat(xs) + Concat(ys)
  {
    if xs == [] {
      assert xs + ys == ys;
    } else {
      assert (xs + ys)[1..] == xs[1..] + ys;
      ConcatAppend(xs[1..], ys);
    }
  }

  lemma {:induction false} ConcatSnoc<T>(xs: seq<seq<T>>, y: seq<T>)
    ensures Concat(xs + [y]) == Concat(xs) + y
  {
    ConcatAppend(xs, [y]);
    assert Concat([y]) == y;
  }

  // ─── Substrings ──────────────────────────────────────────────────────

  /** `s` stands in `buf` at offset `p`. */
  predicate At(buf: Bytes, p: nat, s: Bytes) {
    p + |s| <= |buf| && buf[p..p + |s|] == s
  }

  lemma {:induction false} AtSplit(buf: Bytes, p: nat, a: Bytes, b: Bytes)
    ensures At(buf, p, a + b) <==> At(buf, p, a) && At(buf, p + |a|, b)
  {
    if At(buf, p, a + b) {
      assert buf[p..p + |a|] == (a + b)[..|a|] == a;
      assert buf[p + |a|..p + |a| + |b|] == (a + b)[|a|..] == b;
    }
    if At(buf, p, a) && At(buf, p + |a|, b) {
      assert buf[p..p + |a + b|] == buf[p..p + |a|] + buf[p + |a|..p + |a| + |b|];
    }
  }

  lemma {:induction false} AtIndex(buf: Bytes, p: nat, s: Bytes, i: nat)
    requires At(buf, p, s) && i < |s|
    ensures buf[p + i] == s[i]
  {
    assert buf[p..p + |s|][i] == s[i];
  }

  /** Agreement on a range is agreement on any part of it. */
  lemma {:induction false} SubSlice(a: Bytes, b: Bytes, lo: nat, hi: nat, p: nat, q: nat)
    requires lo <= p <= q <= hi <= |a| && hi <= |b| && a[lo..hi] == b[lo..hi]
    ensures a[p..q] == b[p..q]
  {
    forall i | p <= i < q ensures a[i] == b[i] {
      assert a[lo..hi][i - lo] == b[lo..hi][i - lo];
    }
  }

  // ─── Little-endian integers ──────────────────────────────────────────

  function LE(n: nat, k: nat): (r: Bytes)
    ensures |r| == k
  {
    if k == 0 then [] else [n % 0x100] + LE(n / 0x100, k - 1)
  }

  function FromLE(s: Bytes): nat {
    if s == [] then 0 else s[0] + 0x100 * FromLE(s[1..])
  }

  function Pow256(k: nat): nat { if k == 0 then 1 else 0x100 * Pow256(k - 1) }

  lemma {:induction false} LERoundTrip(n: nat, k: nat)
    requires n < Pow256(k)
    ensures FromLE(LE(n, k)) == n
  {
    if k > 0 {
      LERoundTrip(n / 0x100, k - 1);
      assert LE(n, k)[1..] == LE(n / 0x100, k - 1);
    }
  }

  lemma {:induction false} LEInverts(s: Bytes)
    ensures LE(FromLE(s), |s|) == s
  {
    if s != [] {
      LEInverts(s[1..]);
      assert s == [s[0]] + s[1..];
    }
  }

  lemma {:induction false} FromLEBound(s: Bytes)
    ensures FromLE(s) < Pow256(|s|)
  {
    if s != [] { FromLEBound(s[1..]); }
  }

  lemma {:induction false} Pow256Values()
    ensures Pow256(2) == 0x1_0000 && Pow256(4) == 0x1_0000_0000 && Pow256(8) == 0x1_0000_0000_0000_0000
  {
    assert Pow256(3) == 0x100_0000 && Pow256(5) == 0x100_0000_0000;
    assert Pow256(6) == 0x1_0000_0000_0000 && Pow256(7) == 0x100_0000_0000_0000;
  }

  // ─── Variable-length integers ────────────────────────────────────────

  /** Seven bits a byte, low bits first, the top bit set while more follow. */
  function EncVarint(n: nat): Bytes {
    if n < 0x80 then [n] else [n % 0x80 + 0x80] + EncVarint(n / 0x80)
  }

  datatype Varint = Number(value: nat, next: nat) | CutOff | TooLong

  /** The number that at most `k` bytes from `p` hold. */
  function ReadVarint(buf: Bytes, p: nat, k: nat): (r: Varint)
    ensures r.Number? ==> p < r.next <= p + k && r.next <= |buf|
    decreases if p < |buf| then |buf| - p else 0
  {
    if k == 0 then TooLong
    else if p >= |buf| then CutOff
    else if buf[p] < 0x80 then Number(buf[p], p + 1)
    else Scaled(buf[p] - 0x80, 0x80, ReadVarint(buf, p + 1, k - 1))
  }

  /** A number read in two parts: the low bits so far, and the rest at its weight. */
  function Scaled(low: nat, weight: nat, rest: Varint): Varint {
    match rest
    case Number(v, q) => Number(low + weight * v, q)
    case _ => rest
  }

  /** What the readers' loops do with one more byte. */
  lemma {:induction false} VarintStep(buf: Bytes, p: nat, k: nat, low: nat, weight: nat)
    requires k > 0 && p < |buf|
    ensures Scaled(low, weight, ReadVarint(buf, p, k)) ==
      if buf[p] < 0x80 then Number(low + buf[p] % 0x80 * weight, p + 1)
      else Scaled(low + buf[p] % 0x80 * weight, weight * 0x80, ReadVarint(buf, p + 1, k - 1))
  {
    var tail := ReadVarint(buf, p + 1, k - 1);
    if buf[p] >= 0x80 && tail.Number? { Distribute(weight, buf[p] - 0x80, tail.value); }
  }

  lemma {:induction false} Distribute(w: nat, a: nat, b: nat)
    ensures w * (a + 0x80 * b) == a * w + w * 0x80 * b
  {
    assert w * (a + 0x80 * b) == w * a + w * (0x80 * b);
  }

  lemma {:induction false} VarintReads(buf: Bytes, p: nat, n: nat, k: nat)
    requires At(buf, p, EncVarint(n)) && |EncVarint(n)| <= k
    ensures ReadVarint(buf, p, k) == Number(n, p + |EncVarint(n)|)
    decreases k
  {
    AtIndex(buf, p, EncVarint(n), 0);
    if n >= 0x80 {
      AtSplit(buf, p, [n % 0x80 + 0x80], EncVarint(n / 0x80));
      VarintReads(buf, p + 1, n / 0x80, k - 1);
    }
  }

  /** Reading does not depend on what stands before. */
  lemma {:induction false} VarintShift(a: Bytes, b: Bytes, p: nat, k: nat)
    ensures ReadVarint(a + b, |a| + p, k) ==
      match ReadVarint(b, p, k)
      case Number(v, q) => Number(v, |a| + q)
      case failed => failed
    decreases k
  {
    if k > 0 && p < |b| { VarintShift(a, b, p + 1, k - 1); }
  }

  /** A number read stays the same when more bytes follow. */
  lemma {:induction false} VarintExtends(a: Bytes, b: Bytes, p: nat, k: nat)
    requires ReadVarint(a, p, k).Number?
    ensures ReadVarint(a + b, p, k) == ReadVarint(a, p, k)
    decreases k
  {
    if a[p] >= 0x80 { VarintExtends(a, b, p + 1, k - 1); }
  }

  /** Nor on what stands around its bytes. */
  lemma {:induction false} VarintCut(buf: Bytes, start: nat, p: nat, k: nat)
    requires start <= p && ReadVarint(buf, p, k).Number?
    ensures var r := ReadVarint(buf, p, k);
            ReadVarint(buf[start..r.next], p - start, k) == Number(r.value, r.next - start)
    decreases k
  {
    if buf[p] >= 0x80 { VarintCut(buf, start, p + 1, k - 1); }
  }

  // ─── Decimal numerals ────────────────────────────────────────────────

  function Digits(n: nat): (r: string)
    ensures r != []
    ensures forall c | c in r :: '0' <= c <= '9'
  {
    var d := '0' + (n % 10) as char;
    if n < 10 then [d] else Digits(n / 10) + [d]
  }

  lemma {:induction false} DigitsInjective(m: nat, n: nat)
    requires Digits(m) == Digits(n)
    ensures m == n
  {
    var dm, dn := Digits(m), Digits(n);
    assert dm[|dm| - 1] == '0' + (m % 10) as char;
    assert dn[|dn| - 1] == '0' + (n % 10) as char;
    if m >= 10 && n >= 10 {
      assert Digits(m / 10) == dm[..|dm| - 1] == dn[..|dn| - 1] == Digits(n / 10);
      DigitsInjective(m / 10, n / 10);
    } else {
      DigitsLength(m);
      DigitsLength(n);
    }
  }

  lemma {:induction false} DigitsLength(n: nat)
    ensures |Digits(n)| == 1 <==> n < 10
  {
  }
}
