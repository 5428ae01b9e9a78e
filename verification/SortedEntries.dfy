/** The sorted dictionary the registries use: entries in strictly increasing key order. */
module SortedEntries {
  import opened ByteStrings

  type Entries<V> = seq<(Bytes, V)>

  predicate StrictlySorted<V>(es: Entries<V>) {
    forall i, j | 0 <= i < j < |es| :: Less(es[i].0, es[j].0)
  }

  function Get<V>(es: Entries<V>, k: Bytes): Option<V> {
    if es == [] then None
    else if es[0].0 == k then Some(es[0].1)
    else Get(es[1..], k)
  }

  function Put<V>(es: Entries<V>, k: Bytes, v: V): Entries<V> {
    if es == [] || Less(k, es[0].0) then [(k, v)] + es
    else if es[0].0 == k then [(k, v)] + es[1..]
    else [es[0]] + Put(es[1..], k, v)
  }

  ghost function Keys<V>(es: Entries<V>): set<Bytes> {
    set e | e in es :: e.0
  }

  lemma {:induction false} PutKeepsOrder<V>(es: Entries<V>, k: Bytes, v: V)
    requires StrictlySorted(es)
    ensures StrictlySorted(Put(es, k, v))
    ensures forall e :: e in Put(es, k, v) ==> e == (k, v) || e in es
    ensures (k, v) in Put(es, k, v)
  {
    if es == [] {
    } else if Less(k, es[0].0) {
      forall j | 0 <= j < |es| ensures Less(k, es[j].0) {
        if j > 0 { LessIsTransitive(k, es[0].0, es[j].0); }
      }
    } else if es[0].0 == k {
    } else {
      PutKeepsOrder(es[1..], k, v);
      LessIsTotal(k, es[0].0);
      var tail := Put(es[1..], k, v);
      forall j | 0 <= j < |tail| ensures Less(es[0].0, tail[j].0) {
        assert tail[j] in tail;
        if tail[j] != (k, v) { assert tail[j] in es[1..]; }
      }
    }
  }

  /** Put then Get is an ordinary map update. */
  lemma {:induction false} GetAfterPut<V>(es: Entries<V>, k: Bytes, v: V, q: Bytes)
    requires StrictlySorted(es)
    ensures Get(Put(es, k, v), q) == if q == k then Some(v) else Get(es, q)
  {
    if es != [] && !Less(k, es[0].0) && es[0].0 != k {
      GetAfterPut(es[1..], k, v, q);
    }
  }

  lemma {:induction false} GetIsMembership<V>(es: Entries<V>, k: Bytes, v: V)
    requires StrictlySorted(es)
    ensures Get(es, k) == Some(v) <==> (k, v) in es
    ensures Get(es, k) == None <==> k !in Keys(es)
  {
    if es != [] {
      GetIsMembership(es[1..], k, v);
      LessIsStrict(es[0].0, es[0].0);
      assert es == [es[0]] + es[1..];
      assert Keys(es) == {es[0].0} + Keys(es[1..]);
      if (k, v) in es[1..] { LessIsStrict(k, es[0].0); }
    }
  }

  /** Two lists with the same keys in the same places. */
  lemma {:induction false} SameKeys<V, W>(a: Entries<V>, b: Entries<W>)
    requires |a| == |b| && StrictlySorted(a)
    requires forall i | 0 <= i < |a| :: a[i].0 == b[i].0
    ensures StrictlySorted(b) && Keys(a) == Keys(b)
  {
    forall k ensures k in Keys(a) <==> k in Keys(b) {
      if k in Keys(a) { var i :| 0 <= i < |a| && a[i].0 == k; assert b[i] in b; }
      if k in Keys(b) { var i :| 0 <= i < |b| && b[i].0 == k; assert a[i] in a; }
    }
  }

  // ─── Sorting ─────────────────────────────────────────────────────────

  /** Keys do not decrease. */
  predicate Ordered<V>(es: Entries<V>) {
    forall i, j | 0 <= i < j < |es| :: !Less(es[j].0, es[i].0)
  }

  /** Insertion before equal keys: one of the orders a sort may leave. */
  function Insert<V>(e: (Bytes, V), es: Entries<V>): Entries<V> {
    if es == [] || !Less(es[0].0, e.0) then [e] + es else [es[0]] + Insert(e, es[1..])
  }

  function InsertionSorted<V>(es: Entries<V>): Entries<V> {
    if es == [] then [] else Insert(es[0], InsertionSorted(es[1..]))
  }

  lemma {:induction false} InsertSorts<V>(e: (Bytes, V), es: Entries<V>)
    requires Ordered(es)
    ensures Ordered(Insert(e, es)) && multiset(Insert(e, es)) == multiset(es) + multiset{e}
  {
    if es == [] {
    } else if !Less(es[0].0, e.0) {
      forall j | 0 <= j < |es| ensures !Less(es[j].0, e.0) {
        if Less(es[j].0, e.0) { NotLessBetween(es[0].0, es[j].0, e.0); }
      }
    } else {
      InsertSorts(e, es[1..]);
      var tail := Insert(e, es[1..]);
      forall j | 0 <= j < |tail| ensures !Less(tail[j].0, es[0].0) {
        assert tail[j] in multiset(tail);
        LessIsStrict(es[0].0, e.0);
        assert tail[j] == e || tail[j] in es[1..];
      }
      assert es == [es[0]] + es[1..];
    }
  }

  lemma {:induction false} NotLessBetween(a: Bytes, b: Bytes, c: Bytes)
    requires !Less(b, a) && Less(b, c)
    ensures Less(a, c)
  {
    LessIsTotal(a, b);
    if a != b { LessIsTransitive(a, b, c); }
  }

  lemma {:induction false} InsertionSortSorts<V>(es: Entries<V>)
    ensures Ordered(InsertionSorted(es)) && multiset(InsertionSorted(es)) == multiset(es)
  {
    if es != [] {
      InsertionSortSorts(es[1..]);
      InsertSorts(es[0], InsertionSorted(es[1..]));
      assert es == [es[0]] + es[1..];
    }
  }

  lemma {:induction false} GetIsEntry<V>(es: Entries<V>, k: Bytes)
    ensures match Get(es, k)
            case Some(v) => (k, v) in es
            case None => forall e | e in es :: e.0 != k
  {
    if es != [] {
      GetIsEntry(es[1..], k);
      assert es == [es[0]] + es[1..];
    }
  }

  /** In a list without equal keys an entry stands once. */
  lemma {:induction false} StandsOnce<V>(es: Entries<V>, e: (Bytes, V))
    requires StrictlySorted(es)
    ensures multiset(es)[e] <= 1
  {
    if es != [] {
      StandsOnce(es[1..], e);
      assert es == [es[0]] + es[1..];
      if e in es[1..] { LessIsStrict(e.0, e.0); }
    }
  }

  lemma {:induction false} StandsTwice<V>(es: Entries<V>, i: nat, j: nat)
    requires i < j < |es| && es[i] == es[j]
    ensures multiset(es)[es[i]] >= 2
  {
    assert es == es[..j] + es[j..] && es[i] in es[..j] && es[j..][0] == es[i];
    assert es[j..] == [es[i]] + es[j..][1..];
  }

  /** Ordered entries of which no two share a key are strictly sorted. */
  lemma {:induction false} OrderedIsStrict<V>(es: Entries<V>)
    requires Ordered(es) && forall e | e in es :: multiset(es)[e] <= 1
    requires forall a, b | a in es && b in es && a.0 == b.0 :: a == b
    ensures StrictlySorted(es)
  {
    forall i, j | 0 <= i < j < |es| ensures Less(es[i].0, es[j].0) {
      if es[i].0 == es[j].0 { StandsTwice(es, i, j); }
      LessIsTotal(es[i].0, es[j].0);
    }
  }
}
