/** The element-pair threshold model shared by the classifier and the
    connection-table writer: the per-key cutoff cache (`max_connected`,
    `max_ts_distance` / `ts_distance`) and the nearest-reference-length choice. */
module Thresholds {
  import opened Outcomes
  import opened Geometry

  /** Squared cutoffs for one element-pair key: bonded (`max_connected`) and transition-state. */
  datatype Cutoff = Cutoff(connected: real, ts: real)

  /** One item of `BondOrder.bonds[key]`: an order label such as "1.5" and its reference length. */
  type RefEntry = (string, real)

  /** What the source takes from its chemistry library and from numpy, as parameters:
      `key` is `BondOrder.key`, `radii` is `RADII`, `reference` is `BondOrder.bonds`
      (each entry list in dict order) and `sqrt` is `np.sqrt`. Nothing is assumed about them. */
  datatype Tables = Tables(
    key: (string, string) -> string,
    radii: map<string, real>,
    reference: map<string, seq<RefEntry>>,
    sqrt: real -> real)

  /** `RADII[name]` raised KeyError. */
  datatype CacheError = MissingRadius(element: string)

  function Square(x: real): real {
    x * x
  }

  /** Cutoffs of two atoms with radii `r1`, `r2`: `(r1 + r2 + tol) ** 2` and `(r1 + r2 + tsTol) ** 2`. */
  function PairCutoff(r1: real, r2: real, tol: real, tsTol: real): Cutoff {
    Cutoff(Square(r1 + r2 + tol), Square(r1 + r2 + tsTol))
  }

  /** A larger tolerance never gives a smaller cutoff, as long as the cutoff sums stay non-negative. */
  lemma PairCutoffOrdered(r1: real, r2: real, tol: real, tsTol: real)
    requires 0.0 <= r1 + r2 + tol <= r1 + r2 + tsTol
    ensures PairCutoff(r1, r2, tol, tsTol).connected <= PairCutoff(r1, r2, tol, tsTol).ts
  {
    var a := r1 + r2 + tol;
    var b := r1 + r2 + tsTol;
    assert a * a <= a * b <= b * b;
  }

  /** The pairs (i, j) with j <= i < n in the order of the source's double loop
      `for i, a1 in enumerate(atoms): for a2 in atoms[:i + 1]`. */
  function LowerPairs(n: nat): seq<(nat, nat)> {
    if n == 0 then [] else LowerPairs(n - 1) + seq(n, j requires 0 <= j < n => (n - 1, j))
  }

  /** Every visited pair has j <= i < n, and it sits at position Tri(i) + j. */
  lemma {:induction false} LowerPairsMembers(n: nat)
    ensures |LowerPairs(n)| == Tri(n)
    ensures forall k :: 0 <= k < |LowerPairs(n)| ==>
      LowerPairs(n)[k].1 <= LowerPairs(n)[k].0 < n && k == Tri(LowerPairs(n)[k].0) + LowerPairs(n)[k].1
  {
    if n > 0 {
      LowerPairsMembers(n - 1);
    }
  }

  predicate PairsIn(pairs: seq<(nat, nat)>, n: nat) {
    forall k :: 0 <= k < |pairs| ==> pairs[k].0 < n && pairs[k].1 < n
  }

  /** The cutoffs of pair `p`, or the KeyError of the first radius lookup that fails (a1's before a2's). */
  function CutoffOf(elements: seq<string>, t: Tables, p: (nat, nat), tol: real, tsTol: real)
    : Result<Cutoff, CacheError>
    requires p.0 < |elements| && p.1 < |elements|
  {
    if elements[p.0] !in t.radii then Failure(MissingRadius(elements[p.0]))
    else if elements[p.1] !in t.radii then Failure(MissingRadius(elements[p.1]))
    else Success(PairCutoff(t.radii[elements[p.0]], t.radii[elements[p.1]], tol, tsTol))
  }

  /** Item `k` is the first with its key. */
  ghost predicate FirstWithKey<K, V, E>(items: seq<(K, Result<V, E>)>, k: nat)
    requires k < |items|
  {
    forall m :: 0 <= m < k ==> items[m].0 != items[k].0
  }

  /** A memo table filled in order: `try: cache[key] except KeyError: cache[key] = value`, where the
      value is only computed (and can only fail) when the key is new. */
  function Memo<K(==), V, E>(items: seq<(K, Result<V, E>)>): Result<map<K, V>, E>
    decreases |items|
  {
    if |items| == 0 then Success(map[])
    else
      var prev := Memo(items[..|items| - 1]);
      var last := items[|items| - 1];
      if prev.Failure? || last.0 in prev.value then prev
      else if last.1.Failure? then Failure(last.1.error)
      else Success(prev.value[last.0 := last.1.value])
  }

  /** No item that is first with its key carries a failure. */
  ghost predicate FirstsSucceed<K, V, E>(items: seq<(K, Result<V, E>)>) {
    forall k :: 0 <= k < |items| && FirstWithKey(items, k) ==> items[k].1.Success?
  }

  /** `m` has exactly the items' keys, each bound to the value of the first item with that key. */
  ghost predicate MemoOf<K, V, E>(items: seq<(K, Result<V, E>)>, m: map<K, V>) {
    && (forall k :: 0 <= k < |items| ==> items[k].0 in m)
    && (forall key :: key in m ==> exists k :: 0 <= k < |items| && items[k].0 == key)
    && (forall k :: 0 <= k < |items| && FirstWithKey(items, k) ==> items[k].0 in m && items[k].1 == Success(m[items[k].0]))
  }

  /** Filling succeeds exactly when no item that is first with its key failed. Then the table has exactly
      the items' keys, each bound to the value of the FIRST item with that key: later items never overwrite. */
  lemma {:induction false} MemoSpec<K, V, E>(items: seq<(K, Result<V, E>)>)
    ensures Memo(items).Success? <==> FirstsSucceed(items)
    ensures Memo(items).Success? ==> MemoOf(items, Memo(items).value)
    decreases |items|
  {
    if |items| > 0 {
      var n := |items| - 1;
      MemoSpec(items[..n]);
      MemoPrefix(items);
      var prev := Memo(items[..n]);
      if prev.Failure? {
        var k :| 0 <= k < n && FirstWithKey(items[..n], k) && !items[..n][k].1.Success?;
        assert FirstWithKey(items, k) && !items[k].1.Success?;
      } else if items[n].0 in prev.value {
        MemoKnownKey(items, prev.value);
      } else {
        MemoNewKey(items, prev.value);
      }
    }
  }

  /** What one item finds in a successfully filled table. */
  lemma MemoLookup<K, V, E>(items: seq<(K, Result<V, E>)>, k: nat)
    requires k < |items| && Memo(items).Success?
    ensures items[k].0 in Memo(items).value
    ensures FirstWithKey(items, k) ==> items[k].1 == Success(Memo(items).value[items[k].0])
  {
    MemoSpec(items);
  }

  lemma MemoPrefix<K, V, E>(items: seq<(K, Result<V, E>)>)
    requires |items| > 0
    ensures forall k :: 0 <= k < |items| - 1 ==> items[..|items| - 1][k] == items[k]
    ensures forall k :: 0 <= k < |items| - 1 ==> (FirstWithKey(items[..|items| - 1], k) <==> FirstWithKey(items, k))
  {
  }

  /** An item whose key is already in the table is not the first with its key. */
  lemma MemoKnownNotFirst<K, V, E>(items: seq<(K, Result<V, E>)>, m: map<K, V>)
    requires |items| > 0
    requires MemoOf(items[..|items| - 1], m) && items[|items| - 1].0 in m
    ensures !FirstWithKey(items, |items| - 1)
  {
    var n := |items| - 1;
    var k :| 0 <= k < n && items[..n][k].0 == items[n].0;
    assert items[k] == items[..n][k];
  }

  /** A repeated key leaves the table describing the longer sequence too. */
  lemma MemoOfKnownKey<K, V, E>(items: seq<(K, Result<V, E>)>, m: map<K, V>)
    requires |items| > 0
    requires MemoOf(items[..|items| - 1], m) && items[|items| - 1].0 in m
    ensures MemoOf(items, m)
  {
    var n := |items| - 1;
    var prefix := items[..n];
    MemoPrefix(items);
    MemoKnownNotFirst(items, m);
    forall k | 0 <= k < |items|
      ensures items[k].0 in m
    {
      if k < n {
        assert prefix[k] == items[k];
      }
    }
    forall key | key in m
      ensures exists k :: 0 <= k < |items| && items[k].0 == key
    {
      var k :| 0 <= k < n && prefix[k].0 == key;
      assert items[k].0 == key;
    }
    forall k | 0 <= k < |items| && FirstWithKey(items, k)
      ensures items[k].0 in m && items[k].1 == Success(m[items[k].0])
    {
      assert k < n;
      assert FirstWithKey(prefix, k) && prefix[k] == items[k];
    }
  }

  lemma MemoKnownKey<K, V, E>(items: seq<(K, Result<V, E>)>, m: map<K, V>)
    requires |items| > 0
    requires FirstsSucceed(items[..|items| - 1]) && MemoOf(items[..|items| - 1], m)
    requires items[|items| - 1].0 in m
    ensures FirstsSucceed(items) && MemoOf(items, m)
  {
    var n := |items| - 1;
    MemoPrefix(items);
    MemoKnownNotFirst(items, m);
    forall k | 0 <= k < |items| && FirstWithKey(items, k)
      ensures items[k].1.Success?
    {
      assert k < n;
      assert FirstWithKey(items[..n], k);
    }
    MemoOfKnownKey(items, m);
  }

  lemma MemoNewKey<K, V, E>(items: seq<(K, Result<V, E>)>, m: map<K, V>)
    requires |items| > 0
    requires FirstsSucceed(items[..|items| - 1]) && MemoOf(items[..|items| - 1], m)
    requires items[|items| - 1].0 !in m
    ensures FirstWithKey(items, |items| - 1)
    ensures FirstsSucceed(items) <==> items[|items| - 1].1.Success?
    ensures items[|items| - 1].1.Success? ==> MemoOf(items, m[items[|items| - 1].0 := items[|items| - 1].1.value])
  {
    var n := |items| - 1;
    MemoPrefix(items);
    forall l | 0 <= l < n
      ensures items[l].0 != items[n].0
    {
      assert items[..n][l].0 in m;
    }
    assert FirstWithKey(items, n);
    if items[n].1.Success? {
      var m' := m[items[n].0 := items[n].1.value];
      forall key | key in m'
        ensures exists k :: 0 <= k < |items| && items[k].0 == key
      {
        if key != items[n].0 {
          var k :| 0 <= k < n && items[..n][k].0 == key;
          assert items[k].0 == key;
        }
      }
      forall k | 0 <= k < |items| && FirstWithKey(items, k)
        ensures items[k].1.Success?
      {
        if k < n {
          assert FirstWithKey(items[..n], k);
        }
      }
    }
  }

  /** The cache loop's items: each pair's key with its cutoffs (or the radius lookup that fails). */
  function CacheItems(elements: seq<string>, t: Tables, pairs: seq<(nat, nat)>, tol: real, tsTol: real)
    : (r: seq<(string, Result<Cutoff, CacheError>)>)
    requires PairsIn(pairs, |elements|)
    ensures |r| == |pairs|
  {
    seq(|pairs|, k requires 0 <= k < |pairs| =>
      (t.key(elements[pairs[k].0], elements[pairs[k].1]), CutoffOf(elements, t, pairs[k], tol, tsTol)))
  }

  /** The cache the source builds over `atoms` (ordered element names), visiting every pair j <= i. */
  function CutoffCache(elements: seq<string>, t: Tables, tol: real, tsTol: real)
    : Result<map<string, Cutoff>, CacheError>
  {
    LowerPairsMembers(|elements|);
    Memo(CacheItems(elements, t, LowerPairs(|elements|), tol, tsTol))
  }

  /** A failed fill reports the failure of one of its items. */
  lemma {:induction false} MemoFailure<K, V, E>(items: seq<(K, Result<V, E>)>)
    ensures Memo(items).Failure? ==> exists k :: 0 <= k < |items| && items[k].1 == Failure(Memo(items).error)
    decreases |items|
  {
    if |items| > 0 {
      var n := |items| - 1;
      MemoFailure(items[..n]);
      if Memo(items[..n]).Failure? {
        var k :| 0 <= k < n && items[..n][k].1 == Failure(Memo(items[..n]).error);
        assert items[k] == items[..n][k];
      }
    }
  }

  /** Item k of the cache loop carries the cutoffs (or the KeyError) of pair k. */
  lemma CacheItemAt(elements: seq<string>, t: Tables, tol: real, tsTol: real, k: nat)
    requires k < |LowerPairs(|elements|)|
    ensures PairsIn(LowerPairs(|elements|), |elements|)
    ensures var pairs := LowerPairs(|elements|);
      && elements[pairs[k].0] in elements && elements[pairs[k].1] in elements
      && CacheItems(elements, t, pairs, tol, tsTol)[k].1 == CutoffOf(elements, t, pairs[k], tol, tsTol)
  {
    LowerPairsMembers(|elements|);
  }

  /** The cache builds whenever every element has a radius. */
  lemma CutoffCacheBuilds(elements: seq<string>, t: Tables, tol: real, tsTol: real)
    requires forall e :: e in elements ==> e in t.radii
    ensures CutoffCache(elements, t, tol, tsTol).Success?
  {
    LowerPairsMembers(|elements|);
    var items := CacheItems(elements, t, LowerPairs(|elements|), tol, tsTol);
    MemoSpec(items);
    forall k | 0 <= k < |items|
      ensures items[k].1.Success?
    {
      CacheItemAt(elements, t, tol, tsTol, k);
    }
  }

  /** A KeyError of the cache names an element of the selection that has no radius. */
  lemma CutoffCacheMissing(elements: seq<string>, t: Tables, tol: real, tsTol: real)
    requires CutoffCache(elements, t, tol, tsTol).Failure?
    ensures CutoffCache(elements, t, tol, tsTol).error.element in elements
    ensures CutoffCache(elements, t, tol, tsTol).error.element !in t.radii
  {
    LowerPairsMembers(|elements|);
    var items := CacheItems(elements, t, LowerPairs(|elements|), tol, tsTol);
    MemoFailure(items);
    var k :| 0 <= k < |items| && items[k].1 == Failure(Memo(items).error);
    CacheItemAt(elements, t, tol, tsTol, k);
  }

  /** The cache builds whenever every element has a radius, and a KeyError names an element of the
      selection that has none. */
  lemma CutoffCacheErrors(elements: seq<string>, t: Tables, tol: real, tsTol: real)
    ensures (forall e :: e in elements ==> e in t.radii) ==> CutoffCache(elements, t, tol, tsTol).Success?
    ensures CutoffCache(elements, t, tol, tsTol).Failure? ==>
      CutoffCache(elements, t, tol, tsTol).error.element in elements
      && CutoffCache(elements, t, tol, tsTol).error.element !in t.radii
  {
    if forall e :: e in elements ==> e in t.radii {
      CutoffCacheBuilds(elements, t, tol, tsTol);
    }
    if CutoffCache(elements, t, tol, tsTol).Failure? {
      CutoffCacheMissing(elements, t, tol, tsTol);
    }
  }

  /** Two caches with the same keys and the same transition-state cutoffs under each. */
  predicate TsAgree(c1: map<string, Cutoff>, c2: map<string, Cutoff>) {
    c1.Keys == c2.Keys && forall key :: key in c1 ==> c1[key].ts == c2[key].ts
  }

  /** Two item sequences that differ at most in the bonded cutoffs they carry. */
  predicate ItemsTsAgree(items1: seq<(string, Result<Cutoff, CacheError>)>,
                         items2: seq<(string, Result<Cutoff, CacheError>)>) {
    |items1| == |items2|
    && forall k :: 0 <= k < |items1| ==>
      && items1[k].0 == items2[k].0
      && items1[k].1.Success? == items2[k].1.Success?
      && (items1[k].1.Failure? ==> items1[k].1.error == items2[k].1.error)
      && (items1[k].1.Success? ==> items1[k].1.value.ts == items2[k].1.value.ts)
  }

  /** The fill fails alike, or builds tables that agree on keys and transition-state cutoffs. */
  lemma {:induction false} MemoTs(items1: seq<(string, Result<Cutoff, CacheError>)>,
                                  items2: seq<(string, Result<Cutoff, CacheError>)>)
    requires ItemsTsAgree(items1, items2)
    ensures Memo(items1).Success? == Memo(items2).Success?
    ensures Memo(items1).Failure? ==> Memo(items1).error == Memo(items2).error
    ensures Memo(items1).Success? ==> TsAgree(Memo(items1).value, Memo(items2).value)
    decreases |items1|
  {
    if |items1| > 0 {
      var n := |items1| - 1;
      assert ItemsTsAgree(items1[..n], items2[..n]);
      MemoTs(items1[..n], items2[..n]);
      var p1 := Memo(items1[..n]);
      var p2 := Memo(items2[..n]);
      if p1.Success? && items1[n].0 !in p1.value && items1[n].1.Success? {
        var m1 := p1.value[items1[n].0 := items1[n].1.value];
        var m2 := p2.value[items2[n].0 := items2[n].1.value];
        assert m1.Keys == m2.Keys;
      }
    }
  }

  /** `tolerance` changes no transition-state cutoff and no KeyError of the cache. */
  lemma CutoffCacheTs(elements: seq<string>, t: Tables, tol1: real, tol2: real, tsTol: real)
    ensures CutoffCache(elements, t, tol1, tsTol).Success? == CutoffCache(elements, t, tol2, tsTol).Success?
    ensures CutoffCache(elements, t, tol1, tsTol).Failure? ==>
      CutoffCache(elements, t, tol1, tsTol).error == CutoffCache(elements, t, tol2, tsTol).error
    ensures CutoffCache(elements, t, tol1, tsTol).Success? ==>
      TsAgree(CutoffCache(elements, t, tol1, tsTol).value, CutoffCache(elements, t, tol2, tsTol).value)
  {
    LowerPairsMembers(|elements|);
    var pairs := LowerPairs(|elements|);
    var items1 := CacheItems(elements, t, pairs, tol1, tsTol);
    var items2 := CacheItems(elements, t, pairs, tol2, tsTol);
    forall k | 0 <= k < |items1|
      ensures items1[k].1 == CutoffOf(elements, t, pairs[k], tol1, tsTol)
      ensures items2[k].1 == CutoffOf(elements, t, pairs[k], tol2, tsTol)
    {
    }
    MemoTs(items1, items2);
  }

  /** Pair (i, j), j <= i, sits at position Tri(i) + j of the visiting order. */
  lemma {:induction false} LowerPairsIndex(n: nat, i: nat, j: nat)
    requires j <= i < n
    ensures |LowerPairs(n)| == Tri(n) && Tri(i) + j < Tri(n)
    ensures LowerPairs(n)[Tri(i) + j] == (i, j)
  {
    if i < n - 1 {
      LowerPairsIndex(n - 1, i, j);
      TriMonotone(i + 1, n - 1);
    } else if n > 1 {
      LowerPairsIndex(n - 1, 0, 0);
    }
  }

  /** (i', j') is visited before (i, j): an earlier row, or the same row and an earlier column. */
  predicate VisitedBefore(i': nat, j': nat, i: nat, j: nat) {
    i' < i || (i' == i && j' < j)
  }

  /** No pair visited before (i, j) has the same key. */
  ghost predicate FirstOfKey(elements: seq<string>, t: Tables, i: nat, j: nat)
    requires j <= i < |elements|
  {
    forall i': nat, j': nat :: j' <= i' && VisitedBefore(i', j', i, j) ==>
      t.key(elements[i'], elements[j']) != t.key(elements[i], elements[j])
  }

  /** Item Tri(i) + j of the cache loop is pair (i, j) with its key and cutoffs. */
  lemma CacheItemOfPair(elements: seq<string>, t: Tables, tol: real, tsTol: real, i: nat, j: nat)
    requires j <= i < |elements|
    ensures PairsIn(LowerPairs(|elements|), |elements|) && Tri(i) + j < |LowerPairs(|elements|)|
    ensures CacheItems(elements, t, LowerPairs(|elements|), tol, tsTol)[Tri(i) + j] ==
      (t.key(elements[i], elements[j]), CutoffOf(elements, t, (i, j), tol, tsTol))
  {
    LowerPairsMembers(|elements|);
    LowerPairsIndex(|elements|, i, j);
  }

  /** When the cache builds, every visited pair finds its key, and the cutoffs stored under that key
      are the ones of the first visited pair carrying it, whatever pairs with the same key follow. */
  lemma CutoffCacheSpec(elements: seq<string>, t: Tables, tol: real, tsTol: real, i: nat, j: nat)
    requires j <= i < |elements|
    requires CutoffCache(elements, t, tol, tsTol).Success?
    ensures t.key(elements[i], elements[j]) in CutoffCache(elements, t, tol, tsTol).value
    ensures FirstOfKey(elements, t, i, j) ==>
      && elements[i] in t.radii && elements[j] in t.radii
      && CutoffCache(elements, t, tol, tsTol).value[t.key(elements[i], elements[j])]
           == PairCutoff(t.radii[elements[i]], t.radii[elements[j]], tol, tsTol)
  {
    CacheItemOfPair(elements, t, tol, tsTol, i, j);
    var items := CacheItems(elements, t, LowerPairs(|elements|), tol, tsTol);
    assert CutoffCache(elements, t, tol, tsTol) == Memo(items);
    MemoLookup(items, Tri(i) + j);
    if FirstOfKey(elements, t, i, j) {
      FirstOfKeyIsFirstItem(elements, t, tol, tsTol, i, j);
    }
  }

  /** Every pair visited before a pair that is first with its key has another key. */
  lemma EarlierPairOtherKey(elements: seq<string>, t: Tables, i: nat, j: nat, m: nat)
    requires j <= i < |elements| && FirstOfKey(elements, t, i, j) && m < Tri(i) + j
    ensures Tri(i) + j < |LowerPairs(|elements|)|
    ensures var p := LowerPairs(|elements|)[m];
      p.1 <= p.0 < |elements| && t.key(elements[p.0], elements[p.1]) != t.key(elements[i], elements[j])
  {
    var n := |elements|;
    LowerPairsMembers(n);
    LowerPairsIndex(n, i, j);
    var (i', j') := LowerPairs(n)[m];
    if !VisitedBefore(i', j', i, j) {
      VisitOrder(n, i, j, i', j');
    }
  }

  /** So every cache item before the pair's own carries another key. */
  lemma EarlierItemOtherKey(elements: seq<string>, t: Tables, tol: real, tsTol: real, i: nat, j: nat, m: nat)
    requires j <= i < |elements| && FirstOfKey(elements, t, i, j) && m < Tri(i) + j
    ensures PairsIn(LowerPairs(|elements|), |elements|) && Tri(i) + j < |LowerPairs(|elements|)|
    ensures var items := CacheItems(elements, t, LowerPairs(|elements|), tol, tsTol);
      items[m].0 != items[Tri(i) + j].0
  {
    EarlierPairOtherKey(elements, t, i, j, m);
    CacheItemOfPair(elements, t, tol, tsTol, i, j);
  }

  lemma FirstOfKeyIsFirstItem(elements: seq<string>, t: Tables, tol: real, tsTol: real, i: nat, j: nat)
    requires j <= i < |elements|
    requires FirstOfKey(elements, t, i, j)
    ensures PairsIn(LowerPairs(|elements|), |elements|)
    ensures Tri(i) + j < |LowerPairs(|elements|)|
    ensures FirstWithKey(CacheItems(elements, t, LowerPairs(|elements|), tol, tsTol), Tri(i) + j)
  {
    CacheItemOfPair(elements, t, tol, tsTol, i, j);
    var items := CacheItems(elements, t, LowerPairs(|elements|), tol, tsTol);
    var k := Tri(i) + j;
    forall m | 0 <= m < k
      ensures items[m].0 != items[k].0
    {
      EarlierItemOtherKey(elements, t, tol, tsTol, i, j, m);
    }
  }

  /** Visiting order and index order agree. */
  lemma VisitOrder(n: nat, i: nat, j: nat, i': nat, j': nat)
    requires j <= i < n && j' <= i' < n
    requires !VisitedBefore(i', j', i, j)
    ensures Tri(i) + j <= Tri(i') + j'
  {
    if i < i' {
      TriMonotone(i + 1, i');
    }
  }

  function Abs(x: real): real {
    if x < 0.0 then -x else x
  }

  /** `abs(length - d)` for entry `m`. */
  function Diff(entries: seq<RefEntry>, m: nat, d: real): real
    requires m < |entries|
  {
    Abs(entries[m].1 - d)
  }

  /** `m` is the earliest entry with the least difference among the first `k` entries. */
  predicate EarliestNearest(entries: seq<RefEntry>, d: real, k: nat, m: nat)
    requires k <= |entries|
  {
    && m < k
    && (forall l :: 0 <= l < k ==> Diff(entries, m, d) <= Diff(entries, l, d))
    && (forall l :: 0 <= l < m ==> Diff(entries, l, d) > Diff(entries, m, d))
  }

  /** The scan `if closest[1] is None or diff < closest[1]` from entry `k` on, `best` being the current choice. */
  function NearestFrom(entries: seq<RefEntry>, d: real, k: nat, best: nat): (r: nat)
    requires 0 < k <= |entries|
    requires EarliestNearest(entries, d, k, best)
    ensures EarliestNearest(entries, d, |entries|, r)
    decreases |entries| - k
  {
    if k == |entries| then best
    else if Diff(entries, k, d) < Diff(entries, best, d) then NearestFrom(entries, d, k + 1, k)
    else NearestFrom(entries, d, k + 1, best)
  }

  /** Index of the reference entry nearest `d` (the first of equally near ones), None for an empty list,
      in which case the source keeps its initial order 0. */
  function Nearest(entries: seq<RefEntry>, d: real): (r: Option<nat>)
    ensures r.None? <==> |entries| == 0
    ensures r.Some? ==> EarliestNearest(entries, d, |entries|, r.value)
  {
    if |entries| == 0 then None else Some(NearestFrom(entries, d, 1, 0))
  }

  /** The earliest nearest entry is unique, so any other way of computing it agrees with `Nearest`. */
  lemma NearestUnique(entries: seq<RefEntry>, d: real, m: nat)
    requires 0 < |entries|
    requires EarliestNearest(entries, d, |entries|, m)
    ensures Nearest(entries, d) == Some(m)
  {
    var n := Nearest(entries, d).value;
    assert Diff(entries, n, d) == Diff(entries, m, d);
  }
}
