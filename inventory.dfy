/** Facts about finite sets of integers: a nonempty set has a least element,
    a set of values below `n` has at most `n` elements, and a subset is no
    larger than its superset. */
module IntSets {

  lemma SubsetSize(a: set<int>, b: set<int>)
    requires a <= b
    ensures |a| <= |b|
  {
    assert b == a + (b - a);
  }

  lemma {:induction false} Minimum(s: set<int>) returns (m: int)
    requires s != {}
    ensures m in s && forall x :: x in s ==> m <= x
    decreases |s|
  {
    if forall x :: x !in s {
      assert false;
    }
    var y :| y in s;
    if s == {y} {
      m := y;
    } else {
      var k := Minimum(s - {y});
      m := if y < k then y else k;
      forall x | x in s
        ensures m <= x
      {
        if x != y {
          assert x in s - {y};
        }
      }
    }
  }

  lemma MinimumExists(s: set<int>)
    requires s != {}
    ensures exists k :: k in s && forall x :: x in s ==> k <= x
  {
    var m := Minimum(s);
  }

  lemma {:induction false} BoundedSetSize(s: set<int>, n: nat)
    requires forall x :: x in s ==> 0 <= x < n
    ensures |s| <= n
  {
    if n > 0 {
      BoundedSetSize(s - {n - 1}, n - 1);
    } else {
      assert forall x :: x !in s;
      assert s == {};
    }
  }
}

/** The symbol inventories of a PE file, `SortedList<uint, T>` in the source,
    modelled as maps keyed by RVA.  `Add` fails on a key already present, as
    `SortedList.Add` throws; `TryAdd` leaves an existing entry alone.
    Enumeration of a SortedList visits its keys in ascending order, which
    `SortedSet` and `InKeyOrder` provide. */
module Inventory {
  import opened Results
  import opened Bytes
  import opened IntSets

  /** Every entry of `m` is still in `m'`, with the same value. */
  ghost predicate Extends<V>(m: map<U32, V>, m': map<U32, V>) {
    forall k :: k in m ==> k in m' && m'[k] == m[k]
  }

  lemma ExtendsTransitive<V>(a: map<U32, V>, b: map<U32, V>, c: map<U32, V>)
    requires Extends(a, b) && Extends(b, c)
    ensures Extends(a, c)
  {
  }

  function Add<V>(m: map<U32, V>, key: U32, value: V): (r: Result<map<U32, V>, Error>)
    ensures r.Err? <==> key in m
    ensures r.Err? ==> r.error == DuplicateKey(key)
    ensures r.Ok? ==> r.value.Keys == m.Keys + {key} && r.value[key] == value && Extends(m, r.value)
  {
    if key in m then Err(DuplicateKey(key)) else Ok(m[key := value])
  }

  function TryAdd<V>(m: map<U32, V>, key: U32, value: V): (r: map<U32, V>)
    ensures r.Keys == m.Keys + {key}
    ensures Extends(m, r)
    ensures key !in m ==> r[key] == value
  {
    if key in m then m else m[key := value]
  }

  /** RVA keys are 32-bit, so an inventory holds at most 2^32 entries.  The
      walks that advance a wrapping uint cursor terminate because every step
      adds a fresh key. */
  lemma KeyCount<V>(m: map<U32, V>)
    ensures |m.Keys| <= TWO_32
  {
    BoundedSetSize(m.Keys, TWO_32);
  }

  /** A map that extends another and holds a key the other lacks has more
      keys. */
  lemma FreshKeyGrows<V>(m: map<U32, V>, m': map<U32, V>, key: U32)
    requires Extends(m, m') && key in m' && key !in m
    ensures |m.Keys| < |m'.Keys|
  {
    assert m.Keys < m'.Keys;
    SubsetSize(m.Keys + {key}, m'.Keys);
  }

  // ------------------------------------------------------------------
  // Ascending enumeration
  // ------------------------------------------------------------------

  function MinKey(s: set<U32>): (k: U32)
    requires s != {}
    ensures k in s && forall x :: x in s ==> k <= x
  {
    MinimumExists(s);
    var k :| k in s && forall x :: x in s ==> k <= x;
    k
  }

  ghost predicate StrictlyIncreasing(ks: seq<int>) {
    forall a, b :: 0 <= a < b < |ks| ==> ks[a] < ks[b]
  }

  /** The elements of `s` in ascending order. */
  function SortedSet(s: set<U32>): (ks: seq<U32>)
    ensures |ks| == |s|
    ensures forall k :: k in ks <==> k in s
    ensures StrictlyIncreasing(ks)
    decreases |s|
  {
    if s == {} then []
    else
      var k := MinKey(s);
      var rest := SortedSet(s - {k});
      SortedCons(k, rest, s);
      [k] + rest
  }

  lemma SortedCons(k: U32, rest: seq<U32>, s: set<U32>)
    requires k in s && forall x :: x in s ==> k <= x
    requires forall x :: x in rest <==> x in s - {k}
    requires StrictlyIncreasing(rest)
    ensures StrictlyIncreasing([k] + rest)
    ensures forall x :: x in [k] + rest <==> x in s
  {
    var ks := [k] + rest;
    forall a, b | 0 <= a < b < |ks|
      ensures ks[a] < ks[b]
    {
      assert ks[b] == rest[b - 1];
      if a == 0 {
        assert rest[b - 1] in rest;
      } else {
        assert ks[a] == rest[a - 1];
      }
    }
  }

  /** The values of `m` in ascending key order, as `foreach` over a
      SortedList (or over its `Values`) visits them. */
  function InKeyOrder<V>(m: map<U32, V>): (vs: seq<V>)
    ensures |vs| == |m.Keys|
  {
    var ks := SortedSet(m.Keys);
    seq(|ks|, i requires 0 <= i < |ks| => m[ks[i]])
  }

  /** The enumeration visits every entry of the map ... */
  lemma InKeyOrderHas<V>(m: map<U32, V>, k: U32) returns (i: nat)
    requires k in m
    ensures i < |InKeyOrder(m)| && InKeyOrder(m)[i] == m[k]
  {
    var ks := SortedSet(m.Keys);
    i :| 0 <= i < |ks| && ks[i] == k;
  }

  /** ... and nothing else. */
  lemma InKeyOrderFrom<V>(m: map<U32, V>, i: nat) returns (k: U32)
    requires i < |InKeyOrder(m)|
    ensures k in m && InKeyOrder(m)[i] == m[k]
  {
    k := SortedSet(m.Keys)[i];
  }

}
