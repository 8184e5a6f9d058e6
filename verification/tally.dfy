/**
  * A dictionary of counts as the scripts use it: keys keep their insertion
  * order, `d[k] = d.get(k, 0) + 1` bumps a count, and
  * `max(d.items(), key=lambda x: x[1])` picks the first entry, in insertion
  * order, whose count is maximal.
  */
module Tally {

  /** The items of a count dictionary, in insertion order. */
  type Tally<K> = seq<(K, nat)>

  /** No key occurs twice among the items of a dictionary. */
  predicate DistinctKeys<K(==), V>(t: seq<(K, V)>) {
    forall i, j :: 0 <= i < j < |t| ==> t[i].0 != t[j].0
  }

  /** The keys, in insertion order. */
  function Keys<K, V>(t: seq<(K, V)>): (ks: seq<K>)
    ensures |ks| == |t| && forall i :: 0 <= i < |t| ==> ks[i] == t[i].0
  {
    if t == [] then [] else [t[0].0] + Keys(t[1..])
  }

  /** `d.get(k, 0)`. */
  function Get<K(==)>(t: Tally<K>, k: K): nat {
    if t == [] then 0 else if t[0].0 == k then t[0].1 else Get(t[1..], k)
  }

  /** `d[k] = d.get(k, 0) + 1`: a present key keeps its place, a new key is
      appended with count 1. */
  function Bump<K(==)>(t: Tally<K>, k: K): Tally<K> {
    if t == [] then [(k, 1)]
    else if t[0].0 == k then [(k, t[0].1 + 1)] + t[1..]
    else [t[0]] + Bump(t[1..], k)
  }

  /** `sum(d.values())`. */
  function Total<K>(t: Tally<K>): nat {
    if t == [] then 0 else t[0].1 + Total(t[1..])
  }

  /** The tally of a list of keys, counted one after another from `t`. */
  function CountAll<K(==)>(t: Tally<K>, ks: seq<K>): Tally<K>
    decreases |ks|
  {
    if ks == [] then t else Bump(CountAll(t, ks[..|ks| - 1]), ks[|ks| - 1])
  }

  /** The number of occurrences of `k` in `ks`. */
  function Occurrences<K(==)>(ks: seq<K>, k: K): nat {
    if ks == [] then 0
    else Occurrences(ks[..|ks| - 1], k) + (if ks[|ks| - 1] == k then 1 else 0)
  }

  /**
    * `max(d.items(), key=lambda x: x[1])`: the index of the first entry whose
    * count is not exceeded by any other.
    */
  function MaxIndex<K>(t: Tally<K>): (i: nat)
    requires t != []
    ensures i < |t|
    ensures forall j :: 0 <= j < |t| ==> t[j].1 <= t[i].1
    ensures forall j :: 0 <= j < i ==> t[j].1 < t[i].1
  {
    if |t| == 1 then 0
    else
      var m := MaxIndex(t[..|t| - 1]);
      if t[|t| - 1].1 > t[m].1 then |t| - 1 else m
  }

  // ---------------------------------------------------------------------------
  // Properties
  // ---------------------------------------------------------------------------

  /** Bumping `k` adds one to its count and leaves every other count alone. */
  lemma {:induction false} BumpGet<K>(t: Tally<K>, k: K, j: K)
    ensures Get(Bump(t, k), j) == Get(t, j) + (if j == k then 1 else 0)
  {
    if t != [] && t[0].0 != k {
      BumpGet(t[1..], k, j);
      assert Bump(t, k)[1..] == Bump(t[1..], k);
    }
  }

  /** Bumping adds one to the sum of the counts. */
  lemma {:induction false} BumpTotal<K>(t: Tally<K>, k: K)
    ensures Total(Bump(t, k)) == Total(t) + 1
  {
    if t == [] {
      assert Bump(t, k)[1..] == [];
    } else if t[0].0 == k {
      assert Bump(t, k)[1..] == t[1..];
    } else {
      BumpTotal(t[1..], k);
      assert Bump(t, k)[1..] == Bump(t[1..], k);
    }
  }

  /** Bumping keeps the keys in place and appends a new key at the end. */
  lemma {:induction false} BumpKeys<K>(t: Tally<K>, k: K)
    ensures Keys(Bump(t, k)) == if k in Keys(t) then Keys(t) else Keys(t) + [k]
  {
    if t != [] && t[0].0 != k {
      BumpKeys(t[1..], k);
      assert Bump(t, k)[1..] == Bump(t[1..], k);
      assert Keys(t)[1..] == Keys(t[1..]);
      assert k in Keys(t) <==> k in Keys(t[1..]);
      assert Keys(Bump(t, k)) == [t[0].0] + Keys(Bump(t[1..], k));
      if k !in Keys(t) {
        assert Keys(t) + [k] == [t[0].0] + (Keys(t[1..]) + [k]);
      }
    }
  }

  /** Bumping keeps the keys distinct. */
  lemma BumpDistinct<K>(t: Tally<K>, k: K)
    requires DistinctKeys(t)
    ensures DistinctKeys(Bump(t, k))
  {
    var b := Bump(t, k);
    BumpKeys(t, k);
    var ks := Keys(t);
    assert |Keys(b)| == |b|;
    assert forall i :: 0 <= i < |t| ==> b[i].0 == ks[i] == t[i].0 by {
      assert forall i :: 0 <= i < |t| ==> Keys(b)[i] == b[i].0;
    }
    if k !in ks {
      assert b[|t|].0 == k by {
        assert Keys(b)[|t|] == k;
      }
      assert forall i :: 0 <= i < |t| ==> b[i].0 != k;
    }
  }

  /** Counting a list from the empty tally: distinct keys, in the order of
      their first occurrence, each counted as often as it occurs, and the
      counts sum to the length of the list. */
  lemma {:induction false} CountAllFacts<K>(ks: seq<K>)
    ensures DistinctKeys(CountAll([], ks))
    ensures Total(CountAll([], ks)) == |ks|
    ensures forall k :: Get(CountAll([], ks), k) == Occurrences(ks, k)
    ensures forall k :: k in Keys(CountAll([], ks)) <==> k in ks
  {
    if ks != [] {
      var init := ks[..|ks| - 1];
      var last := ks[|ks| - 1];
      CountAllFacts(init);
      var t := CountAll([], init);
      BumpDistinct(t, last);
      BumpTotal(t, last);
      BumpKeys(t, last);
      forall k
        ensures Get(Bump(t, last), k) == Occurrences(ks, k)
      {
        BumpGet(t, last, k);
      }
      assert forall k :: k in ks <==> k in init || k == last by {
        assert ks == init + [last];
      }
    }
  }

  /** A key of a tally with distinct keys is found at its entry. */
  lemma {:induction false} GetAt<K>(t: Tally<K>, i: nat)
    requires DistinctKeys(t) && i < |t|
    ensures Get(t, t[i].0) == t[i].1
  {
    if i > 0 {
      GetAt(t[1..], i - 1);
    }
  }

  /** A key that is not present counts 0. */
  lemma {:induction false} GetAbsent<K>(t: Tally<K>, k: K)
    requires k !in Keys(t)
    ensures Get(t, k) == 0
  {
    if t != [] {
      assert Keys(t)[1..] == Keys(t[1..]);
      GetAbsent(t[1..], k);
    }
  }

  /** The count of an entry is at most the sum of the counts. */
  lemma {:induction false} EntryAtMostTotal<K>(t: Tally<K>, i: nat)
    requires i < |t|
    ensures t[i].1 <= Total(t)
  {
    if i > 0 {
      EntryAtMostTotal(t[1..], i - 1);
    }
  }

  /** Every count is at most the sum of the counts. */
  lemma {:induction false} GetAtMostTotal<K>(t: Tally<K>, k: K)
    ensures Get(t, k) <= Total(t)
  {
    if t != [] && t[0].0 != k {
      GetAtMostTotal(t[1..], k);
    }
  }
}
