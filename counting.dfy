/**
  Counting keys into a map, as a `HashMap<K, Integer>` updated with
  `merge(k, 1, Integer::sum)` does. The input is the sequence of keys read off
  the records, `None` standing for a record that is skipped.
*/
module Counting {
  import opened Wrappers

  /** `merge(k, 1, Integer::sum)`: 1 for a new key, one more for a present key. */
  function MergeOne<K(==)>(m: map<K, int>, k: K): (r: map<K, int>)
    ensures r.Keys == m.Keys + {k}
    ensures r[k] == (if k in m then m[k] + 1 else 1)
    ensures forall j :: j in m && j != k ==> r[j] == m[j]
  {
    m[k := if k in m then m[k] + 1 else 1]
  }

  /** How many entries of `ks` are `Some(k)`. */
  function Occurrences<K(==)>(ks: seq<Option<K>>, k: K): (n: nat)
    ensures n <= |ks|
  {
    if ks == [] then 0
    else Occurrences(ks[..|ks| - 1], k) + (if ks[|ks| - 1] == Some(k) then 1 else 0)
  }

  /** How many entries of `ks` are not `None`. */
  function Defined<K>(ks: seq<Option<K>>): (n: nat)
    ensures n <= |ks|
  {
    if ks == [] then 0
    else Defined(ks[..|ks| - 1]) + (if ks[|ks| - 1].Some? then 1 else 0)
  }

  /** The distinct keys that occur. */
  function Present<K(==)>(ks: seq<Option<K>>): set<K> {
    set i | 0 <= i < |ks| && ks[i].Some? :: ks[i].value
  }

  /** The reference count: each key that occurs, with its number of occurrences. */
  function Tally<K(==)>(ks: seq<Option<K>>): map<K, int> {
    map k | k in Present(ks) :: Occurrences(ks, k) as int
  }

  /** A key is present exactly when it occurs at least once. */
  lemma {:induction false} PresentIffOccurs<K>(ks: seq<Option<K>>, k: K)
    ensures k in Present(ks) <==> Occurrences(ks, k) > 0
  {
    if ks != [] {
      var init := ks[..|ks| - 1];
      PresentIffOccurs(init, k);
      if Occurrences(init, k) > 0 {
        var i :| 0 <= i < |init| && init[i] == Some(k);
        assert ks[i] == init[i];
      }
      if k in Present(ks) {
        var i :| 0 <= i < |ks| && ks[i] == Some(k);
        if i < |init| {
          assert init[i] == ks[i];
        }
      }
    }
  }

  /** One more record merges its key into the tally, and changes nothing when it is skipped. */
  lemma TallyStep<K>(ks: seq<Option<K>>, o: Option<K>)
    ensures Tally(ks + [o]) == if o.Some? then MergeOne(Tally(ks), o.value) else Tally(ks)
  {
    var next := ks + [o];
    assert next[..|next| - 1] == ks;
    forall k
      ensures k in Tally(next) <==> Occurrences(next, k) > 0
      ensures k in Tally(ks) <==> Occurrences(ks, k) > 0
    {
      PresentIffOccurs(next, k);
      PresentIffOccurs(ks, k);
    }
  }

  /** Every key of the tally comes from some entry. */
  lemma TallyKeyWitness<K>(ks: seq<Option<K>>, k: K) returns (i: nat)
    requires k in Tally(ks)
    ensures i < |ks| && ks[i] == Some(k)
  {
    i :| 0 <= i < |ks| && ks[i].Some? && ks[i].value == k;
  }

  /** Every stored count is at least one and at most the number of entries. */
  lemma TallyInRange<K>(ks: seq<Option<K>>, k: K)
    requires k in Tally(ks)
    ensures 1 <= Tally(ks)[k] <= |ks|
  {
    PresentIffOccurs(ks, k);
  }

  /** The sum of the values of a map. */
  ghost function SumValues<K>(m: map<K, int>): int
    decreases |m|
  {
    if m == map[] then 0
    else
      var k :| k in m;
      assert |m - {k}| < |m| by {
        assert (m - {k}).Keys == m.Keys - {k};
      }
      m[k] + SumValues(m - {k})
  }

  /** Any key can be taken out of the sum first. */
  lemma {:induction false} SumValuesRemove<K>(m: map<K, int>, k: K)
    requires k in m
    ensures SumValues(m) == m[k] + SumValues(m - {k})
    decreases |m|
  {
    var j :| j in m && SumValues(m) == m[j] + SumValues(m - {j});
    if j != k {
      assert |m - {j}| < |m| by {
        assert (m - {j}).Keys == m.Keys - {j};
      }
      assert |m - {k}| < |m| by {
        assert (m - {k}).Keys == m.Keys - {k};
      }
      SumValuesRemove(m - {j}, k);
      SumValuesRemove(m - {k}, j);
      assert m - {j} - {k} == m - {k} - {j};
    }
  }

  /** A merge adds exactly one to the sum of the counts. */
  lemma MergeOneSum<K>(m: map<K, int>, k: K)
    ensures SumValues(MergeOne(m, k)) == SumValues(m) + 1
  {
    var m' := MergeOne(m, k);
    SumValuesRemove(m', k);
    assert m' - {k} == m - {k};
    if k in m {
      SumValuesRemove(m, k);
    } else {
      assert m - {k} == m;
    }
  }

  /** The counts add up to the number of entries that are not skipped. */
  lemma {:induction false} TallySum<K>(ks: seq<Option<K>>)
    ensures SumValues(Tally(ks)) == Defined(ks)
  {
    if ks == [] {
      assert Tally(ks) == map[];
    } else {
      var init := ks[..|ks| - 1];
      var o := ks[|ks| - 1];
      assert ks == init + [o];
      TallySum(init);
      TallyStep(init, o);
      if o.Some? {
        MergeOneSum(Tally(init), o.value);
      }
    }
  }

  /** The positions of the entries that are not skipped. */
  function DefinedIndices<K>(ks: seq<Option<K>>): set<int> {
    set i | 0 <= i < |ks| && ks[i].Some?
  }

  /** `Defined` counts exactly those positions. */
  lemma {:induction false} DefinedCountsIndices<K>(ks: seq<Option<K>>)
    ensures Defined(ks) == |DefinedIndices(ks)|
  {
    if ks != [] {
      var n := |ks| - 1;
      var init := ks[..n];
      DefinedCountsIndices(init);
      var last := if ks[n].Some? then {n} else {};
      assert DefinedIndices(ks) == DefinedIndices(init) + last;
      assert n !in DefinedIndices(init);
    }
  }

  /** The positions holding `Some(k)`. */
  function IndicesOf<K(==)>(ks: seq<Option<K>>, k: K): set<int> {
    set i | 0 <= i < |ks| && ks[i] == Some(k)
  }

  /** `Occurrences` counts exactly those positions. */
  lemma {:induction false} OccurrencesCountsIndices<K>(ks: seq<Option<K>>, k: K)
    ensures Occurrences(ks, k) == |IndicesOf(ks, k)|
  {
    if ks != [] {
      var n := |ks| - 1;
      var init := ks[..n];
      OccurrencesCountsIndices(init, k);
      var last := if ks[n] == Some(k) then {n} else {};
      assert IndicesOf(ks, k) == IndicesOf(init, k) + last;
      assert n !in IndicesOf(init, k);
    }
  }
}
