/**
 * Per-key counters kept in a dictionary, as built by the idiom
 * `map[k] = (map[k] || 0) + 1` over a list of keys, and the sum of their values.
 */
module Counts {

  /** Number of times `k` occurs in `keys`. */
  function Occurrences(keys: seq<string>, k: string): nat
    decreases |keys|
  {
    if keys == [] then 0
    else Occurrences(keys[..|keys| - 1], k) + (if keys[|keys| - 1] == k then 1 else 0)
  }

  /** One more for `k`: `(m[k] || 0) + 1` stored back under `k`. */
  function Increment(m: map<string, int>, k: string): (r: map<string, int>)
    ensures r.Keys == m.Keys + {k}
    ensures forall j :: j in m && j != k ==> r[j] == m[j]
  {
    m[k := (if k in m then m[k] else 0) + 1]
  }

  /** The dictionary a loop over `keys` builds when it increments each key in turn. */
  function Tally(keys: seq<string>): (m: map<string, int>)
    ensures forall k :: k in m <==> k in keys
    decreases |keys|
  {
    if keys == [] then map[]
    else
      assert keys == keys[..|keys| - 1] + [keys[|keys| - 1]];
      Increment(Tally(keys[..|keys| - 1]), keys[|keys| - 1])
  }

  /** Every stored count is at least one. */
  predicate Positive(m: map<string, int>)
  {
    forall k :: k in m ==> m[k] >= 1
  }

  /** The sum of the values of `m`, in no particular order. */
  ghost function SumValues(m: map<string, int>): int
    decreases |m|
  {
    if m == map[] then 0
    else
      var k :| k in m;
      m[k] + SumValues(m - {k})
  }

  /** The sum can be split at any key, not only at the one the definition picks. */
  lemma {:induction false} SumValuesRemove(m: map<string, int>, k: string)
    requires k in m
    ensures SumValues(m) == m[k] + SumValues(m - {k})
    decreases |m|
  {
    var j :| j in m && SumValues(m) == m[j] + SumValues(m - {j});
    if j != k {
      SumValuesRemove(m - {j}, k);
      SumValuesRemove(m - {k}, j);
      assert m - {j} - {k} == m - {k} - {j};
    }
  }

  /** Overwriting the value of one key changes the sum by the difference. */
  lemma SumValuesUpdate(m: map<string, int>, k: string, v: int)
    ensures SumValues(m[k := v]) == SumValues(m) + v - (if k in m then m[k] else 0)
  {
    SumValuesRemove(m[k := v], k);
    assert m[k := v] - {k} == m - {k};
    if k in m {
      SumValuesRemove(m, k);
    } else {
      assert m - {k} == m;
    }
  }

  /** A sum of positive counts is at least the number of keys. */
  lemma {:induction false} SumValuesPositive(m: map<string, int>)
    requires Positive(m)
    ensures SumValues(m) >= |m|
    decreases |m|
  {
    if m != map[] {
      var k :| k in m;
      SumValuesRemove(m, k);
      SumValuesPositive(m - {k});
    }
  }

  /** The tally is exactly the multiplicity of each key, and absent keys are not stored. */
  lemma {:induction false} TallyCounts(keys: seq<string>)
    ensures forall k :: k in Tally(keys) <==> Occurrences(keys, k) > 0
    ensures forall k :: k in Tally(keys) ==> Tally(keys)[k] == Occurrences(keys, k)
    decreases |keys|
  {
    if keys != [] {
      TallyCounts(keys[..|keys| - 1]);
    }
  }

  /** No stored count of a tally is zero or negative. */
  lemma TallyPositive(keys: seq<string>)
    ensures Positive(Tally(keys))
  {
    TallyCounts(keys);
  }

  /** The counts of a tally add up to the number of keys counted. */
  lemma {:induction false} TallySum(keys: seq<string>)
    ensures SumValues(Tally(keys)) == |keys|
    decreases |keys|
  {
    if keys != [] {
      var init := keys[..|keys| - 1];
      var k := keys[|keys| - 1];
      TallySum(init);
      SumValuesUpdate(Tally(init), k, (if k in Tally(init) then Tally(init)[k] else 0) + 1);
    }
  }

  /** Incrementing one key raises the sum by exactly one. */
  lemma IncrementSum(m: map<string, int>, k: string)
    ensures SumValues(Increment(m, k)) == SumValues(m) + 1
  {
    SumValuesUpdate(m, k, (if k in m then m[k] else 0) + 1);
  }

  /** One more key counted: the tally of a longer prefix increments the shorter one's. */
  lemma TallyStep(keys: seq<string>, i: int)
    requires 0 <= i < |keys|
    ensures Tally(keys[..i + 1]) == Increment(Tally(keys[..i]), keys[i])
  {
    var prefix := keys[..i + 1];
    assert prefix[..|prefix| - 1] == keys[..i] && prefix[|prefix| - 1] == keys[i];
  }

  /** The counting loop, run over the rows of a query result. */
  method BuildTally(keys: seq<string>) returns (m: map<string, int>)
    ensures m == Tally(keys)
    ensures forall k :: k in m <==> Occurrences(keys, k) > 0
    ensures forall k :: k in m ==> m[k] == Occurrences(keys, k)
  {
    m := map[];
    for i := 0 to |keys|
      invariant m == Tally(keys[..i])
    {
      TallyStep(keys, i);
      m := Increment(m, keys[i]);
    }
    assert keys[..|keys|] == keys;
    TallyCounts(keys);
  }
}
