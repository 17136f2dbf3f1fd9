// The registration fold shared by the lexers' quote tables and the parsers'
// prefix tables: a loop that calls `Map#set` once per pair, so that a later
// pair for the same key replaces an earlier one.
module Registry {
  /** The map after setting every pair of `pairs`, in order, on `m`. */
  function SetAll<K, V>(m: map<K, V>, pairs: seq<(K, V)>): map<K, V>
  {
    if pairs == [] then m
    else
      var last := pairs[|pairs| - 1];
      SetAll(m, pairs[..|pairs| - 1])[last.0 := last.1]
  }

  /** Setting one more pair sets it on the map the earlier pairs gave. */
  lemma SetAllSnoc<K, V>(m: map<K, V>, pairs: seq<(K, V)>, before: seq<(K, V)>, i: nat)
    requires i < |pairs|
    ensures SetAll(m, before + pairs[..i + 1]) == SetAll(m, before + pairs[..i])[pairs[i].0 := pairs[i].1]
  {
    assert (before + pairs[..i + 1])[..|before| + i] == before + pairs[..i];
  }

  /** Whether some pair of `pairs` sets key `k`. */
  ghost predicate SetsKey<K, V>(pairs: seq<(K, V)>, k: K)
  {
    exists i :: 0 <= i < |pairs| && pairs[i].0 == k
  }

  /** Setting more pairs extends the map: no key is ever removed. */
  lemma {:induction false} SetAllKeys<K, V>(m: map<K, V>, pairs: seq<(K, V)>, k: K)
    ensures k in SetAll(m, pairs) <==> k in m || SetsKey(pairs, k)
  {
    if pairs != [] {
      var init := pairs[..|pairs| - 1];
      SetAllKeys(m, init, k);
      if SetsKey(pairs, k) && pairs[|pairs| - 1].0 != k {
        var i :| 0 <= i < |pairs| && pairs[i].0 == k;
        assert init[i].0 == k;
      }
      if SetsKey(init, k) {
        var i :| 0 <= i < |init| && init[i].0 == k;
        assert pairs[i].0 == k;
      }
    }
  }

  /** A key that no pair sets keeps its old value. */
  lemma {:induction false} SetAllUntouched<K, V>(m: map<K, V>, pairs: seq<(K, V)>, k: K)
    requires k in m && !SetsKey(pairs, k)
    ensures k in SetAll(m, pairs) && SetAll(m, pairs)[k] == m[k]
  {
    if pairs != [] {
      var init := pairs[..|pairs| - 1];
      assert forall i :: 0 <= i < |init| ==> init[i] == pairs[i];
      SetAllUntouched(m, init, k);
    }
  }

  /** A key maps to the value of the LAST pair that sets it. */
  lemma {:induction false} SetAllLastWins<K, V>(m: map<K, V>, pairs: seq<(K, V)>, i: nat)
    requires i < |pairs|
    requires forall j :: i < j < |pairs| ==> pairs[j].0 != pairs[i].0
    ensures pairs[i].0 in SetAll(m, pairs) && SetAll(m, pairs)[pairs[i].0] == pairs[i].1
  {
    var init := pairs[..|pairs| - 1];
    if i < |pairs| - 1 {
      assert init[i] == pairs[i];
      SetAllLastWins(m, init, i);
    }
  }
}
