/** Dictionaries filled one key at a time, as a Python dict comprehension or
    a JavaScript object assignment loop fills them. */
module Dicts {

  /** The dict filled from `ps` in order: a later pair overwrites an earlier
      one with the same key. */
  function MapOfPairs<K(==,!new), V>(ps: seq<(K, V)>): (m: map<K, V>)
    ensures forall k :: k in m <==> exists i :: 0 <= i < |ps| && ps[i].0 == k
  {
    if |ps| == 0 then map[]
    else
      var m0 := MapOfPairs(ps[..|ps| - 1]);
      assert forall i :: 0 <= i < |ps| - 1 ==> ps[..|ps| - 1][i] == ps[i];
      m0[ps[|ps| - 1].0 := ps[|ps| - 1].1]
  }

  /** A key maps to the value of its last pair. */
  lemma {:induction false} MapOfPairsLastWins<K(!new), V>(ps: seq<(K, V)>, i: int)
    requires 0 <= i < |ps|
    requires forall j :: i < j < |ps| ==> ps[j].0 != ps[i].0
    ensures MapOfPairs(ps)[ps[i].0] == ps[i].1
  {
    if i < |ps| - 1 {
      var init := ps[..|ps| - 1];
      assert init[i] == ps[i];
      assert forall j :: i < j < |init| ==> init[j] == ps[j];
      MapOfPairsLastWins(init, i);
    }
  }

  /** Filling from one more pair is one more assignment. */
  lemma MapOfPairsSnoc<K(!new), V>(ps: seq<(K, V)>, i: int)
    requires 0 <= i < |ps|
    ensures MapOfPairs(ps[..i + 1]) == MapOfPairs(ps[..i])[ps[i].0 := ps[i].1]
  {
    assert ps[..i + 1][..i] == ps[..i];
  }

  /** Assigning into a merged dict is merging the assigned dict. */
  lemma MergeAssign<K, V>(a: map<K, V>, b: map<K, V>, k: K, v: V)
    ensures (a + b)[k := v] == a + b[k := v]
  {
  }

  /** `{keys[i]: values[i] for i ...}`: the dict pairing each key with the
      value at the same position. */
  function ZipMap<K(==,!new), V>(keys: seq<K>, values: seq<V>): map<K, V>
    requires |keys| == |values|
  {
    MapOfPairs(seq(|keys|, i requires 0 <= i < |keys| => (keys[i], values[i])))
  }

  /** The zipped dict has exactly the keys given, and each key holds the value
      at its position (its last position, should a key repeat). */
  lemma ZipMapPairs<K(!new), V>(keys: seq<K>, values: seq<V>)
    requires |keys| == |values|
    ensures forall k :: k in ZipMap(keys, values) <==> k in keys
    ensures forall i :: 0 <= i < |keys| && keys[i] !in keys[i + 1..] ==>
      ZipMap(keys, values)[keys[i]] == values[i]
  {
    var ps := seq(|keys|, i requires 0 <= i < |keys| => (keys[i], values[i]));
    forall k | k in keys ensures k in ZipMap(keys, values) {
      var i :| 0 <= i < |keys| && keys[i] == k;
      assert ps[i].0 == k;
    }
    forall i | 0 <= i < |keys| && keys[i] !in keys[i + 1..]
      ensures ZipMap(keys, values)[keys[i]] == values[i]
    {
      forall j | i < j < |ps| ensures ps[j].0 != ps[i].0 {
        assert keys[j] == keys[i + 1..][j - i - 1];
      }
      MapOfPairsLastWins(ps, i);
    }
  }
}
