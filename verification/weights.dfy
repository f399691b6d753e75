/**
 The chosen-answers object of the resolve panel, `{ [answerId: string]: number }`,
 as a map from answer id to weight, and sums of its values taken along an
 enumeration of its keys (the order `Object.keys` / `Object.values` list them in).
 */
module Weights {

  type Weights = map<string, real>

  predicate Distinct(keys: seq<string>)
  {
    forall i, j :: 0 <= i < j < |keys| ==> keys[i] != keys[j]
  }

  predicate AllIn(keys: seq<string>, m: Weights)
  {
    forall i :: 0 <= i < |keys| ==> keys[i] in m
  }

  /** `keys` lists every key of `m` exactly once, as `Object.keys(m)` does. */
  predicate Enumerates(keys: seq<string>, m: Weights)
  {
    && Distinct(keys)
    && AllIn(keys, m)
    && forall k :: k in m ==> k in keys
  }

  /** The sum of the weights of `keys`: lodash `sum` over `Object.values`, 0 when empty. */
  function SumOver(m: Weights, keys: seq<string>): real
    requires AllIn(keys, m)
    decreases |keys|
  {
    if |keys| == 0 then 0.0 else m[keys[0]] + SumOver(m, keys[1..])
  }

  /** Non-negative weights sum to a non-negative total, positive ones to a positive total. */
  lemma {:induction false} SumOverSign(m: Weights, keys: seq<string>)
    requires AllIn(keys, m)
    ensures (forall i :: 0 <= i < |keys| ==> m[keys[i]] >= 0.0) ==> SumOver(m, keys) >= 0.0
    ensures |keys| > 0 && (forall i :: 0 <= i < |keys| ==> m[keys[i]] > 0.0) ==> SumOver(m, keys) > 0.0
    decreases |keys|
  {
    if |keys| > 0 {
      SumOverSign(m, keys[1..]);
      assert forall i :: 0 <= i < |keys| - 1 ==> keys[1..][i] == keys[i + 1];
    }
  }

  lemma {:induction false} SumOverConcat(m: Weights, a: seq<string>, b: seq<string>)
    requires AllIn(a, m) && AllIn(b, m)
    ensures AllIn(a + b, m)
    ensures SumOver(m, a + b) == SumOver(m, a) + SumOver(m, b)
    decreases |a|
  {
    if |a| > 0 {
      assert (a + b)[1..] == a[1..] + b;
      SumOverConcat(m, a[1..], b);
    } else {
      assert a + b == b;
    }
  }

  /** Taking one key out of the middle of the list takes its weight out of the sum. */
  lemma SumOverRemove(m: Weights, keys: seq<string>, j: nat)
    requires AllIn(keys, m) && j < |keys|
    ensures AllIn(keys[..j] + keys[j + 1..], m)
    ensures SumOver(m, keys) == m[keys[j]] + SumOver(m, keys[..j] + keys[j + 1..])
  {
    assert keys == keys[..j] + keys[j..];
    SumOverConcat(m, keys[..j], keys[j..]);
    SumOverConcat(m, keys[..j], keys[j + 1..]);
  }

  /** Taking the entry at `j` out of a duplicate-free list removes exactly that key. */
  lemma RemoveAt(keys: seq<string>, j: nat)
    requires Distinct(keys) && j < |keys|
    ensures Distinct(keys[..j] + keys[j + 1..])
    ensures forall x :: x in keys[..j] + keys[j + 1..] <==> x in keys && x != keys[j]
  {
    var rest := keys[..j] + keys[j + 1..];
    assert |rest| == |keys| - 1;
    assert forall p :: 0 <= p < |rest| ==> rest[p] == keys[if p < j then p else p + 1];
    forall x | x in keys && x != keys[j]
      ensures x in rest
    {
      var i :| 0 <= i < |keys| && keys[i] == x;
      if i < j { assert rest[i] == x; } else { assert rest[i - 1] == x; }
    }
  }

  /** Two duplicate-free lists of the same keys have the same sum. */
  lemma {:induction false} SumOverPermutation(m: Weights, a: seq<string>, b: seq<string>)
    requires AllIn(a, m) && AllIn(b, m) && Distinct(a) && Distinct(b)
    requires forall k :: k in a <==> k in b
    requires |a| == |b|
    ensures SumOver(m, a) == SumOver(m, b)
    decreases |a|
  {
    if |a| > 0 {
      var k := a[0];
      assert k in b;
      var j :| 0 <= j < |b| && b[j] == k;
      var b' := b[..j] + b[j + 1..];
      SumOverRemove(m, b, j);
      RemoveAt(b, j);
      RemoveAt(a, 0);
      assert a[..0] + a[1..] == a[1..];
      forall x
        ensures x in a[1..] <==> x in b'
      {
        assert x in a[1..] <==> x in a && x != k;
        assert x in b' <==> x in b && x != k;
      }
      SumOverPermutation(m, a[1..], b');
    }
  }

  /**
   The sum of the weights does not depend on the order the keys are listed
   in, so a total computed from `Object.values` is a property of the map.
   */
  lemma SumOverEnumerationsAgree(m: Weights, a: seq<string>, b: seq<string>)
    requires Enumerates(a, m) && Enumerates(b, m)
    ensures SumOver(m, a) == SumOver(m, b)
  {
    EnumerationSize(a, m);
    EnumerationSize(b, m);
    SumOverPermutation(m, a, b);
  }

  /** An enumeration has exactly as many entries as the map has keys. */
  lemma {:induction false} EnumerationSize(keys: seq<string>, m: Weights)
    requires Enumerates(keys, m)
    ensures |keys| == |m|
    decreases |keys|
  {
    if |keys| > 0 {
      var m' := m - {keys[0]};
      assert |m'.Keys| == |m.Keys - {keys[0]}| == |m.Keys| - 1;
      forall k | k in m'
        ensures k in keys[1..]
      {
        assert k in keys;
        var i :| 0 <= i < |keys| && keys[i] == k;
        assert i != 0;
        assert keys[1..][i - 1] == k;
      }
      EnumerationSize(keys[1..], m');
    }
  }
}
