/** Grouping a list by key into a dictionary of lists, the way
    `d.setdefault(k, []).append(v)` and `defaultdict(list)` do it: keys keep the
    order in which they were first seen (Python dictionaries preserve insertion
    order), and each key's list keeps the order of the input. */
module Grouping {

  predicate Distinct<K(==)>(s: seq<K>)
  {
    forall i, j :: 0 <= i < j < |s| ==> s[i] != s[j]
  }

  /** The distinct keys of `keys`, in the order of their first occurrence. */
  function FirstSeen<K(==)>(keys: seq<K>): (order: seq<K>)
    ensures |order| <= |keys|
  {
    if |keys| == 0 then []
    else
      var prev := FirstSeen(keys[..|keys| - 1]);
      var k := keys[|keys| - 1];
      assert keys == keys[..|keys| - 1] + [k];
      if k in prev then prev else prev + [k]
  }

  /** The key order holds exactly the keys. */
  lemma {:induction false} FirstSeenMembers<K>(keys: seq<K>)
    ensures forall x :: x in FirstSeen(keys) <==> x in keys
  {
    if |keys| > 0 {
      var n := |keys| - 1;
      FirstSeenMembers(keys[..n]);
      assert keys == keys[..n] + [keys[n]];
    }
  }

  /** Every entry of the key order is a key. */
  lemma FirstSeenIndexed<K>(keys: seq<K>)
    ensures forall i :: 0 <= i < |FirstSeen(keys)| ==> FirstSeen(keys)[i] in keys
  {
    FirstSeenMembers(keys);
    forall i | 0 <= i < |FirstSeen(keys)| ensures FirstSeen(keys)[i] in keys {
      assert FirstSeen(keys)[i] in FirstSeen(keys);
    }
  }

  /** The key order lists each key once. */
  lemma {:induction false} FirstSeenDistinct<K>(keys: seq<K>)
    ensures Distinct(FirstSeen(keys))
  {
    if |keys| > 0 {
      FirstSeenDistinct(keys[..|keys| - 1]);
    }
  }

  /** The values paired with key `k`, in input order. */
  function Collect<K(==), V>(keys: seq<K>, vals: seq<V>, k: K): seq<V>
    requires |keys| == |vals|
  {
    if |keys| == 0 then []
    else
      var n := |keys| - 1;
      Collect(keys[..n], vals[..n], k) + (if keys[n] == k then [vals[n]] else [])
  }

  /** The position at which `x` first occurs in `s`. */
  function FirstOccurrence<K(==)>(s: seq<K>, x: K): (i: nat)
    requires x in s
    ensures i < |s| && s[i] == x && x !in s[..i]
  {
    if s[0] == x then 0 else 1 + FirstOccurrence(s[1..], x)
  }

  lemma {:induction false} FirstOccurrenceUnique<K>(s: seq<K>, x: K, i: nat)
    requires i < |s| && s[i] == x && x !in s[..i]
    ensures FirstOccurrence(s, x) == i
  {
  }

  /** Extending a sequence does not move the first occurrence of a value it holds. */
  lemma FirstOccurrenceExtend<K>(s: seq<K>, t: seq<K>, x: K)
    requires x in s
    ensures FirstOccurrence(s + t, x) == FirstOccurrence(s, x)
  {
    var f := FirstOccurrence(s, x);
    assert (s + t)[..f] == s[..f];
    FirstOccurrenceUnique(s + t, x, f);
  }

  /** `for idx, key in enumerate(keys): groups.setdefault(key, []).append(vals[idx])`,
      with `order` the dictionary's key order. */
  method GroupBy<K(==), V>(keys: seq<K>, vals: seq<V>) returns (order: seq<K>, groups: map<K, seq<V>>)
    requires |keys| == |vals|
    ensures order == FirstSeen(keys)
    ensures forall k :: k in groups <==> k in keys
    ensures forall k :: k in groups ==> groups[k] == Collect(keys, vals, k)
  {
    order, groups := [], map[];
    var i := 0;
    while i < |keys|
      invariant 0 <= i <= |keys|
      invariant order == FirstSeen(keys[..i])
      invariant forall k :: k in groups <==> k in keys[..i]
      invariant forall k :: k in groups ==> groups[k] == Collect(keys[..i], vals[..i], k)
    {
      var k := keys[i];
      FirstSeenMembers(keys[..i]);
      assert keys[..i + 1][..i] == keys[..i] && vals[..i + 1][..i] == vals[..i];
      assert keys[..i + 1] == keys[..i] + [k];
      assert forall k' :: (Collect(keys[..i + 1], vals[..i + 1], k') ==
        Collect(keys[..i], vals[..i], k') + (if k == k' then [vals[i]] else []));
      if k !in groups {
        CollectAbsent(keys[..i], vals[..i], k);
      }
      if k !in groups {
        order := order + [k];
        groups := groups[k := []];
      }
      groups := groups[k := groups[k] + [vals[i]]];
      i := i + 1;
    }
    assert keys[..i] == keys && vals[..i] == vals;
  }

  lemma CollectAbsent<K, V>(keys: seq<K>, vals: seq<V>, k: K)
    requires |keys| == |vals| && k !in keys
    ensures Collect(keys, vals, k) == []
  {
    if |keys| > 0 {
      assert k !in keys[..|keys| - 1];
      CollectAbsent(keys[..|keys| - 1], vals[..|keys| - 1], k);
    }
  }

  /** Each entry of a key's list came from a position holding that key, and every
      such position contributes its value. */
  lemma {:induction false} CollectMembers<K, V>(keys: seq<K>, vals: seq<V>, k: K)
    requires |keys| == |vals|
    ensures forall t :: 0 <= t < |keys| && keys[t] == k ==> vals[t] in Collect(keys, vals, k)
    ensures forall v :: v in Collect(keys, vals, k) ==>
      exists t :: 0 <= t < |keys| && keys[t] == k && vals[t] == v
  {
    if |keys| > 0 {
      var n := |keys| - 1;
      CollectMembers(keys[..n], vals[..n], k);
      forall t | 0 <= t < n ensures keys[..n][t] == keys[t] && vals[..n][t] == vals[t] { }
    }
  }

  /** A key that occurs has a non-empty list. */
  lemma CollectNonEmpty<K, V>(keys: seq<K>, vals: seq<V>, k: K)
    requires |keys| == |vals| && k in keys
    ensures |Collect(keys, vals, k)| > 0
  {
    var t :| 0 <= t < |keys| && keys[t] == k;
    CollectMembers(keys, vals, k);
    assert vals[t] in Collect(keys, vals, k);
  }

  /** `range(n)`, the values `enumerate` pairs with the keys. */
  function Indices(n: nat): (r: seq<nat>)
    ensures |r| == n && forall i :: 0 <= i < n ==> r[i] == i
  {
    seq(n, i => i)
  }

  ghost predicate Increasing(s: seq<nat>)
  {
    forall i, j :: 0 <= i < j < |s| ==> s[i] < s[j]
  }

  /** Grouping positions: a key's list holds exactly the positions of that key,
      in strictly increasing order, and all of them are below the input length. */
  lemma {:induction false} CollectIndices<K>(keys: seq<K>, k: K)
    ensures Increasing(Collect<K, nat>(keys, Indices(|keys|), k))
    ensures forall i :: i in Collect<K, nat>(keys, Indices(|keys|), k) <==> 0 <= i < |keys| && keys[i] == k
  {
    var n := |keys|;
    if n > 0 {
      var pre := keys[..n - 1];
      assert Indices(n)[..n - 1] == Indices(|pre|);
      CollectIndices(pre, k);
      var prev := Collect<K, nat>(pre, Indices(|pre|), k);
      assert Collect<K, nat>(keys, Indices(n), k) == prev + (if keys[n - 1] == k then [n - 1] else []);
      forall j | 0 <= j < |prev| ensures prev[j] < n - 1 {
        assert prev[j] in prev;
      }
    }
  }

  /** The key order is the order of first occurrence. */
  lemma {:induction false} FirstSeenOrder<K>(keys: seq<K>)
    ensures (FirstSeenIndexed(keys); forall i, j :: 0 <= i < j < |FirstSeen(keys)| ==>
      FirstOccurrence(keys, FirstSeen(keys)[i]) < FirstOccurrence(keys, FirstSeen(keys)[j]))
  {
    var n := |keys|;
    if n > 0 {
      var pre := keys[..n - 1];
      FirstSeenOrder(pre);
      FirstSeenMembers(pre);
      var prev := FirstSeen(pre);
      var order := FirstSeen(keys);
      assert keys == pre + [keys[n - 1]];
      forall x | x in pre ensures FirstOccurrence(keys, x) == FirstOccurrence(pre, x) {
        FirstOccurrenceExtend(pre, [keys[n - 1]], x);
      }
      if keys[n - 1] !in prev {
        assert keys[..n - 1] == pre;
        FirstOccurrenceUnique(keys, keys[n - 1], n - 1);
        forall i, j | 0 <= i < j < |order| ensures FirstOccurrence(keys, order[i]) < FirstOccurrence(keys, order[j]) {
          if j == |order| - 1 {
            assert order[i] == prev[i] && prev[i] in prev;
          } else {
            assert order[i] == prev[i] && order[j] == prev[j];
          }
        }
      }
    }
  }
}
