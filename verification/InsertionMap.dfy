/** A JavaScript `Map`: entries with distinct keys, in insertion order. */
module InsertionMap {
  import opened Wrappers

  function Find<K(==), V>(m: seq<(K, V)>, k: K): Option<V> {
    if |m| == 0 then None else if m[0].0 == k then Some(m[0].1) else Find(m[1..], k)
  }

  /** Setting a known key keeps its place; a new key goes to the end. */
  function Set<K(==), V>(m: seq<(K, V)>, k: K, v: V): seq<(K, V)> {
    if |m| == 0 then [(k, v)]
    else if m[0].0 == k then [(k, v)] + m[1..]
    else [m[0]] + Set(m[1..], k, v)
  }

  function Delete<K(==), V>(m: seq<(K, V)>, k: K): seq<(K, V)> {
    if |m| == 0 then [] else (if m[0].0 == k then [] else [m[0]]) + Delete(m[1..], k)
  }

  function Keys<K, V>(m: seq<(K, V)>): (keys: seq<K>)
    ensures |keys| == |m| && forall i | 0 <= i < |m| :: keys[i] == m[i].0
  {
    if |m| == 0 then [] else [m[0].0] + Keys(m[1..])
  }

  function DeleteAll<K(==), V>(m: seq<(K, V)>, ks: seq<K>): seq<(K, V)>
    decreases |ks|
  {
    if |ks| == 0 then m else DeleteAll(Delete(m, ks[0]), ks[1..])
  }

  function SetAll<K(==), V>(m: seq<(K, V)>, ks: seq<K>, v: V): seq<(K, V)>
    decreases |ks|
  {
    if |ks| == 0 then m else SetAll(Set(m, ks[0], v), ks[1..], v)
  }

  lemma {:induction false} SetNew<K, V>(m: seq<(K, V)>, k: K, v: V)
    requires k !in Keys(m)
    ensures Set(m, k, v) == m + [(k, v)]
  {
    if m != [] {
      assert Keys(m)[0] == m[0].0;
      SetNew(m[1..], k, v);
    }
  }

  lemma {:induction false} DeleteConcat<K, V>(a: seq<(K, V)>, b: seq<(K, V)>, k: K)
    ensures Delete(a + b, k) == Delete(a, k) + Delete(b, k)
  {
    if a == [] {
      assert a + b == b;
    } else {
      assert (a + b)[0] == a[0] && (a + b)[1..] == a[1..] + b;
      DeleteConcat(a[1..], b, k);
    }
  }

  lemma {:induction false} DeleteMissing<K, V>(m: seq<(K, V)>, k: K)
    requires k !in Keys(m)
    ensures Delete(m, k) == m
  {
    if m != [] {
      assert Keys(m)[0] == m[0].0;
      DeleteMissing(m[1..], k);
    }
  }

  lemma {:induction false} DeleteAllConcat<K, V>(a: seq<(K, V)>, b: seq<(K, V)>, ks: seq<K>)
    ensures DeleteAll(a + b, ks) == DeleteAll(a, ks) + DeleteAll(b, ks)
    decreases |ks|
  {
    if ks != [] {
      DeleteConcat(a, b, ks[0]);
      DeleteAllConcat(Delete(a, ks[0]), Delete(b, ks[0]), ks[1..]);
    }
  }

  lemma {:induction false} DeleteAllMissing<K, V>(m: seq<(K, V)>, ks: seq<K>)
    requires forall k <- ks :: k !in Keys(m)
    ensures DeleteAll(m, ks) == m
    decreases |ks|
  {
    if ks != [] {
      assert ks[0] in ks;
      DeleteMissing(m, ks[0]);
      DeleteAllMissing(m, ks[1..]);
    }
  }

  lemma {:induction false} DeleteAllSnoc<K, V>(m: seq<(K, V)>, ks: seq<K>, k: K)
    ensures DeleteAll(m, ks + [k]) == Delete(DeleteAll(m, ks), k)
    decreases |ks|
  {
    if ks == [] {
      assert [k][1..] == [];
    } else {
      assert (ks + [k])[0] == ks[0] && (ks + [k])[1..] == ks[1..] + [k];
      DeleteAllSnoc(Delete(m, ks[0]), ks[1..], k);
    }
  }

  lemma {:induction false} SetAllSnoc<K, V>(m: seq<(K, V)>, ks: seq<K>, k: K, v: V)
    ensures SetAll(m, ks + [k], v) == Set(SetAll(m, ks, v), k, v)
    decreases |ks|
  {
    if ks == [] {
      assert [k][1..] == [];
    } else {
      assert (ks + [k])[0] == ks[0] && (ks + [k])[1..] == ks[1..] + [k];
      SetAllSnoc(Set(m, ks[0], v), ks[1..], k, v);
    }
  }

  lemma {:induction false} KeysConcat<K, V>(a: seq<(K, V)>, b: seq<(K, V)>)
    ensures Keys(a + b) == Keys(a) + Keys(b)
  {}

  lemma {:induction false} FindIsIn<K, V>(m: seq<(K, V)>, k: K)
    ensures Find(m, k).Some? <==> k in Keys(m)
  {
    if m != [] {
      assert Keys(m)[0] == m[0].0;
      FindIsIn(m[1..], k);
    }
  }

  lemma {:induction false} DeleteKeepsOthers<K, V>(m: seq<(K, V)>, k: K)
    ensures forall other :: other in Keys(Delete(m, k)) <==> other in Keys(m) && other != k
  {
    if m != [] {
      DeleteKeepsOthers(m[1..], k);
      KeysConcat(if m[0].0 == k then [] else [m[0]], Delete(m[1..], k));
      assert forall other :: other in Keys(m) <==> other == m[0].0 || other in Keys(m[1..]);
    }
  }
}
