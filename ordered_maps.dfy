/**
 * PHP's array used as an insertion-ordered dictionary: a sequence of
 * key/value pairs whose keys are pairwise distinct.  Assigning to an
 * existing key (`$a[$k] = $v`) updates that slot in place; assigning to a
 * new key appends; `unset($a[$k])` removes the slot and keeps the order of
 * the others; `$a + $b` keeps all of `$a` and appends the pairs of `$b`
 * whose keys `$a` does not have.
 */
module OrderedMaps {
  import opened Wrappers

  predicate DistinctKeys<K(==), V>(s: seq<(K, V)>) {
    forall i, j :: 0 <= i < j < |s| ==> s[i].0 != s[j].0
  }

  type OrderedMap<K(==), V> = s: seq<(K, V)> | DistinctKeys(s) witness []

  function Keys<K, V>(s: seq<(K, V)>): (ks: seq<K>)
    ensures |ks| == |s|
    ensures forall i :: 0 <= i < |s| ==> ks[i] == s[i].0
  {
    seq(|s|, i requires 0 <= i < |s| => s[i].0)
  }

  function Values<K, V>(s: seq<(K, V)>): (vs: seq<V>)
    ensures |vs| == |s|
    ensures forall i :: 0 <= i < |s| ==> vs[i] == s[i].1
  {
    seq(|s|, i requires 0 <= i < |s| => s[i].1)
  }

  /** The position of key `k`: the first (with distinct keys, the only) slot holding it. */
  function IndexOf<K(==), V>(s: seq<(K, V)>, k: K): (i: nat)
    requires k in Keys(s)
    ensures i < |s| && s[i].0 == k
    ensures forall j :: 0 <= j < i ==> s[j].0 != k
  {
    if s[0].0 == k then 0 else 1 + IndexOf(s[1..], k)
  }

  /** `$a[$k] ?? null`. */
  function Get<K(==), V>(s: seq<(K, V)>, k: K): Option<V> {
    if k in Keys(s) then Some(s[IndexOf(s, k)].1) else None
  }

  /** The slot holding `k`, in a map with distinct keys, is the one with that key. */
  lemma GetAt<K, V>(m: OrderedMap<K, V>, i: nat)
    requires i < |m|
    ensures m[i].0 in Keys(m) && IndexOf(m, m[i].0) == i
    ensures Get(m, m[i].0) == Some(m[i].1)
  {
  }

  /** Reading a key from the slot that holds it, or `None` when no slot holds it. */
  lemma ReadAt<K, V>(m: OrderedMap<K, V>, i: nat, k: K, present: bool)
    requires present ==> i < |m| && m[i].0 == k
    requires !present ==> forall j :: 0 <= j < |m| ==> m[j].0 != k
    ensures Get(m, k) == if present then Some(m[i].1) else None
  {
    if present {
      GetAt(m, i);
    } else {
      assert k !in Keys(m);
    }
  }

  /** `$a[$k] = $v`: update in place when `k` is present, append otherwise. */
  function Put<K(==), V>(m: OrderedMap<K, V>, k: K, v: V): (r: OrderedMap<K, V>)
    ensures k in Keys(m) ==> |r| == |m| && r[IndexOf(m, k)] == (k, v)
    ensures k in Keys(m) ==> forall i :: 0 <= i < |m| && i != IndexOf(m, k) ==> r[i] == m[i]
    ensures k !in Keys(m) ==> r == m + [(k, v)]
  {
    if k in Keys(m) then
      var i := IndexOf(m, k);
      assert forall j :: 0 <= j < |m| && j != i ==> m[j].0 != k;
      m[i := (k, v)]
    else
      m + [(k, v)]
  }

  /** Reading a map after `Put` sees the new value under `k` and nothing else changed. */
  lemma PutGet<K, V>(m: OrderedMap<K, V>, k: K, v: V, k': K)
    ensures Get(Put(m, k, v), k') == if k' == k then Some(v) else Get(m, k')
  {
    var r := Put(m, k, v);
    if k' in Keys(r) {
      GetAt(r, IndexOf(r, k'));
      if k' != k {
        var i := IndexOf(r, k');
        assert m[i].0 == k';
        GetAt(m, i);
      }
    } else {
      assert k in Keys(r) by {
        if k in Keys(m) { assert Keys(r)[IndexOf(m, k)] == k; } else { assert Keys(r)[|m|] == k; }
      }
      forall i | 0 <= i < |m| ensures Keys(m)[i] != k' {
        assert Keys(r)[i] == r[i].0;
      }
    }
  }

  /** `Put` keeps the key order: an existing key stays where it is, a new key comes last. */
  lemma PutKeys<K, V>(m: OrderedMap<K, V>, k: K, v: V)
    ensures Keys(Put(m, k, v)) == if k in Keys(m) then Keys(m) else Keys(m) + [k]
  {
  }

  /** `unset($a[$k])`: drop the slot of `k` if there is one, keeping the order of the rest. */
  function Remove<K(==), V>(m: OrderedMap<K, V>, k: K): (r: OrderedMap<K, V>)
    ensures k in Keys(m) ==> |r| == |m| - 1
    ensures k in Keys(m) ==> forall a :: 0 <= a < |r| ==> r[a] == m[Skip(a, IndexOf(m, k))]
    ensures k !in Keys(m) ==> r == m
  {
    if k in Keys(m) then
      var i := IndexOf(m, k);
      var r := m[..i] + m[i + 1..];
      assert forall a :: 0 <= a < |r| ==> r[a] == m[Skip(a, i)];
      r
    else
      m
  }

  /** The position in the original sequence of slot `a` once slot `i` is dropped. */
  function Skip(a: nat, i: nat): nat {
    if a < i then a else a + 1
  }

  /** After `Remove`, `k` is gone and every other key reads as before. */
  lemma RemoveGet<K, V>(m: OrderedMap<K, V>, k: K, k': K)
    ensures Get(Remove(m, k), k') == if k' == k then None else Get(m, k')
  {
    if k in Keys(m) {
      if k' == k {
        RemoveGone(m, k);
      } else if k' in Keys(m) {
        RemoveKept(m, k, k');
      } else {
        var r := Remove(m, k);
        forall a | 0 <= a < |r| ensures Keys(r)[a] != k' {
          assert r[a] == m[Skip(a, IndexOf(m, k))];
        }
      }
    }
  }

  lemma RemoveGone<K, V>(m: OrderedMap<K, V>, k: K)
    requires k in Keys(m)
    ensures k !in Keys(Remove(m, k))
  {
    var r := Remove(m, k);
    var i := IndexOf(m, k);
    forall a | 0 <= a < |r| ensures Keys(r)[a] != k {
      assert r[a] == m[Skip(a, i)];
    }
  }

  lemma RemoveKept<K, V>(m: OrderedMap<K, V>, k: K, k': K)
    requires k in Keys(m) && k' in Keys(m) && k' != k
    ensures Get(Remove(m, k), k') == Get(m, k')
  {
    var r := Remove(m, k);
    var i := IndexOf(m, k);
    var b := IndexOf(m, k');
    var a := if b < i then b else b - 1;
    assert r[a] == m[b];
    GetAt(r, a);
  }

  /** The pairs of `s` whose keys are not in `ks`, in their order. */
  function Missing<K(==), V>(s: seq<(K, V)>, ks: seq<K>): (r: seq<(K, V)>)
    ensures forall i :: 0 <= i < |r| ==> r[i] in s && r[i].0 !in ks
    ensures forall i :: 0 <= i < |s| && s[i].0 !in ks ==> s[i] in r
  {
    if |s| == 0 then []
    else if s[0].0 in ks then Missing(s[1..], ks)
    else [s[0]] + Missing(s[1..], ks)
  }

  lemma {:induction false} MissingDistinct<K, V>(s: seq<(K, V)>, ks: seq<K>)
    requires DistinctKeys(s)
    ensures DistinctKeys(Missing(s, ks))
  {
    if |s| > 0 {
      MissingDistinct(s[1..], ks);
      var t := Missing(s[1..], ks);
      forall a | 0 <= a < |t| ensures t[a].0 != s[0].0 {
        var j :| 0 <= j < |s[1..]| && s[1..][j] == t[a];
        assert s[j + 1] == t[a];
      }
    }
  }

  /** PHP array union `$a + $b`: the left operand wins, missing keys are filled from the right. */
  function Union<K(==), V>(a: OrderedMap<K, V>, b: OrderedMap<K, V>): (r: OrderedMap<K, V>)
    ensures r == a + Missing(b, Keys(a))
  {
    MissingDistinct(b, Keys(a));
    a + Missing(b, Keys(a))
  }

  /** What `$a + $b` holds under each key. */
  lemma UnionGet<K, V>(a: OrderedMap<K, V>, b: OrderedMap<K, V>, k: K)
    ensures Get(Union(a, b), k) == if k in Keys(a) then Get(a, k) else Get(b, k)
  {
    if k in Keys(a) {
      var i := IndexOf(a, k);
      GetAt(a, i);
      UnionLeft(a, b, i);
    } else if k in Keys(b) {
      UnionRight(a, b, k);
    } else {
      assert k !in Keys(Union(a, b));
    }
  }

  /** A key of the left operand reads from its own slot, which the union keeps in place. */
  lemma UnionLeft<K, V>(a: OrderedMap<K, V>, b: OrderedMap<K, V>, i: nat)
    requires i < |a|
    ensures Get(Union(a, b), a[i].0) == Some(a[i].1)
  {
    var u := Union(a, b);
    assert u[i] == a[i];
    GetAt(u, i);
  }

  /** A key only the right operand has reads from the slot the union copied from it. */
  lemma UnionRight<K, V>(a: OrderedMap<K, V>, b: OrderedMap<K, V>, k: K)
    requires k !in Keys(a) && k in Keys(b)
    ensures Get(Union(a, b), k) == Get(b, k)
  {
    var j := IndexOf(b, k);
    GetAt(b, j);
    var ms := Missing(b, Keys(a));
    assert b[j] in ms;
    var t :| 0 <= t < |ms| && ms[t] == b[j];
    var u := Union(a, b);
    assert u[|a| + t] == b[j];
    GetAt(u, |a| + t);
  }

  /** The overwriting loop `foreach ($kvs as $k => $v) { $m[$k] = $v; }`. */
  function PutAll<K(==), V>(m: OrderedMap<K, V>, kvs: seq<(K, V)>): OrderedMap<K, V>
    decreases |kvs|
  {
    if |kvs| == 0 then m
    else
      var n := |kvs| - 1;
      Put(PutAll(m, kvs[..n]), kvs[n].0, kvs[n].1)
  }

  /**
   * The shape of the overwriting loop's result `r`: the slots of `m` keep
   * their positions, each one taking the new value when `kvs` has its key;
   * after them come the pairs of `kvs` with new keys, in `kvs` order.
   */
  ghost predicate OverwrittenShape<K, V>(m: seq<(K, V)>, kvs: seq<(K, V)>, r: seq<(K, V)>) {
    && |r| == |m| + |Missing(kvs, Keys(m))|
    && (forall i :: 0 <= i < |m| ==> r[i] == (m[i].0, Get(kvs, m[i].0).GetOr(m[i].1)))
    && r[|m|..] == Missing(kvs, Keys(m))
  }

  lemma {:induction false} PutAllShape<K, V>(m: OrderedMap<K, V>, kvs: OrderedMap<K, V>)
    ensures OverwrittenShape(m, kvs, PutAll(m, kvs))
    decreases |kvs|
  {
    if |kvs| == 0 {
      assert Missing(kvs, Keys(m)) == [];
    } else {
      var n := |kvs| - 1;
      var init: OrderedMap<K, V> := kvs[..n];
      PutAllShape(m, init);
      assert kvs == init + [kvs[n]];
      assert kvs[n].0 !in Keys(init);
      PutShapeStep(m, init, kvs[n].0, kvs[n].1, PutAll(m, init));
    }
  }

  lemma PutShapeStep<K, V>(m: OrderedMap<K, V>, init: OrderedMap<K, V>, k: K, v: V, p: OrderedMap<K, V>)
    requires k !in Keys(init)
    requires OverwrittenShape(m, init, p)
    ensures OverwrittenShape(m, init + [(k, v)], Put(p, k, v))
  {
    var kvs := init + [(k, v)];
    var r := Put(p, k, v);
    MissingSnoc(init, k, v, Keys(m));
    if k in Keys(m) {
      var i := IndexOf(m, k);
      assert p[i].0 == k;
      GetAt(p, i);
      PutShapeOld(m, init, k, v, p);
    } else {
      assert k !in Keys(p);
      PutShapeNew(m, init, k, v, p);
    }
  }

  lemma PutShapeOld<K, V>(m: OrderedMap<K, V>, init: OrderedMap<K, V>, k: K, v: V, p: OrderedMap<K, V>)
    requires k !in Keys(init) && k in Keys(m)
    requires OverwrittenShape(m, init, p)
    requires k in Keys(p) && IndexOf(p, k) == IndexOf(m, k)
    requires Missing(init + [(k, v)], Keys(m)) == Missing(init, Keys(m))
    ensures OverwrittenShape(m, init + [(k, v)], Put(p, k, v))
  {
    var r := Put(p, k, v);
    forall i | 0 <= i < |m|
      ensures r[i] == (m[i].0, Get(init + [(k, v)], m[i].0).GetOr(m[i].1))
    {
      GetSnoc(init, k, v, m[i].0);
      GetAt(m, i);
    }
    assert r[|m|..] == p[|m|..];
  }

  lemma PutShapeNew<K, V>(m: OrderedMap<K, V>, init: OrderedMap<K, V>, k: K, v: V, p: OrderedMap<K, V>)
    requires k !in Keys(init) && k !in Keys(m) && k !in Keys(p)
    requires OverwrittenShape(m, init, p)
    requires Missing(init + [(k, v)], Keys(m)) == Missing(init, Keys(m)) + [(k, v)]
    ensures OverwrittenShape(m, init + [(k, v)], Put(p, k, v))
  {
    var r := Put(p, k, v);
    forall i | 0 <= i < |m|
      ensures r[i] == (m[i].0, Get(init + [(k, v)], m[i].0).GetOr(m[i].1))
    {
      GetSnoc(init, k, v, m[i].0);
    }
    assert r[|m|..] == p[|m|..] + [(k, v)];
  }

  lemma {:induction false} MissingSnoc<K, V>(s: seq<(K, V)>, k: K, v: V, ks: seq<K>)
    ensures Missing(s + [(k, v)], ks) == Missing(s, ks) + (if k in ks then [] else [(k, v)])
    decreases |s|
  {
    if |s| == 0 {
      assert s + [(k, v)] == [(k, v)];
    } else {
      assert (s + [(k, v)])[1..] == s[1..] + [(k, v)];
      MissingSnoc(s[1..], k, v, ks);
    }
  }

  lemma GetSnoc<K, V>(s: OrderedMap<K, V>, k: K, v: V, k': K)
    requires k !in Keys(s)
    ensures DistinctKeys(s + [(k, v)])
    ensures Get(s + [(k, v)], k') == if k' == k then Some(v) else Get(s, k')
  {
    PutGet(s, k, v, k');
  }
}
