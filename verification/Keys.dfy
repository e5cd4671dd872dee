/** Iterating over an ordered map's keys. */
module Keys {
  /** The keys in ascending order, as a BTreeMap or a numeric sort yields them. */
  method Ascending(keys: set<nat>) returns (ids: seq<nat>)
    ensures forall k :: k in ids <==> k in keys
    ensures forall i, j | 0 <= i < j < |ids| :: ids[i] < ids[j]
  {
    ids := [];
    var left := keys;
    while left != {}
      invariant forall k :: k in keys <==> k in left || k in ids
      invariant forall i, k | 0 <= i < |ids| && k in left :: ids[i] < k
      invariant forall i, j | 0 <= i < j < |ids| :: ids[i] < ids[j]
      decreases |left|
    {
      var least := Smallest(left);
      ids := ids + [least];
      left := left - {least};
    }
  }

  /** The next key in ascending order. */
  method Smallest(keys: set<nat>) returns (m: nat)
    requires keys != {}
    ensures m in keys && forall k | k in keys :: m <= k
  {
    ghost var least := Least(keys);
    m :| m in keys && forall k | k in keys :: m <= k;
  }

  lemma {:induction false} Least(s: set<nat>) returns (m: nat)
    requires s != {}
    ensures m in s && forall k | k in s :: m <= k
    decreases |s|
  {
    var x :| x in s;
    var rest := s - {x};
    m := x;
    if rest != {} {
      var n := Least(rest);
      if n < x {
        m := n;
      }
    }
    forall k | k in s ensures m <= k {
      assert k == x || k in rest;
    }
  }

  // --------------------------------------------------------- totals over a map

  /** The sum of a measure over the values of a map. */
  ghost function Total<K, V>(m: map<K, V>, size: V -> nat): nat
    decreases |m|
  {
    if m == map[] then 0
    else
      var k :| k in m;
      assert |m - {k}| < |m| by { assert (m - {k}).Keys == m.Keys - {k}; }
      size(m[k]) + Total(m - {k}, size)
  }

  lemma {:induction false} TotalRemove<K, V>(m: map<K, V>, size: V -> nat, k: K)
    requires k in m
    ensures Total(m, size) == size(m[k]) + Total(m - {k}, size)
    decreases |m|
  {
    var c :| c in m && Total(m, size) == size(m[c]) + Total(m - {c}, size);
    if c != k {
      assert |m - {c}| < |m| by { assert (m - {c}).Keys == m.Keys - {c}; }
      assert |m - {k}| < |m| by { assert (m - {k}).Keys == m.Keys - {k}; }
      TotalRemove(m - {c}, size, k);
      TotalRemove(m - {k}, size, c);
      assert m - {c} - {k} == m - {k} - {c};
    }
  }

  lemma TotalAdd<K, V>(m: map<K, V>, size: V -> nat, k: K, v: V)
    requires k !in m
    ensures Total(m[k := v], size) == Total(m, size) + size(v)
  {
    TotalRemove(m[k := v], size, k);
    assert m[k := v] - {k} == m;
  }

  lemma TotalUpdate<K, V>(m: map<K, V>, size: V -> nat, k: K, v: V)
    requires k in m
    ensures Total(m[k := v], size) == Total(m, size) - size(m[k]) + size(v)
    ensures size(m[k]) <= Total(m, size)
  {
    TotalRemove(m, size, k);
    TotalRemove(m[k := v], size, k);
    assert m[k := v] - {k} == m - {k};
  }

  /** A positive sum has a positive part. */
  lemma {:induction false} TotalPositive<K, V>(m: map<K, V>, size: V -> nat) returns (k: K)
    requires Total(m, size) > 0
    ensures k in m && size(m[k]) > 0
    decreases |m|
  {
    k :| k in m && Total(m, size) == size(m[k]) + Total(m - {k}, size);
    if size(m[k]) == 0 {
      assert |m - {k}| < |m| by { assert (m - {k}).Keys == m.Keys - {k}; }
      k := TotalPositive(m - {k}, size);
    }
  }
}
