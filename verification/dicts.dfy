/**
 Python's `dict` as the exporter uses it: insertion-ordered, assigning to an
 existing key replaces its value in place, assigning to a new key appends.
 */
module Dicts {
  import opened Outcomes

  /** Entries in iteration order. */
  type Dict<K, V> = seq<(K, V)>

  predicate DistinctKeys<K(==), V>(d: Dict<K, V>)
  {
    forall i, j :: 0 <= i < j < |d| ==> d[i].0 != d[j].0
  }

  function KeySet<K, V>(d: Dict<K, V>): set<K>
  {
    set i | 0 <= i < |d| :: d[i].0
  }

  /** `d.get(k)` */
  function Get<K(==), V>(d: Dict<K, V>, k: K): (r: Option<V>)
    ensures r.Some? <==> k in KeySet(d)
  {
    if d == [] then None
    else if d[0].0 == k then Some(d[0].1)
    else
      KeySetCons(d);
      Get(d[1..], k)
  }

  /** `d[k] = v` */
  function Put<K(==), V>(d: Dict<K, V>, k: K, v: V): (r: Dict<K, V>)
    ensures KeySet(r) == KeySet(d) + {k}
    ensures Get(r, k) == Some(v)
    ensures forall i :: 0 <= i < |d| && d[i].0 != k ==> Get(r, d[i].0) == Get(d, d[i].0)
    ensures DistinctKeys(d) ==> DistinctKeys(r)
    ensures k in KeySet(d) ==> |r| == |d| && forall i :: 0 <= i < |d| ==> r[i].0 == d[i].0
    ensures k !in KeySet(d) ==> r == d + [(k, v)]
    ensures forall i :: 0 <= i < |r| ==> r[i] == (k, v) || r[i] in d
  {
    if d == [] then
      assert KeySet([(k, v)]) == {k} by {
        assert [(k, v)][0].0 == k;
      }
      [(k, v)]
    else if d[0].0 == k then
      PutHead(d, k, v);
      [(k, v)] + d[1..]
    else
      var rest := Put(d[1..], k, v);
      PutTail(d, k, v, rest);
      [d[0]] + rest
  }

  /** Everything `Put(d, k, v)` promises about its result `r`. */
  ghost predicate Assigned<K, V>(d: Dict<K, V>, k: K, v: V, r: Dict<K, V>)
  {
    && KeySet(r) == KeySet(d) + {k}
    && Get(r, k) == Some(v)
    && (forall i :: 0 <= i < |d| && d[i].0 != k ==> Get(r, d[i].0) == Get(d, d[i].0))
    && (DistinctKeys(d) ==> DistinctKeys(r))
    && (k in KeySet(d) ==> |r| == |d| && forall i :: 0 <= i < |d| ==> r[i].0 == d[i].0)
    && (k !in KeySet(d) ==> r == d + [(k, v)])
    && (forall i :: 0 <= i < |r| ==> r[i] == (k, v) || r[i] in d)
  }

  lemma PutHead<K, V>(d: Dict<K, V>, k: K, v: V)
    requires d != [] && d[0].0 == k
    ensures Assigned(d, k, v, [(k, v)] + d[1..])
  {
    var r := [(k, v)] + d[1..];
    KeySetCons(d);
    KeySetCons(r);
    assert r[1..] == d[1..];
    forall i | 0 <= i < |d| && d[i].0 != k
      ensures Get(r, d[i].0) == Get(d, d[i].0)
    {
    }
    if DistinctKeys(d) {
      forall i, j | 0 <= i < j < |r| ensures r[i].0 != r[j].0 {
        assert r[i].0 == d[i].0 && r[j].0 == d[j].0;
      }
    }
  }

  lemma PutTail<K, V>(d: Dict<K, V>, k: K, v: V, rest: Dict<K, V>)
    requires d != [] && d[0].0 != k
    requires Assigned(d[1..], k, v, rest)
    ensures Assigned(d, k, v, [d[0]] + rest)
  {
    var r := [d[0]] + rest;
    KeySetCons(d);
    KeySetCons(r);
    assert r[1..] == rest;
    PutTailGet(d, k, v, rest);
    PutTailDistinct(d, k, v, rest);
    PutTailOrder(d, k, v, rest);
    PutTailEntries(d, k, v, rest);
  }

  lemma PutTailGet<K, V>(d: Dict<K, V>, k: K, v: V, rest: Dict<K, V>)
    requires d != [] && d[0].0 != k
    requires Get(rest, k) == Some(v)
    requires forall i :: 0 <= i < |d[1..]| && d[1..][i].0 != k ==> Get(rest, d[1..][i].0) == Get(d[1..], d[1..][i].0)
    ensures Get([d[0]] + rest, k) == Some(v)
    ensures forall i :: 0 <= i < |d| && d[i].0 != k ==> Get([d[0]] + rest, d[i].0) == Get(d, d[i].0)
  {
    var r := [d[0]] + rest;
    assert r[1..] == rest;
    forall i | 0 <= i < |d| && d[i].0 != k
      ensures Get(r, d[i].0) == Get(d, d[i].0)
    {
      if i > 0 && d[i].0 != d[0].0 {
        assert d[1..][i - 1].0 == d[i].0;
      }
    }
  }

  lemma PutTailDistinct<K, V>(d: Dict<K, V>, k: K, v: V, rest: Dict<K, V>)
    requires d != [] && d[0].0 != k
    requires KeySet(rest) == KeySet(d[1..]) + {k}
    requires DistinctKeys(d[1..]) ==> DistinctKeys(rest)
    ensures DistinctKeys(d) ==> DistinctKeys([d[0]] + rest)
  {
    var r := [d[0]] + rest;
    if DistinctKeys(d) {
      assert DistinctKeys(d[1..]);
      KeySetCons(d);
      assert d[0].0 !in KeySet(d[1..]);
      forall j | 0 < j < |r| ensures r[j].0 != r[0].0 {
        assert r[j] == rest[j - 1];
        assert r[j].0 in KeySet(rest);
      }
      forall i, j | 0 < i < j < |r| ensures r[i].0 != r[j].0 {
        assert r[i] == rest[i - 1] && r[j] == rest[j - 1];
      }
    }
  }

  lemma PutTailOrder<K, V>(d: Dict<K, V>, k: K, v: V, rest: Dict<K, V>)
    requires d != [] && d[0].0 != k
    requires k in KeySet(d[1..]) ==> |rest| == |d[1..]| && forall i :: 0 <= i < |d[1..]| ==> rest[i].0 == d[1..][i].0
    requires k !in KeySet(d[1..]) ==> rest == d[1..] + [(k, v)]
    ensures k in KeySet(d) ==> |[d[0]] + rest| == |d| && forall i :: 0 <= i < |d| ==> ([d[0]] + rest)[i].0 == d[i].0
    ensures k !in KeySet(d) ==> [d[0]] + rest == d + [(k, v)]
  {
    var r := [d[0]] + rest;
    KeySetCons(d);
    if k in KeySet(d) {
      forall i | 0 < i < |d| ensures r[i].0 == d[i].0 {
        assert d[1..][i - 1] == d[i];
        assert r[i] == rest[i - 1];
      }
    } else {
      assert [d[0]] + (d[1..] + [(k, v)]) == d + [(k, v)];
    }
  }

  lemma PutTailEntries<K, V>(d: Dict<K, V>, k: K, v: V, rest: Dict<K, V>)
    requires d != []
    requires forall i :: 0 <= i < |rest| ==> rest[i] == (k, v) || rest[i] in d[1..]
    ensures forall i :: 0 <= i < |[d[0]] + rest| ==> ([d[0]] + rest)[i] == (k, v) || ([d[0]] + rest)[i] in d
  {
    var r := [d[0]] + rest;
    forall i | 0 <= i < |r| ensures r[i] == (k, v) || r[i] in d {
      if i > 0 {
        assert r[i] == rest[i - 1];
      }
    }
  }

  /** No later pair of `ps` has the key of `ps[i]`. */
  predicate LastOfKey<K(==), V>(ps: seq<(K, V)>, i: nat)
    requires i < |ps|
  {
    forall j :: i < j < |ps| ==> ps[j].0 != ps[i].0
  }

  /** The dict built by assigning the pairs of `ps` one after the other:
      its keys are those of `ps`, each once, and each key holds the value of
      the LAST pair that carries it. */
  function FromPairs<K(==), V>(ps: seq<(K, V)>): (d: Dict<K, V>)
    ensures DistinctKeys(d)
    ensures KeySet(d) == KeySet(ps)
    ensures forall i :: 0 <= i < |ps| && LastOfKey(ps, i) ==> Get(d, ps[i].0) == Some(ps[i].1)
    ensures forall i :: 0 <= i < |d| ==> d[i] in ps
  {
    if ps == [] then []
    else
      var prev := FromPairs(ps[..|ps| - 1]);
      FromPairsSnoc(ps, prev);
      Put(prev, ps[|ps| - 1].0, ps[|ps| - 1].1)
  }

  /** Everything `FromPairs(ps)` promises about its result `d`. */
  ghost predicate BuiltFrom<K, V>(ps: seq<(K, V)>, d: Dict<K, V>)
  {
    && DistinctKeys(d)
    && KeySet(d) == KeySet(ps)
    && (forall i :: 0 <= i < |ps| && LastOfKey(ps, i) ==> Get(d, ps[i].0) == Some(ps[i].1))
    && (forall i :: 0 <= i < |d| ==> d[i] in ps)
  }

  lemma FromPairsSnoc<K, V>(ps: seq<(K, V)>, prev: Dict<K, V>)
    requires ps != []
    requires BuiltFrom(ps[..|ps| - 1], prev)
    ensures BuiltFrom(ps, Put(prev, ps[|ps| - 1].0, ps[|ps| - 1].1))
  {
    var init := ps[..|ps| - 1];
    var last := ps[|ps| - 1];
    var d := Put(prev, last.0, last.1);
    KeySetSnoc(init, last);
    assert init + [last] == ps;
    forall i | 0 <= i < |ps| && LastOfKey(ps, i)
      ensures Get(d, ps[i].0) == Some(ps[i].1)
    {
      if i < |init| {
        assert ps[i].0 != last.0;
        assert init[i] == ps[i];
        assert LastOfKey(init, i);
        var j :| 0 <= j < |prev| && prev[j].0 == ps[i].0;
      }
    }
    forall i | 0 <= i < |d| ensures d[i] in ps {
      if d[i] != last {
        assert d[i] in prev;
        assert d[i] in init;
      }
    }
  }

  lemma KeySetSnoc<K, V>(ps: seq<(K, V)>, p: (K, V))
    ensures KeySet(ps + [p]) == KeySet(ps) + {p.0}
  {
    var qs := ps + [p];
    forall x | x in KeySet(qs) ensures x in KeySet(ps) + {p.0} {
      var i :| 0 <= i < |qs| && qs[i].0 == x;
      if i < |ps| {
        assert ps[i].0 == x;
      }
    }
    forall x | x in KeySet(ps) ensures x in KeySet(qs) {
      var i :| 0 <= i < |ps| && ps[i].0 == x;
      assert qs[i].0 == x;
    }
    assert qs[|ps|].0 == p.0;
  }

  lemma KeySetCons<K, V>(d: Dict<K, V>)
    requires d != []
    ensures KeySet(d) == {d[0].0} + KeySet(d[1..])
  {
    forall x | x in KeySet(d) ensures x in {d[0].0} + KeySet(d[1..]) {
      var i :| 0 <= i < |d| && d[i].0 == x;
      if i > 0 {
        assert d[1..][i - 1].0 == x;
      }
    }
    forall x | x in KeySet(d[1..]) ensures x in KeySet(d) {
      var i :| 0 <= i < |d[1..]| && d[1..][i].0 == x;
      assert d[i + 1].0 == x;
    }
    assert d[0].0 in KeySet(d);
  }

  /** A dict with distinct keys drawn from `ps` has at most `|ps|` entries. */
  lemma DistinctKeysBound<K, V, W>(d: Dict<K, V>, ps: seq<(K, W)>)
    requires DistinctKeys(d) && KeySet(d) == KeySet(ps)
    ensures |d| <= |ps|
  {
    DistinctCard(d);
    KeySetCard(ps);
  }

  lemma {:induction false} DistinctCard<K, V>(d: Dict<K, V>)
    requires DistinctKeys(d)
    ensures |KeySet(d)| == |d|
  {
    if d != [] {
      KeySetCons(d);
      assert DistinctKeys(d[1..]);
      DistinctCard(d[1..]);
      assert d[0].0 !in KeySet(d[1..]);
    }
  }

  lemma {:induction false} KeySetCard<K, V>(ps: seq<(K, V)>)
    ensures |KeySet(ps)| <= |ps|
  {
    if ps != [] {
      KeySetCons(ps);
      KeySetCard(ps[1..]);
    }
  }

  /** Two dicts with the same keys in the same order answer a lookup from the
      same position. */
  lemma {:induction false} GetAligned<K, V, W>(d: Dict<K, V>, e: Dict<K, W>, k: K)
    requires |d| == |e| && forall i :: 0 <= i < |d| ==> d[i].0 == e[i].0
    ensures Get(d, k).Some? <==> Get(e, k).Some?
    ensures Get(d, k).Some? ==> exists i :: 0 <= i < |d| && d[i].0 == k && Get(d, k) == Some(d[i].1) && Get(e, k) == Some(e[i].1)
  {
    if d != [] && d[0].0 != k {
      GetAligned(d[1..], e[1..], k);
      if Get(d, k).Some? {
        var i :| 0 <= i < |d[1..]| && d[1..][i].0 == k && Get(d[1..], k) == Some(d[1..][i].1) && Get(e[1..], k) == Some(e[1..][i].1);
        assert d[1..][i] == d[i + 1] && e[1..][i] == e[i + 1];
      }
    } else if d != [] {
      assert Get(d, k) == Some(d[0].1) && Get(e, k) == Some(e[0].1);
    }
  }

  lemma KeySetAligned<K, V, W>(d: Dict<K, V>, e: Dict<K, W>)
    requires |d| == |e| && forall i :: 0 <= i < |d| ==> d[i].0 == e[i].0
    ensures KeySet(d) == KeySet(e)
  {
    forall x | x in KeySet(d) ensures x in KeySet(e) {
      var i :| 0 <= i < |d| && d[i].0 == x;
      assert e[i].0 == x;
    }
    forall x | x in KeySet(e) ensures x in KeySet(d) {
      var i :| 0 <= i < |e| && e[i].0 == x;
      assert d[i].0 == x;
    }
  }

  /** When every pair of `ps` with key `k` carries `v`, the dict built from
      `ps` maps `k` to `v`. */
  lemma {:induction false} FromPairsAgreeing<K, V>(ps: seq<(K, V)>, k: K, v: V)
    requires k in KeySet(ps)
    requires forall i :: 0 <= i < |ps| && ps[i].0 == k ==> ps[i].1 == v
    ensures Get(FromPairs(ps), k) == Some(v)
  {
    var init := ps[..|ps| - 1];
    var last := ps[|ps| - 1];
    if last.0 != k {
      KeySetSnoc(init, last);
      assert init + [last] == ps;
      forall i | 0 <= i < |init| && init[i].0 == k ensures init[i].1 == v {
        assert init[i] == ps[i];
      }
      FromPairsAgreeing(init, k, v);
      var prev := FromPairs(init);
      var j :| 0 <= j < |prev| && prev[j].0 == k;
    }
  }
}
