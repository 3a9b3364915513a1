/** Counting into maps: what a map of counters holds after a run of additions. */
module Tally {
  /** m[x.0] += x.1, a missing counter being zero. */
  function Bump<K(==)>(m: map<K, nat>, x: (K, nat)): map<K, nat> {
    m[x.0 := (if x.0 in m then m[x.0] else 0) + x.1]
  }

  function TallyOf<K(==)>(xs: seq<(K, nat)>): map<K, nat> {
    if xs == [] then map[] else Bump(TallyOf(xs[..|xs| - 1]), xs[|xs| - 1])
  }

  ghost function KeysOf<K>(xs: seq<(K, nat)>): set<K> {
    set i | 0 <= i < |xs| :: xs[i].0
  }

  function Weight<K(==)>(xs: seq<(K, nat)>, k: K): nat {
    if xs == [] then 0
    else Weight(xs[..|xs| - 1], k) + if xs[|xs| - 1].0 == k then xs[|xs| - 1].1 else 0
  }

  function TotalWeight<K>(xs: seq<(K, nat)>): nat {
    if xs == [] then 0 else TotalWeight(xs[..|xs| - 1]) + xs[|xs| - 1].1
  }

  lemma TallyStep<K>(xs: seq<(K, nat)>, x: (K, nat))
    ensures TallyOf(xs + [x]) == Bump(TallyOf(xs), x)
    ensures KeysOf(xs + [x]) == KeysOf(xs) + {x.0}
    ensures TotalWeight(xs + [x]) == TotalWeight(xs) + x.1
    ensures forall k :: Weight(xs + [x], k) == Weight(xs, k) + if x.0 == k then x.1 else 0
  {}

  /** A counter holds the sum of what was added under its key, and there is one for
      every key that occurred. */
  lemma {:induction false} TallyMeaning<K>(xs: seq<(K, nat)>)
    ensures TallyOf(xs).Keys == KeysOf(xs)
    ensures forall k :: k in TallyOf(xs) ==> TallyOf(xs)[k] == Weight(xs, k)
    ensures forall k :: k !in TallyOf(xs) ==> Weight(xs, k) == 0
  {
    if xs != [] {
      var ys, x := xs[..|xs| - 1], xs[|xs| - 1];
      assert xs == ys + [x];
      TallyMeaning(ys);
      TallyStep(ys, x);
    }
  }

  lemma TotalStep<K>(xs: seq<(K, nat)>, x: (K, nat))
    ensures TotalWeight(xs + [x]) == TotalWeight(xs) + x.1
  {}

  // ---------- sums over a map ----------

  ghost function Sum<K>(m: map<K, nat>): nat
    decreases |m|
  {
    if m == map[] then 0
    else
      var k :| k in m;
      assert (m - {k}).Keys == m.Keys - {k};
      m[k] + Sum(m - {k})
  }

  lemma Without<K>(m: map<K, nat>, k: K)
    requires k in m
    ensures |m - {k}| < |m|
  {}

  /** Any key may be counted first. */
  lemma {:induction false} SumOut<K>(m: map<K, nat>, k: K)
    requires k in m
    ensures Sum(m) == m[k] + Sum(m - {k})
    decreases |m|
  {
    var j :| j in m && Sum(m) == m[j] + Sum(m - {j});
    if j != k {
      Without(m, j);
      Without(m, k);
      SumOut(m - {j}, k);
      SumOut(m - {k}, j);
      assert m - {j} - {k} == m - {k} - {j};
    }
  }

  lemma SumSet<K>(m: map<K, nat>, k: K, v: nat)
    ensures Sum(m[k := v]) == Sum(m) + v - if k in m then m[k] else 0
  {
    var n := m[k := v];
    SumOut(n, k);
    assert n - {k} == m - {k};
    if k in m {
      SumOut(m, k);
    } else {
      assert m - {k} == m;
    }
  }

  /** The counters together hold all that was added. */
  lemma {:induction false} TallySum<K>(xs: seq<(K, nat)>)
    ensures Sum(TallyOf(xs)) == TotalWeight(xs)
  {
    if xs != [] {
      var ys, x := xs[..|xs| - 1], xs[|xs| - 1];
      TallySum(ys);
      var m := TallyOf(ys);
      SumSet(m, x.0, (if x.0 in m then m[x.0] else 0) + x.1);
    }
  }

  function SumOver<K(==)>(order: seq<K>, m: map<K, nat>): nat
    requires forall i :: 0 <= i < |order| ==> order[i] in m
  {
    if order == [] then 0 else m[order[0]] + SumOver(order[1..], m)
  }

  /** order lists every key of keys once. */
  ghost predicate Enumerates<K(!new)>(order: seq<K>, keys: set<K>) {
    && (forall i, j :: 0 <= i < j < |order| ==> order[i] != order[j])
    && (forall k :: k in keys <==> k in order)
  }

  lemma {:induction false} SumOverSame<K>(order: seq<K>, m: map<K, nat>, k: K)
    requires k !in order && forall i :: 0 <= i < |order| ==> order[i] in m
    ensures forall i :: 0 <= i < |order| ==> order[i] in m - {k}
    ensures SumOver(order, m - {k}) == SumOver(order, m)
  {
    if order != [] {
      SumOverSame(order[1..], m, k);
    }
  }

  lemma {:induction false} SumOverAll<K(!new)>(order: seq<K>, m: map<K, nat>)
    requires Enumerates(order, m.Keys)
    ensures forall i :: 0 <= i < |order| ==> order[i] in m
    ensures SumOver(order, m) == Sum(m)
    decreases |order|
  {
    assert forall i :: 0 <= i < |order| ==> order[i] in order;
    if order == [] {
      assert forall k :: k !in m.Keys;
      assert m == map[];
    } else {
      var k := order[0];
      var n := m - {k};
      forall j ensures j in n.Keys <==> j in order[1..] {
        if j in order[1..] {
          var i :| 0 <= i < |order[1..]| && order[1..][i] == j;
          assert order[i + 1] == j;
        }
        if j in n {
          var i :| 0 <= i < |order| && order[i] == j;
          assert order[1..][i - 1] == j;
        }
      }
      SumOut(m, k);
      SumOverAll(order[1..], n);
      SumOverSame(order[1..], m, k);
    }
  }

  // ---------- regrouping ----------

  /** The additions with their keys replaced by coarser ones. */
  function Coarser<K, L>(xs: seq<(K, nat)>, f: K -> L): (ys: seq<(L, nat)>)
    ensures |ys| == |xs| && forall i :: 0 <= i < |xs| ==> ys[i] == (f(xs[i].0), xs[i].1)
  {
    seq(|xs|, i requires 0 <= i < |xs| => (f(xs[i].0), xs[i].1))
  }

  /** m's counters under the keys in done whose coarse key is l. */
  ghost function Under<K(!new), L(!new)>(m: map<K, nat>, done: set<K>, f: K -> L, l: L): map<K, nat> {
    map k | k in m && k in done && f(k) == l :: m[k]
  }

  lemma UnderStep<K(!new), L(!new)>(m: map<K, nat>, done: set<K>, f: K -> L, k: K, l: L)
    requires k in m && k !in done
    ensures Sum(Under(m, done + {k}, f, l)) == Sum(Under(m, done, f, l)) + if f(k) == l then m[k] else 0
  {
    if f(k) == l {
      assert Under(m, done + {k}, f, l) == Under(m, done, f, l)[k := m[k]];
      SumSet(Under(m, done, f, l), k, m[k]);
    } else {
      assert Under(m, done + {k}, f, l) == Under(m, done, f, l);
    }
  }

  /** Regrouping finished counters is the same as counting under coarse keys. */
  lemma {:induction false} Regrouping<K(!new), L(!new)>(xs: seq<(K, nat)>, f: K -> L, l: L)
    ensures Sum(Under(TallyOf(xs), TallyOf(xs).Keys, f, l)) == Weight(Coarser(xs, f), l)
  {
    if xs == [] {
      assert Under(TallyOf(xs), TallyOf(xs).Keys, f, l) == map[];
    } else {
      var ys, x := xs[..|xs| - 1], xs[|xs| - 1];
      Regrouping(ys, f, l);
      assert Coarser(xs, f)[..|ys|] == Coarser(ys, f);
      var m, n := TallyOf(ys), TallyOf(xs);
      var before := Under(m, m.Keys, f, l);
      if f(x.0) == l {
        assert Under(n, n.Keys, f, l) == before[x.0 := n[x.0]];
        SumSet(before, x.0, n[x.0]);
      } else {
        assert Under(n, n.Keys, f, l) == before;
      }
    }
  }

  ghost predicate Regrouped<K(!new), L(!new)>(m: map<K, nat>, done: set<K>, f: K -> L, out: map<L, nat>) {
    && out.Keys == (set k | k in done :: f(k))
    && forall l :: l in out ==> out[l] == Sum(Under(m, done, f, l))
  }

  lemma NothingUnder<K(!new), L(!new)>(m: map<K, nat>, done: set<K>, f: K -> L, l: L)
    requires forall k :: k in done ==> f(k) != l
    ensures Sum(Under(m, done, f, l)) == 0
  {}

  lemma RegroupedIsTally<K(!new), L(!new)>(xs: seq<(K, nat)>, f: K -> L, out: map<L, nat>)
    requires Regrouped(TallyOf(xs), TallyOf(xs).Keys, f, out)
    ensures out == TallyOf(Coarser(xs, f))
  {
    TallyMeaning(xs);
    TallyMeaning(Coarser(xs, f));
    forall l ensures l in KeysOf(Coarser(xs, f)) <==> l in out {
      if l in KeysOf(Coarser(xs, f)) {
        var i :| 0 <= i < |xs| && Coarser(xs, f)[i].0 == l;
        assert xs[i].0 in KeysOf(xs);
      }
      if l in out {
        var k :| k in KeysOf(xs) && f(k) == l;
        var i :| 0 <= i < |xs| && xs[i].0 == k;
        assert Coarser(xs, f)[i].0 == l;
      }
    }
    forall l | l in out ensures out[l] == TallyOf(Coarser(xs, f))[l] {
      Regrouping(xs, f, l);
    }
  }

  lemma RegroupedStep<K(!new), L(!new)>(m: map<K, nat>, done: set<K>, f: K -> L, out: map<L, nat>, k: K)
    requires Regrouped(m, done, f, out) && k in m && k !in done
    ensures Regrouped(m, done + {k}, f, Bump(out, (f(k), m[k])))
  {
    var after := Bump(out, (f(k), m[k]));
    forall l | l in after ensures after[l] == Sum(Under(m, done + {k}, f, l)) {
      UnderStep(m, done, f, k, l);
      if l !in out {
        NothingUnder(m, done, f, l);
      }
    }
  }

  /** Adding every counter to the one of its coarse key, in any order. */
  method Regroup<K(==, !new), L(==, !new)>(m: map<K, nat>, f: K -> L) returns (out: map<L, nat>)
    ensures Regrouped(m, m.Keys, f, out)
  {
    out := map[];
    ghost var done: set<K> := {};
    var rest := m.Keys;
    while rest != {}
      invariant done + rest == m.Keys && done !! rest
      invariant Regrouped(m, done, f, out)
      decreases |rest|
    {
      var k :| k in rest;
      RegroupedStep(m, done, f, out, k);
      out := Bump(out, (f(k), m[k]));
      done, rest := done + {k}, rest - {k};
    }
    assert done == m.Keys;
  }
}
