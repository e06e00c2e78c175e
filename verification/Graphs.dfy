/** Finite directed graphs as sets of edges : walks, loops, and the pigeonhole argument that a walk
    longer than the number of vertices goes round a loop. */
module Graphs {

  /** `p` follows edges of `g` from its first vertex to its last (one vertex alone is a walk). */
  ghost predicate Walk<V>(g: set<(V, V)>, p: seq<V>) {
    |p| > 0 && forall i :: 0 < i < |p| ==> (p[i - 1], p[i]) in g
  }

  ghost predicate WalkFromTo<V>(g: set<(V, V)>, p: seq<V>, a: V, b: V) {
    Walk(g, p) && p[0] == a && p[|p| - 1] == b
  }

  ghost predicate OnLoop<V(!new)>(g: set<(V, V)>, v: V) {
    exists p :: |p| > 1 && WalkFromTo(g, p, v, v)
  }

  ghost predicate Acyclic<V(!new)>(g: set<(V, V)>) {
    forall v :: !OnLoop(g, v)
  }

  lemma OneLoop<V(!new)>(g: set<(V, V)>, v: V)
    requires OnLoop(g, v)
    ensures !Acyclic(g)
  {
  }

  function Elements<V>(p: seq<V>): set<V> {
    set v | v in p
  }

  ghost predicate Distinct<V>(p: seq<V>) {
    forall i, j :: 0 <= i < j < |p| ==> p[i] != p[j]
  }

  lemma {:induction false} DistinctSize<V>(p: seq<V>)
    requires Distinct(p)
    ensures |Elements(p)| == |p|
  {
    if p == [] {
    } else {
      var front, last := p[..|p| - 1], p[|p| - 1];
      DistinctSize(front);
      assert Elements(p) == Elements(front) + {last};
    }
  }

  lemma SubsetSize<V>(a: set<V>, b: set<V>)
    requires a <= b
    ensures |a| <= |b|
  {
    assert b == a + (b - a);
  }

  /** More places than vertices : one vertex stands in two places. */
  lemma Repeats<V>(p: seq<V>, vs: set<V>) returns (i: nat, j: nat)
    requires Elements(p) <= vs
    requires |p| > |vs|
    ensures i < j < |p| && p[i] == p[j]
  {
    if Distinct(p) {
      DistinctSize(p);
      SubsetSize(Elements(p), vs);
      assert false;
    }
    i, j :| 0 <= i < j < |p| && p[i] == p[j];
  }

  lemma Slice<V>(g: set<(V, V)>, p: seq<V>, i: nat, j: nat)
    requires Walk(g, p) && i < j <= |p|
    ensures Walk(g, p[i..j])
  {
    var q := p[i..j];
    forall k | 0 < k < |q| ensures (q[k - 1], q[k]) in g {
      assert (p[i + k - 1], p[i + k]) in g;
    }
  }

  /** A walk longer than the number of vertices passes a vertex that is on a loop. */
  lemma LongWalkLoops<V(!new)>(g: set<(V, V)>, p: seq<V>, vs: set<V>) returns (i: nat)
    requires Walk(g, p) && Elements(p) <= vs && |p| > |vs|
    ensures i < |p| && OnLoop(g, p[i])
  {
    var j;
    i, j := Repeats(p, vs);
    Slice(g, p, i, j + 1);
    assert WalkFromTo(g, p[i..j + 1], p[i], p[i]);
  }

  /** Without loops a walk has no more vertices than there are. */
  lemma AcyclicWalkIsShort<V(!new)>(g: set<(V, V)>, p: seq<V>, vs: set<V>)
    requires Acyclic(g) && Walk(g, p) && Elements(p) <= vs
    ensures |p| <= |vs|
  {
    if |p| > |vs| {
      var i := LongWalkLoops(g, p, vs);
      assert false;
    }
  }

  lemma Extended<V>(g: set<(V, V)>, p: seq<V>, v: V)
    requires Walk(g, p) && (p[|p| - 1], v) in g
    ensures Walk(g, p + [v])
  {
    var q := p + [v];
    forall k | 0 < k < |q| ensures (q[k - 1], q[k]) in g {
      if k < |p| {
        assert (p[k - 1], p[k]) in g;
      }
    }
  }

  lemma Prepended<V>(g: set<(V, V)>, v: V, p: seq<V>)
    requires Walk(g, p) && (v, p[0]) in g
    ensures Walk(g, [v] + p)
  {
    var q := [v] + p;
    forall k | 0 < k < |q| ensures (q[k - 1], q[k]) in g {
      if k > 1 {
        assert (p[k - 2], p[k - 1]) in g;
      }
    }
  }
}
