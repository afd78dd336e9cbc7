/** Directed graphs given by their edge sets, and hop distance in them. */
module Graphs {

  type Graph = set<(nat, nat)>

  /** There is a walk of exactly k edges from u to v. */
  ghost predicate Hops(g: Graph, u: nat, v: nat, k: nat)
    decreases k
  {
    if k == 0 then u == v
    else exists w: nat :: Hops(g, u, w, k - 1) && (w, v) in g
  }

  ghost predicate Reachable(g: Graph, u: nat, v: nat)
  {
    exists k: nat :: Hops(g, u, v, k)
  }

  /** k is the least number of edges on a walk from u to v. */
  ghost predicate Dist(g: Graph, u: nat, v: nat, k: nat)
  {
    Hops(g, u, v, k) && forall j: nat :: Hops(g, u, v, j) ==> k <= j
  }

  lemma {:induction false} HopsPrepend(g: Graph, u: nat, w: nat, v: nat, k: nat)
    requires (u, w) in g && Hops(g, w, v, k)
    ensures Hops(g, u, v, k + 1)
    decreases k
  {
    if k == 0 {
      assert Hops(g, u, u, 0);
    } else {
      var x: nat :| Hops(g, w, x, k - 1) && (x, v) in g;
      HopsPrepend(g, u, w, x, k - 1);
    }
  }

  lemma {:induction false} HopsFirstEdge(g: Graph, u: nat, v: nat, k: nat) returns (w: nat)
    requires Hops(g, u, v, k + 1)
    ensures (u, w) in g && Hops(g, w, v, k)
    decreases k
  {
    var x: nat :| Hops(g, u, x, k) && (x, v) in g;
    if k == 0 {
      w := v;
    } else {
      w := HopsFirstEdge(g, u, x, k - 1);
    }
  }

  /** A reachable vertex has a hop distance. */
  lemma {:induction false} DistExists(g: Graph, u: nat, v: nat, k: nat) returns (d: nat)
    requires Hops(g, u, v, k)
    ensures Dist(g, u, v, d) && d <= k
    decreases k
  {
    if j: nat :| j < k && Hops(g, u, v, j) {
      d := DistExists(g, u, v, j);
    } else {
      d := k;
    }
  }

  /** `h` is `g` with the vertex `i` renamed to `ids[i]`. */
  ghost predicate Renames(g: Graph, ids: seq<nat>, h: Graph)
  {
    && (forall i, j :: 0 <= i < j < |ids| ==> ids[i] != ids[j])
    && (forall i, j :: (i, j) in g ==> i < |ids| && j < |ids|)
    && (forall i, j :: 0 <= i < |ids| && 0 <= j < |ids| ==> ((i, j) in g <==> (ids[i], ids[j]) in h))
    && (forall a, b :: (a, b) in h ==> a in ids && b in ids)
  }

  lemma {:induction false} HopsRenamed(g: Graph, ids: seq<nat>, h: Graph, u: nat, v: nat, k: nat)
    requires Renames(g, ids, h) && u < |ids| && v < |ids|
    ensures Hops(g, u, v, k) <==> Hops(h, ids[u], ids[v], k)
    decreases k
  {
    if k > 0 {
      if Hops(g, u, v, k) {
        var w: nat :| Hops(g, u, w, k - 1) && (w, v) in g;
        HopsRenamed(g, ids, h, u, w, k - 1);
        assert (ids[w], ids[v]) in h;
      }
      if Hops(h, ids[u], ids[v], k) {
        var x: nat :| Hops(h, ids[u], x, k - 1) && (x, ids[v]) in h;
        var w := RenamedFrom(g, ids, h, x, v);
        HopsRenamed(g, ids, h, u, w, k - 1);
      }
    }
  }

  lemma RenamedFrom(g: Graph, ids: seq<nat>, h: Graph, x: nat, v: nat) returns (w: nat)
    requires Renames(g, ids, h) && v < |ids| && (x, ids[v]) in h
    ensures w < |ids| && ids[w] == x && (w, v) in g
  {
    w :| 0 <= w < |ids| && ids[w] == x;
  }

  lemma DistRenamed(g: Graph, ids: seq<nat>, h: Graph, u: nat, v: nat, k: nat)
    requires Renames(g, ids, h) && u < |ids| && v < |ids|
    ensures Dist(g, u, v, k) <==> Dist(h, ids[u], ids[v], k)
    ensures Reachable(g, u, v) <==> Reachable(h, ids[u], ids[v])
  {
    forall j: nat
      ensures Hops(g, u, v, j) <==> Hops(h, ids[u], ids[v], j)
    {
      HopsRenamed(g, ids, h, u, v, j);
    }
  }

  // ---------------------------------------------------------------- self loops

  ghost function Plain(g: Graph): Graph
  {
    set e | e in g && e.0 != e.1
  }

  lemma {:induction false} PlainHops(g: Graph, u: nat, v: nat, k: nat)
    requires Hops(Plain(g), u, v, k)
    ensures Hops(g, u, v, k)
    decreases k
  {
    if k > 0 {
      var w: nat :| Hops(Plain(g), u, w, k - 1) && (w, v) in Plain(g);
      PlainHops(g, u, w, k - 1);
    }
  }

  lemma {:induction false} HopsPlain(g: Graph, u: nat, v: nat, k: nat) returns (j: nat)
    requires Hops(g, u, v, k)
    ensures j <= k && Hops(Plain(g), u, v, j)
    decreases k
  {
    if k == 0 {
      j := 0;
    } else {
      var w: nat :| Hops(g, u, w, k - 1) && (w, v) in g;
      j := HopsPlain(g, u, w, k - 1);
      if w != v {
        assert (w, v) in Plain(g);
        j := j + 1;
      }
    }
  }

  /** Self loops change no distance. */
  lemma PlainDist(g: Graph, u: nat, v: nat, k: nat)
    ensures Dist(g, u, v, k) <==> Dist(Plain(g), u, v, k)
    ensures Reachable(g, u, v) <==> Reachable(Plain(g), u, v)
  {
    forall j: nat | Hops(Plain(g), u, v, j)
      ensures Hops(g, u, v, j)
    {
      PlainHops(g, u, v, j);
    }
    forall j: nat | Hops(g, u, v, j)
      ensures exists i: nat :: i <= j && Hops(Plain(g), u, v, i)
    {
      var i := HopsPlain(g, u, v, j);
    }
  }
}
