/** The object tree kept in step with the directory map: adding and removing the objects of one LSA
    (src/pft.c:279-312). */
module Directories {
  import opened HashTables
  import opened Types
  import opened Forests
  import opened Queries
  import opened PrefixTrees
  import Protocol

  /** The directory without one node at some objects. */
  ghost function RmObjs(dir: map<string, set<nat>>, objs: seq<string>, n: nat): map<string, set<nat>>
  {
    map o | o in dir :: if o in objs then dir[o] - {n} else dir[o]
  }

  lemma AddedObj(f: Forest, dir: map<string, set<nat>>, objs: seq<string>, i: nat, n: nat)
    requires i < |objs| && objs[i] != "" && Represents(f, Protocol.AddObjs(dir, objs[..i], n))
    ensures Fields(objs[i]) != [] && Represents(AddPath(f, Fields(objs[i]), n), Protocol.AddObjs(dir, objs[..i + 1], n))
  {
    AddRepresents(f, Protocol.AddObjs(dir, objs[..i], n), objs[i], n);
    assert objs[..i + 1][..i] == objs[..i] && objs[..i + 1][i] == objs[i];
  }

  lemma RemovedObj(f: Forest, dir: map<string, set<nat>>, objs: seq<string>, i: nat, n: nat)
    requires i < |objs| && objs[i] in dir && Represents(f, RmObjs(dir, objs[..i], n))
    ensures Fields(objs[i]) != [] && IdsAt(f, Fields(objs[i])).Some?
    ensures Represents(RmPath(f, Fields(objs[i]), n), RmObjs(dir, objs[..i + 1], n))
  {
    var d := RmObjs(dir, objs[..i], n);
    RmRepresents(f, d, objs[i], n);
    assert HoldsAt(f, d, objs[i]);
    var d' := RmObjs(dir, objs[..i + 1], n);
    assert objs[..i + 1] == objs[..i] + [objs[i]];
    forall o | o in dir
      ensures d[objs[i] := d[objs[i]] - {n}][o] == d'[o]
    {
    }
    assert d[objs[i] := d[objs[i]] - {n}] == d';
  }

  /** One object more; `v` is the tree before all of them. */
  method AddNext(tree: PrefixTree, n: nat, objs: seq<string>, i: nat, ghost dir: map<string, set<nat>>, ghost v: View)
    requires tree.Valid() && i < |objs| && objs[i] != ""
    requires Represents(tree.view.forest, Protocol.AddObjs(dir, objs[..i], n))
    modifies tree`root, tree`view, tree.view.nodes, tree.view.arrays, tree.view.cells
    ensures tree.Valid() && tree.Grows() && tree.Extends()
    ensures Represents(tree.view.forest, Protocol.AddObjs(dir, objs[..i + 1], n))
    ensures var w := old(tree.view);
      && tree.view.nodes - v.nodes <= (tree.view.nodes - w.nodes) + (w.nodes - v.nodes)
      && tree.view.arrays - v.arrays <= (tree.view.arrays - w.arrays) + (w.arrays - v.arrays)
      && tree.view.cells - v.cells <= (tree.view.cells - w.cells) + (w.cells - v.cells)
  {
    AddedObj(tree.view.forest, dir, objs, i, n);
    tree.Add(objs[i], n);
  }

  /** pft_add_obj_frm_lsa. */
  method AddObjFromLsa(tree: PrefixTree, n: nat, body: Body, ghost dir: map<string, set<nat>>)
    requires tree.Valid() && Represents(tree.view.forest, dir) && "" !in body.objs
    modifies tree`root, tree`view, tree.view.nodes, tree.view.arrays, tree.view.cells
    ensures tree.Valid() && tree.Grows() && tree.Extends()
    ensures Represents(tree.view.forest, Protocol.AddObjs(dir, body.objs, n))
  {
    hide PrefixTree.Valid;
    ghost var v := tree.view;
    for i := 0 to |body.objs|
      invariant tree.Valid() && Represents(tree.view.forest, Protocol.AddObjs(dir, body.objs[..i], n))
      invariant fresh(tree.view.repr - v.repr) && fresh(tree.view.nodes - v.nodes) && tree.scratch == old(tree.scratch)
      invariant fresh(tree.view.arrays - v.arrays) && fresh(tree.view.cells - v.cells)
    {
      AddNext(tree, n, body.objs, i, dir, v);
    }
    assert body.objs[..|body.objs|] == body.objs;
  }

  lemma RmNone(dir: map<string, set<nat>>, objs: seq<string>, n: nat)
    ensures RmObjs(dir, objs[..0], n) == dir
  {
  }

  method RmNext(tree: PrefixTree, n: nat, objs: seq<string>, i: nat, ghost dir: map<string, set<nat>>)
    returns (crash: bool)
    requires tree.Valid() && i < |objs| && objs[i] in dir && Represents(tree.view.forest, RmObjs(dir, objs[..i], n))
    modifies tree`view, tree.view.nodes, tree.view.arrays, tree.view.cells
    ensures tree.Valid() && tree.KeepsNodes() && tree.Extends()
    ensures Represents(tree.view.forest, RmObjs(dir, objs[..i + 1], n)) && !crash
  {
    RemovedObj(tree.view.forest, dir, objs, i, n);
    crash := tree.Rm(objs[i], n);
  }

  /** pft_rm_obj_frm_lsa: objects that have been added before can be removed without following a null pointer. */
  method RmObjFromLsa(tree: PrefixTree, n: nat, body: Body, ghost dir: map<string, set<nat>>) returns (crash: bool)
    requires tree.Valid() && Represents(tree.view.forest, dir) && forall o :: o in body.objs ==> o in dir
    modifies tree`view, tree.view.nodes, tree.view.arrays, tree.view.cells
    ensures tree.Valid() && tree.KeepsNodes() && tree.Extends()
    ensures Represents(tree.view.forest, RmObjs(dir, body.objs, n)) && !crash
  {
    hide PrefixTree.Valid;
    crash := false;
    RmNone(dir, body.objs, n);
    var i := 0;
    while i < |body.objs|
      invariant i <= |body.objs| && !crash && tree.Valid() && tree.KeepsNodes() && tree.Extends()
      invariant Represents(tree.view.forest, RmObjs(dir, body.objs[..i], n))
    {
      crash := RmNext(tree, n, body.objs, i, dir);
      i := i + 1;
    }
    assert body.objs[..|body.objs|] == body.objs;
  }
}
