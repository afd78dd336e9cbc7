/** The object tree of src/pft.c in the heap: nodes with child, sibling and array pointers, changed in place. */
module PrefixTrees {
  import opened HashTables
  import opened Forests
  import opened Queries
  import opened DynArrays

  // ---------------------------------------------------------------- nodes and their linking

  class PfNode {
    const prefix: string
    var ids: DynArray?
    var peer: PfNode?
    var child: PfNode?
    /** What `ids` holds. */
    ghost var list: Option<seq<nat>>

    ghost predicate Ok()
      reads this`ids, this`list, ids, if ids == null then {} else {ids.arr}
    {
      && (ids == null <==> list == None)
      && (ids != null ==> ids.Valid() && ids.Contents() == list.value)
    }

    constructor (prefix: string)
      ensures this.prefix == prefix && ids == null && peer == null && child == null && list == None
    {
      this.prefix := prefix;
      ids, peer, child, list := null, null, null, None;
    }

    /** Adds an id to the array, which may not be there yet, unless the id is in it. */
    method StoreId(nid: nat)
      requires Ok()
      modifies this`ids, this`list, ids, if ids == null then {} else {ids.arr}
      ensures Ok() && ids != null && list == Some(AddId(old(list), nid))
      ensures ids == old(ids) || (old(ids) == null && fresh(ids))
      ensures (old(ids) != null && ids.arr == old(ids.arr)) || fresh(ids.arr)
    {
      if ids == null {
        ids := new DynArray();
      }
      var i := ids.GetElemIdx(nid);
      if i == ids.currElem {
        ids.AddElem(nid);
        list := Some(ids.Contents());
      }
      assert [nid] == [] + [nid];
    }

    /** Takes an id out of the array if it is there. */
    method RemoveId(nid: nat)
      requires Ok() && ids != null
      modifies this`list, ids, ids.arr
      ensures Ok() && ids == old(ids) && list == Some(Forests.RemoveId(old(list).value, nid))
      ensures ids.arr == old(ids.arr) || fresh(ids.arr)
    {
      var i := ids.GetElemIdx(nid);
      if i != ids.currElem {
        ids.RmElemByIdx(i);
        list := Some(ids.Contents());
      }
    }
  }

  /** Which nodes stand where. */
  datatype Shape = Empty | At(node: PfNode, child: Shape, peer: Shape)

  ghost function Head(s: Shape): PfNode?
  {
    if s == Empty then null else s.node
  }

  ghost function Nodes(s: Shape): set<PfNode>
  {
    if s == Empty then {} else {s.node} + Nodes(s.child) + Nodes(s.peer)
  }

  /** No node stands in two places. */
  ghost predicate Separate(s: Shape)
  {
    s == Empty || (&& s.node !in Nodes(s.child) && s.node !in Nodes(s.peer) && Nodes(s.child) !! Nodes(s.peer)
                   && Separate(s.child) && Separate(s.peer))
  }

  ghost predicate Linked(s: Shape)
    reads Nodes(s)`child, Nodes(s)`peer
  {
    s == Empty || (s.node.child == Head(s.child) && s.node.peer == Head(s.peer) && Linked(s.child) && Linked(s.peer))
  }

  ghost function ForestOf(s: Shape): Forest
    reads Nodes(s)`list
  {
    if s == Empty then Nil else Branch(s.node.prefix, s.node.list, ForestOf(s.child), ForestOf(s.peer))
  }

  ghost function PeerOf(s: Shape, prefix: string): (r: Shape)
    ensures r == s || r < s
  {
    if s == Empty || s.node.prefix == prefix then s else PeerOf(s.peer, prefix)
  }

  /** The sibling list below a path. */
  ghost function Below(s: Shape, path: seq<string>): Shape
    decreases path
  {
    if path == [] then s
    else if PeerOf(s, path[0]) == Empty then Empty
    else Below(PeerOf(s, path[0]).child, path[1..])
  }

  /** The node at the end of a path. */
  ghost function Place(s: Shape, path: seq<string>): Shape
    requires path != []
    decreases path
  {
    var m := PeerOf(s, path[0]);
    if m == Empty || |path| == 1 then m else Place(m.child, path[1..])
  }

  lemma {:induction false} PeerFacts(s: Shape, prefix: string)
    ensures var m := PeerOf(s, prefix);
      && Nodes(m) <= Nodes(s) && (Linked(s) ==> Linked(m)) && (Separate(s) ==> Separate(m))
      && ForestOf(m) == FindPeer(ForestOf(s), prefix)
  {
    if s != Empty && s.node.prefix != prefix {
      PeerFacts(s.peer, prefix);
    }
  }

  lemma {:induction false} BelowFacts(s: Shape, path: seq<string>)
    ensures var m := Below(s, path);
      Nodes(m) <= Nodes(s) && (Linked(s) ==> Linked(m)) && (Separate(s) ==> Separate(m))
    decreases path
  {
    if path != [] {
      PeerFacts(s, path[0]);
      if PeerOf(s, path[0]) != Empty {
        BelowFacts(PeerOf(s, path[0]).child, path[1..]);
      }
    }
  }

  lemma {:induction false} PlaceFacts(s: Shape, path: seq<string>)
    requires path != []
    ensures Nodes(Place(s, path)) <= Nodes(s) && ForestOf(Place(s, path)) == NodeAt(ForestOf(s), path)
    ensures Place(s, path) != Empty ==> Below(s, path) == Place(s, path).child
    ensures Linked(s) ==> Linked(Place(s, path))
    decreases path
  {
    PeerFacts(s, path[0]);
    var m := PeerOf(s, path[0]);
    if m != Empty && |path| > 1 {
      PlaceFacts(m.child, path[1..]);
    }
  }

  /** One field further down. */
  lemma {:induction false} PlaceSnoc(s: Shape, path: seq<string>, prefix: string)
    requires path == [] || Place(s, path) != Empty
    ensures Place(s, path + [prefix]) == PeerOf(Below(s, path), prefix)
    decreases path
  {
    var longer := path + [prefix];
    if path != [] {
      var m := PeerOf(s, path[0]);
      assert longer[0] == path[0] && longer[1..] == path[1..] + [prefix];
      PlaceSnoc(m.child, path[1..], prefix);
    }
  }

  // ---------------------------------------------------------------- inserting a node

  /** `node` as the new head of the sibling list below `at`. */
  ghost function Pushed(s: Shape, at: seq<string>, node: PfNode): Shape
    decreases at, s
  {
    if at == [] then At(node, Empty, s)
    else if s == Empty then Empty
    else if s.node.prefix != at[0] then s.(peer := Pushed(s.peer, at, node))
    else s.(child := Pushed(s.child, at[1..], node))
  }

  lemma {:induction false} PushedNodes(s: Shape, at: seq<string>, node: PfNode)
    requires node !in Nodes(s) && Separate(s) && (at == [] || Place(s, at) != Empty)
    ensures Nodes(Pushed(s, at, node)) == Nodes(s) + {node} && Separate(Pushed(s, at, node))
    ensures at != [] ==> s != Empty && Head(Pushed(s, at, node)) == Head(s)
    decreases at, s
  {
    if at != [] {
      if s.node.prefix != at[0] {
        PushedNodes(s.peer, at, node);
      } else {
        PushedNodes(s.child, at[1..], node);
      }
    }
  }

  lemma {:induction false} PushedPlace(s: Shape, at: seq<string>, node: PfNode)
    requires at == [] || Place(s, at) != Empty
    ensures Place(Pushed(s, at, node), at + [node.prefix]) == At(node, Empty, Below(s, at))
    decreases at, s
  {
    var path := at + [node.prefix];
    if at != [] {
      assert path[0] == at[0] && path[1..] == at[1..] + [node.prefix];
      if s.node.prefix != at[0] {
        PushedPlace(s.peer, at, node);
        assert Below(s.peer, at) == Below(s, at);
      } else if |at| > 1 {
        PushedPlace(s.child, at[1..], node);
      } else {
        assert at[1..] == [];
      }
    }
  }

  /** Linked, but for the child pointer of `x`. */
  ghost predicate LinkedBut(s: Shape, x: PfNode?)
    reads (Nodes(s) - {x})`child, Nodes(s)`peer
  {
    s == Empty || (&& (s.node == x || s.node.child == Head(s.child)) && s.node.peer == Head(s.peer)
                   && LinkedBut(s.child, x) && LinkedBut(s.peer, x))
  }

  lemma {:induction false} LinkedIsBut(s: Shape, x: PfNode?)
    ensures Linked(s) ==> LinkedBut(s, x)
    ensures LinkedBut(s, x) && x !in Nodes(s) ==> Linked(s)
  {
    if s != Empty {
      LinkedIsBut(s.child, x);
      LinkedIsBut(s.peer, x);
    }
  }

  /** Linking a node in changes only the pointer in front of the sibling list. */
  lemma {:induction false} PushedLinked(s: Shape, at: seq<string>, node: PfNode, parent: PfNode?)
    requires Separate(s) && LinkedBut(s, parent)
    requires if at == [] then parent !in Nodes(s)
      else Place(s, at) != Empty && parent == Place(s, at).node && parent.child == node
    requires node.child == null && node.peer == Head(Below(s, at))
    ensures Linked(Pushed(s, at, node))
    decreases at, s
  {
    LinkedIsBut(s, parent);
    if at != [] {
      LinkedIsBut(s.child, parent);
      LinkedIsBut(s.peer, parent);
      if s.node.prefix != at[0] {
        PlaceFacts(s.peer, at);
        PushedLinked(s.peer, at, node, parent);
      } else {
        if |at| > 1 {
          PlaceFacts(s.child, at[1..]);
        }
        PushedLinked(s.child, at[1..], node, parent);
      }
    }
  }

  /** A new empty node on the way to `path` does not change what adding at `path` gives. */
  lemma {:induction false} PushedSameAdd(s: Shape, at: seq<string>, node: PfNode, path: seq<string>, n: nat)
    requires at < path && node.prefix == path[|at|] && node.list == None
    requires at == [] || Place(s, at) != Empty
    requires PeerOf(Below(s, at), node.prefix) == Empty
    ensures AddPath(ForestOf(Pushed(s, at, node)), path, n) == AddPath(ForestOf(s), path, n)
    decreases at, s
  {
    var f, f' := ForestOf(s), ForestOf(Pushed(s, at, node));
    PeerFacts(s, path[0]);
    if at != [] {
      assert path[0] == at[0];
      PeerFacts(s, at[0]);
      if s.node.prefix != at[0] {
        PushedSameAdd(s.peer, at, node, path, n);
        PushedFinds(s.peer, at, node);
      } else {
        PushedSameAdd(s.child, at[1..], node, path[1..], n);
      }
    }
  }

  lemma {:induction false} PushedFinds(s: Shape, at: seq<string>, node: PfNode)
    requires at != [] && PeerOf(s, at[0]) != Empty
    ensures HasPeer(ForestOf(s), at[0]) && HasPeer(ForestOf(Pushed(s, at, node)), at[0])
    decreases s
  {
    if s.node.prefix != at[0] {
      PushedFinds(s.peer, at, node);
    }
  }

  // ---------------------------------------------------------------- changing an array

  /** The forest with the array at `path` exchanged. */
  ghost function PutIds(f: Forest, path: seq<string>, ids: seq<nat>): Forest
    requires path != []
    decreases path, f
  {
    if f == Nil then Nil
    else if f.prefix != path[0] then f.(peer := PutIds(f.peer, path, ids))
    else if |path| > 1 then f.(child := PutIds(f.child, path[1..], ids))
    else f.(ids := Some(ids))
  }

  /** The shape carries this forest, but for the array of `x`. */
  ghost predicate Carries(s: Shape, f: Forest, x: PfNode?)
    reads (Nodes(s) - {x})`list
  {
    if s == Empty then f == Nil
    else
      && f.Branch? && f.prefix == s.node.prefix && (s.node == x || f.ids == s.node.list)
      && Carries(s.child, f.child, x) && Carries(s.peer, f.peer, x)
  }

  lemma {:induction false} CarriesIs(s: Shape, f: Forest, x: PfNode?)
    ensures f == ForestOf(s) ==> Carries(s, f, x)
    ensures Carries(s, f, x) && x !in Nodes(s) ==> f == ForestOf(s)
  {
    if s != Empty && f != Nil {
      CarriesIs(s.child, f.child, x);
      CarriesIs(s.peer, f.peer, x);
    }
  }

  lemma {:induction false} PutForest(s: Shape, f: Forest, path: seq<string>, ids: seq<nat>)
    requires path != [] && Separate(s) && Place(s, path) != Empty
    requires Carries(s, f, Place(s, path).node) && Place(s, path).node.list == Some(ids)
    ensures ForestOf(s) == PutIds(f, path, ids)
    decreases path, s
  {
    var x := Place(s, path).node;
    CarriesIs(s.child, f.child, x);
    CarriesIs(s.peer, f.peer, x);
    if s.node.prefix != path[0] {
      PlaceFacts(s.peer, path);
      PutForest(s.peer, f.peer, path, ids);
    } else if |path| > 1 {
      PlaceFacts(s.child, path[1..]);
      PutForest(s.child, f.child, path[1..], ids);
    }
  }

  lemma {:induction false} AddIsPut(f: Forest, path: seq<string>, n: nat)
    requires path != [] && NodeAt(f, path) != Nil
    ensures AddPath(f, path, n) == PutIds(f, path, AddId(IdsAt(f, path), n))
    decreases path, f
  {
    if f.prefix != path[0] {
      AddIsPut(f.peer, path, n);
    } else if |path| > 1 {
      AddIsPut(f.child, path[1..], n);
    }
  }

  lemma {:induction false} RmIsPut(f: Forest, path: seq<string>, n: nat)
    requires path != []
    ensures RmPath(f, path, n) == if IdsAt(f, path).Some? then PutIds(f, path, RemoveId(IdsAt(f, path).value, n)) else f
    decreases path, f
  {
    if f != Nil {
      if f.prefix != path[0] {
        RmIsPut(f.peer, path, n);
      } else if |path| > 1 {
        RmIsPut(f.child, path[1..], n);
      }
    }
  }

  lemma {:induction false} PutSame(f: Forest, path: seq<string>)
    requires path != [] && IdsAt(f, path).Some?
    ensures PutIds(f, path, IdsAt(f, path).value) == f
    decreases path, f
  {
    if f.prefix != path[0] {
      PutSame(f.peer, path);
    } else if |path| > 1 {
      PutSame(f.child, path[1..]);
    }
  }

  lemma {:induction false} PlacePrefix(s: Shape, p: seq<string>, q: seq<string>)
    requires p != [] && p <= q && Place(s, p) == Empty
    ensures Place(s, q) == Empty
    decreases p
  {
    if PeerOf(s, p[0]) != Empty {
      PlacePrefix(PeerOf(s, p[0]).child, p[1..], q[1..]);
    }
  }

  /** What a walk to the end of `path` decides about a removal. */
  lemma RmCases(s: Shape, path: seq<string>, n: nat)
    ensures path != [] && Place(s, path) != Empty ==>
      && Place(s, path).node in Nodes(s) && NodeAt(ForestOf(s), path) != Nil
      && IdsAt(ForestOf(s), path) == Place(s, path).node.list
    ensures path != [] && Place(s, path) == Empty ==> NodeAt(ForestOf(s), path) == Nil
    ensures path != [] && (Place(s, path) == Empty || Place(s, path).node.list == None) ==>
      RmPath(ForestOf(s), path, n) == ForestOf(s)
  {
    if path != [] {
      PlaceFacts(s, path);
      RmIsPut(ForestOf(s), path, n);
    }
  }

  lemma RemovedForest(s: Shape, f: Forest, path: seq<string>, n: nat)
    requires path != [] && Separate(s) && Place(s, path) != Empty && IdsAt(f, path).Some?
    requires Carries(s, f, Place(s, path).node) && Place(s, path).node.list == Some(RemoveId(IdsAt(f, path).value, n))
    ensures ForestOf(s) == RmPath(f, path, n)
  {
    RmIsPut(f, path, n);
    PutForest(s, f, path, RemoveId(IdsAt(f, path).value, n));
  }

  ghost function Taken(w: Walk, m: Forest): Walk
    requires m.Branch?
  {
    Walk(m, if IdList(m.ids) != [] then m.ids else w.last, w.all + IdList(m.ids))
  }

  /** What is left of a query walk. */
  ghost function Rest(f: Forest, obj: string, path: seq<string>, start: nat, w: Walk): Walk
    requires start <= |obj|
  {
    var below := if path == [] then f else if NodeAt(f, path) == Nil then Nil else NodeAt(f, path).child;
    Descend(below, FieldsFrom(obj, start), w)
  }

  lemma RestStep(s: Shape, obj: string, path: seq<string>, start: nat, w: Walk)
    requires Parsed(obj, start, path) && start < |obj| && (path == [] || Place(s, path) != Empty)
    ensures var e := FieldEnd(obj, start); var path' := path + [obj[start..e]]; var m := NodeAt(ForestOf(s), path');
      && (if Place(s, path') == Empty then m == Nil else m.Branch? && m.ids == Place(s, path').node.list)
      && Rest(ForestOf(s), obj, path, start, w) == if m == Nil then w else Rest(ForestOf(s), obj, path', e, Taken(w, m))
  {
    var e := FieldEnd(obj, start);
    PlaceSnoc(s, path, obj[start..e]);
    PeerFacts(Below(s, path), obj[start..e]);
    PlaceFacts(s, path + [obj[start..e]]);
    if path != [] {
      PlaceFacts(s, path);
    }
  }

  lemma BeforeStore(s: Shape, path: seq<string>)
    requires path != [] && Place(s, path) != Empty
    ensures NodeAt(ForestOf(s), path) != Nil && IdsAt(ForestOf(s), path) == Place(s, path).node.list
    ensures Carries(s, ForestOf(s), Place(s, path).node)
  {
    PlaceFacts(s, path);
    CarriesIs(s, ForestOf(s), Place(s, path).node);
  }

  lemma StoredForest(s: Shape, f: Forest, path: seq<string>, n: nat)
    requires path != [] && Separate(s) && Place(s, path) != Empty && NodeAt(f, path) != Nil
    requires Carries(s, f, Place(s, path).node) && Place(s, path).node.list == Some(AddId(IdsAt(f, path), n))
    ensures ForestOf(s) == AddPath(f, path, n)
  {
    AddIsPut(f, path, n);
    PutForest(s, f, path, AddId(IdsAt(f, path), n));
  }

  // ---------------------------------------------------------------- walking a name

  /** get_next_field: one more field of the name, up to and with its '/'. */
  method NextField(str: string, start: nat) returns (more: bool, field: string, next: nat)
    requires start <= |str|
    ensures next <= |str| && (more <==> start < |str|)
    ensures more ==> next == FieldEnd(str, start) && field == str[start..next]
  {
    var p := start;
    while p < |str|
      invariant start <= p <= |str|
      invariant start < |str| && p < |str| ==> FieldEnd(str, start) == FieldEnd(str, p)
      invariant start < |str| && p == |str| ==> FieldEnd(str, start) == |str|
    {
      p := p + 1;
      if str[p - 1] == '/' {
        break;
      }
    }
    more, field, next := p != start, str[start..p], p;
  }

  /** `path` are the fields before `start`. */
  ghost predicate Parsed(name: string, start: nat, path: seq<string>)
  {
    start <= |name| && Fields(name) == path + FieldsFrom(name, start)
  }

  lemma FieldsSnoc(name: string, path: seq<string>, start: nat)
    requires start < |name| && Parsed(name, start, path)
    ensures var e := FieldEnd(name, start);
      && Parsed(name, e, path + [name[start..e]])
      && path < Fields(name) && Fields(name)[|path|] == name[start..e]
  {
  }

  /** The search along one sibling list. */
  method Search(start: PfNode?, prefix: string, ghost level: Shape) returns (n: PfNode?)
    requires Linked(level) && start == Head(level)
    ensures n == Head(PeerOf(level, prefix))
  {
    n := start;
    ghost var l := level;
    while n != null && n.prefix != prefix
      invariant Linked(l) && n == Head(l) && PeerOf(l, prefix) == PeerOf(level, prefix)
      decreases l
    {
      l := l.peer;
      n := n.peer;
    }
  }

  // ---------------------------------------------------------------- the tree

  lemma BeforePush(s: Shape, at: seq<string>, parent: PfNode?)
    requires Linked(s) && Separate(s)
    requires if at == [] then parent == null else Place(s, at) != Empty && parent == Place(s, at).node
    ensures LinkedBut(s, parent) && (parent != null ==> parent in Nodes(s) && parent.child == Head(Below(s, at)))
  {
    LinkedIsBut(s, parent);
    if at != [] {
      PlaceFacts(s, at);
    }
  }

  /** Everything that follows from pushing a node. */
  lemma Grown(s: Shape, at: seq<string>, node: PfNode, parent: PfNode?, path: seq<string>, n: nat) returns (s': Shape)
    requires Separate(s) && LinkedBut(s, parent) && node !in Nodes(s) && PeerOf(Below(s, at), node.prefix) == Empty
    requires if at == [] then parent !in Nodes(s)
      else Place(s, at) != Empty && parent == Place(s, at).node && parent.child == node
    requires node.child == null && node.peer == Head(Below(s, at)) && node.list == None
    requires at < path && path[|at|] == node.prefix
    ensures Nodes(s') == Nodes(s) + {node} && Separate(s')
    ensures Linked(s') && Head(s') == if at == [] then node else Head(s)
    ensures Place(s', at + [node.prefix]) != Empty && node == Place(s', at + [node.prefix]).node
    ensures Below(s', at + [node.prefix]) == Empty
    ensures AddPath(ForestOf(s'), path, n) == AddPath(ForestOf(s), path, n)
  {
    s' := Pushed(s, at, node);
    PushedNodes(s, at, node);
    PushedPlace(s, at, node);
    PushedLinked(s, at, node, parent);
    PushedSameAdd(s, at, node, path, n);
    PlaceFacts(s', at + [node.prefix]);
  }

  // ---------------------------------------------------------------- who owns which array

  ghost predicate Apart(a: DynArray?, b: DynArray?)
    reads a, b
  {
    a != null && b != null ==> a != b && a.arr != b.arr
  }

  /** The arrays of the nodes are good, distinct, and among `arrays` and `cells`. */
  ghost predicate ArraysOk(nodes: set<PfNode>, arrays: set<DynArray>, cells: set<array<nat>>)
    reads nodes`ids, nodes`list, arrays, cells
  {
    && (forall m :: m in nodes && m.ids != null ==> m.ids in arrays && m.ids.arr in cells)
    && (forall m :: m in nodes ==> m.Ok())
    && (forall m, k :: m in nodes && k in nodes && m != k ==> Apart(m.ids, k.ids))
  }

  lemma Detach(nodes: set<PfNode>, arrays: set<DynArray>, cells: set<array<nat>>, x: PfNode)
    requires ArraysOk(nodes, arrays, cells) && x in nodes
    ensures if x.ids == null then ArraysOk(nodes - {x}, arrays, cells)
            else ArraysOk(nodes - {x}, arrays - {x.ids}, cells - {x.ids.arr})
  {
    forall m | m in nodes && m != x && m.ids != null
      ensures x.ids != null ==> m.ids in arrays - {x.ids} && m.ids.arr in cells - {x.ids.arr}
    {
      assert Apart(m.ids, x.ids);
    }
  }

  lemma Attach(nodes: set<PfNode>, arrays: set<DynArray>, cells: set<array<nat>>, x: PfNode)
    requires ArraysOk(nodes - {x}, arrays, cells) && x.Ok()
    requires x.ids != null && x.ids !in arrays && x.ids.arr !in cells
    ensures ArraysOk(nodes + {x}, arrays + {x.ids}, cells + {x.ids.arr})
  {
  }

  lemma AttachBare(nodes: set<PfNode>, arrays: set<DynArray>, cells: set<array<nat>>, x: PfNode)
    requires ArraysOk(nodes, arrays, cells) && x.ids == null && x.list == None
    ensures ArraysOk(nodes + {x}, arrays, cells)
  {
  }

  /** The array pointer stands for these ids. */
  ghost predicate Holds(d: DynArray?, ids: Option<seq<nat>>)
    reads d, if d == null then {} else {d.arr}
  {
    (d == null <==> ids.None?) && (d != null ==> d.Valid() && d.Contents() == ids.value)
  }

  // ---------------------------------------------------------------- the tree

  /** What the heap of a tree stands for: its nodes in place, its value, and its footprint. `repr` holds all objects
      that have ever been part of the footprint. */
  datatype View = View(shape: Shape, forest: Forest, nodes: set<PfNode>, arrays: set<DynArray>, cells: set<array<nat>>,
                       repr: set<object>)

  class PrefixTree {
    var root: PfNode?
    /** The scratch array that every query fills anew. */
    var alPre: DynArray?
    ghost var view: View
    /** All objects that have ever been the scratch array or its cells. */
    ghost var scratch: set<object>

    ghost predicate LinksOk()
      reads this`root, this`view, view.nodes`child, view.nodes`peer
    {
      view.nodes == Nodes(view.shape) && root == Head(view.shape) && Separate(view.shape) && Linked(view.shape)
    }

    ghost predicate ForestOk()
      reads this`view, view.nodes`list
    {
      view.nodes == Nodes(view.shape) && view.forest == ForestOf(view.shape)
    }

    /** The scratch array is nobody else's. */
    ghost predicate ScratchOk()
      reads this`alPre, this`view, alPre, if alPre == null then {} else {alPre.arr}
    {
      alPre != null ==> alPre.Valid() && alPre !in view.arrays && alPre.arr !in view.cells
    }

    ghost predicate TreeOk()
      reads this`root, this`view, view.nodes, view.arrays, view.cells
    {
      LinksOk() && ForestOk() && ArraysOk(view.nodes, view.arrays, view.cells)
    }

    ghost predicate Covered()
      reads this`view
    {
      && (forall m {:trigger m in view.nodes} :: m in view.nodes ==> m in view.repr)
      && (forall a {:trigger a in view.arrays} :: a in view.arrays ==> a in view.repr)
      && (forall c {:trigger c in view.cells} :: c in view.cells ==> c in view.repr)
    }

    ghost predicate ScratchCovered()
      reads this`alPre, this`scratch, alPre
    {
      alPre != null ==> alPre in scratch && alPre.arr in scratch
    }

    ghost predicate Valid()
      reads this, view.nodes, view.arrays, view.cells, alPre, if alPre == null then {} else {alPre.arr}
    {
      TreeOk() && Covered() && ScratchOk() && ScratchCovered()
    }

    /** All that joins `repr` is new, and the scratch array is not concerned. */
    twostate predicate Extends()
      reads this`view, this`scratch
    {
      fresh(view.repr - old(view.repr)) && scratch == old(scratch)
    }

    /** Only new objects join the footprint. */
    twostate predicate Grows()
      reads this`view
    {
      && fresh(view.nodes - old(view.nodes)) && fresh(view.arrays - old(view.arrays))
      && fresh(view.cells - old(view.cells))
    }

    /** A removal may move an array's cells, and nothing else. */
    twostate predicate KeepsNodes()
      reads this`view
    {
      view.nodes == old(view.nodes) && view.arrays == old(view.arrays) && fresh(view.cells - old(view.cells))
    }

    /** Nothing but `news` joins it, and that is new. */
    twostate predicate Gains(new news: set<object>)
      reads this`view, this`scratch
    {
      && fresh(news) && scratch == old(scratch)
      && forall x {:trigger x in view.repr} :: x in view.repr ==> x in old(view.repr) || x in news
    }

    constructor ()
      ensures Valid() && view == View(Empty, Nil, {}, {}, {}, {}) && scratch == {}
    {
      root, alPre, view, scratch := null, null, View(Empty, Nil, {}, {}, {}, {}), {};
    }

    /** Where a walk stands that has followed `path`. */
    ghost predicate Stands(target: PfNode?, path: seq<string>)
      reads this
    {
      if path == [] then target == null else Place(view.shape, path) != Empty && target == Place(view.shape, path).node
    }

    /** A new node in front of the siblings below `target`, or of the top level if that is null. */
    method Link(target: PfNode?, prefix: string) returns (node: PfNode)
      modifies this`root, (if target == null then {} else {target})`child
      ensures fresh(node) && node.prefix == prefix && node.ids == null && node.child == null && node.list == None
      ensures node.peer == if target == null then old(root) else old(target.child)
      ensures root == if target == null then node else old(root)
      ensures target != null ==> target.child == node
    {
      node := new PfNode(prefix);
      if target == null {
        node.peer := root;
        root := node;
      } else {
        node.peer := target.child;
        target.child := node;
      }
    }

    /** Link, for a field on the way to `path` that has no node yet; `target` is the node of the field before it. */
    method LinkAt(target: PfNode?, prefix: string, ghost at: seq<string>, ghost here: seq<string>,
            ghost path: seq<string>, ghost n: nat)
      returns (node: PfNode)
      requires LinksOk() && ForestOk() && Stands(target, at) && PeerOf(Below(view.shape, at), prefix) == Empty
      requires at < path && path[|at|] == prefix && here == at + [prefix]
      modifies this`root, this`view, (if target == null then {} else {target})`child
      ensures LinksOk() && ForestOk() && fresh(node) && node.ids == null && node.list == None && node.child == null
      ensures view == old(view).(shape := view.shape, forest := view.forest, nodes := old(view.nodes) + {node})
      ensures Stands(node, here) && Below(view.shape, here) == Empty
      ensures AddPath(view.forest, path, n) == AddPath(old(view.forest), path, n)
    {
      ghost var s := view.shape;
      BeforePush(s, at, target);
      node := Link(target, prefix);
      ghost var s' := Grown(s, at, node, target, path, n);
      view := view.(shape := s', nodes := view.nodes + {node}, forest := ForestOf(s'));
    }

    /** LinkAt touches no array. */
    method LinkOn(target: PfNode?, prefix: string, ghost at: seq<string>, ghost here: seq<string>,
            ghost path: seq<string>, ghost n: nat)
      returns (node: PfNode)
      requires TreeOk() && Stands(target, at) && PeerOf(Below(view.shape, at), prefix) == Empty
      requires at < path && path[|at|] == prefix && here == at + [prefix]
      modifies this`root, this`view, (if target == null then {} else {target})`child
      ensures LinksOk() && ForestOk() && fresh(node) && node.ids == null && node.list == None && node.child == null
      ensures ArraysOk(old(view.nodes), old(view.arrays), old(view.cells))
      ensures view == old(view).(shape := view.shape, forest := view.forest, nodes := old(view.nodes) + {node})
      ensures Stands(node, here) && Below(view.shape, here) == Empty
      ensures AddPath(view.forest, path, n) == AddPath(old(view.forest), path, n)
    {
      node := LinkAt(target, prefix, at, here, path, n);
    }

    /** LinkAt for the whole tree. */
    method PushNode(target: PfNode?, prefix: string, ghost at: seq<string>, ghost here: seq<string>,
            ghost path: seq<string>, ghost n: nat)
      returns (node: PfNode)
      requires TreeOk() && Stands(target, at) && PeerOf(Below(view.shape, at), prefix) == Empty
      requires at < path && path[|at|] == prefix && here == at + [prefix]
      modifies this`root, this`view, (if target == null then {} else {target})`child
      ensures TreeOk() && fresh(view.nodes - old(view.nodes)) && node in view.nodes
      ensures view.arrays == old(view.arrays) && view.cells == old(view.cells)
      ensures view.repr == old(view.repr) && scratch == old(scratch)
      ensures Stands(node, here) && node.child == null && Below(view.shape, here) == Empty
      ensures AddPath(view.forest, path, n) == AddPath(old(view.forest), path, n)
    {
      ghost var v := view;
      node := LinkOn(target, prefix, at, here, path, n);
      AttachBare(v.nodes, v.arrays, v.cells, node);
    }

    /** The walk along `obj` is at `start`, below the node `target` of the fields so far. */
    ghost predicate Walking(obj: string, start: nat, target: PfNode?, curr: PfNode?, path: seq<string>)
      reads this
    {
      && Parsed(obj, start, path) && Stands(target, path) && (target == null || target in view.nodes)
      && curr == Head(Below(view.shape, path))
    }

    /** Splits off the next field and looks for its node. */
    method Step(obj: string, start: nat, target: PfNode?, curr: PfNode?, ghost path: seq<string>)
      returns (field: string, next: nat, node: PfNode?)
      requires TreeOk() && Walking(obj, start, target, curr, path) && start < |obj|
      ensures next == FieldEnd(obj, start) && field == obj[start..next] && Parsed(obj, next, path + [field])
      ensures path < Fields(obj) && Fields(obj)[|path|] == field
      ensures node == null <==> PeerOf(Below(view.shape, path), field) == Empty
      ensures node == null <==> Place(view.shape, path + [field]) == Empty
      ensures node != null ==> Walking(obj, next, node, node.child, path + [field])
    {
      var more;
      more, field, next := NextField(obj, start);
      FieldsSnoc(obj, path, start);
      BelowFacts(view.shape, path);
      PlaceSnoc(view.shape, path, field);
      PlaceFacts(view.shape, path + [field]);
      node := Search(curr, field, Below(view.shape, path));
    }

    /** One round of pft_add_obj: the node of the next field, made if it is missing. */
    method AddField(obj: string, start: nat, target: PfNode?, curr: PfNode?, ghost path: seq<string>, ghost n: nat)
      returns (next: nat, node: PfNode, ghost path': seq<string>)
      requires TreeOk() && Walking(obj, start, target, curr, path) && start < |obj|
      modifies this`root, this`view, view.nodes`child
      ensures TreeOk() && fresh(view.nodes - old(view.nodes))
      ensures view.arrays == old(view.arrays) && view.cells == old(view.cells)
      ensures view.repr == old(view.repr) && scratch == old(scratch)
      ensures next > start && path' != [] && Walking(obj, next, node, node.child, path')
      ensures AddPath(view.forest, Fields(obj), n) == AddPath(old(view.forest), Fields(obj), n)
    {
      var field, found;
      field, next, found := Step(obj, start, target, curr, path);
      path' := path + [field];
      if found == null {
        node := PushNode(target, field, path, path', Fields(obj), n);
      } else {
        node := found;
      }
    }

    /** The node of a name, with all nodes on the way to it. */
    method FindOrMake(obj: string, ghost nid: nat) returns (target: PfNode?)
      requires TreeOk() && obj != ""
      modifies this`root, this`view, view.nodes`child
      ensures TreeOk() && fresh(view.nodes - old(view.nodes))
      ensures view.arrays == old(view.arrays) && view.cells == old(view.cells)
      ensures view.repr == old(view.repr) && scratch == old(scratch)
      ensures Fields(obj) != [] && target in view.nodes && Stands(target, Fields(obj))
      ensures AddPath(view.forest, Fields(obj), nid) == AddPath(old(view.forest), Fields(obj), nid)
    {
      FieldsJoin(obj, 0);
      var start, curr := 0, root;
      ghost var path := [];
      target := null;
      while start < |obj|
        invariant TreeOk() && fresh(view.nodes - old(view.nodes))
        invariant view.arrays == old(view.arrays) && view.cells == old(view.cells)
        invariant view.repr == old(view.repr) && scratch == old(scratch)
        invariant Walking(obj, start, target, curr, path)
        invariant AddPath(view.forest, Fields(obj), nid) == AddPath(old(view.forest), Fields(obj), nid)
      {
        start, target, path := AddField(obj, start, target, curr, path, nid);
        curr := target.child;
      }
      assert path + [] == path;
    }

    method AddToTree(obj: string, nid: nat)
      requires TreeOk() && obj != ""
      modifies this`root, this`view, view.nodes, view.arrays, view.cells
      ensures TreeOk() && Grows() && view.repr == old(view.repr) && scratch == old(scratch)
      ensures Fields(obj) != [] && view.forest == AddPath(old(view.forest), Fields(obj), nid)
    {
      hide TreeOk;
      var target := FindOrMake(obj, nid);
      StoreAt(target, nid, Fields(obj));
    }

    /** AddToTree, with the objects that are new. */
    method AddCovered(obj: string, nid: nat)
      requires TreeOk() && Covered() && obj != ""
      modifies this`root, this`view, view.nodes, view.arrays, view.cells
      ensures TreeOk() && Covered() && Grows() && Extends()
      ensures Fields(obj) != [] && view.forest == AddPath(old(view.forest), Fields(obj), nid)
    {
      AddToTree(obj, nid);
      Cover();
    }

    /** pft_add_obj. */
    method Add(obj: string, nid: nat)
      requires Valid() && obj != ""
      modifies this`root, this`view, view.nodes, view.arrays, view.cells
      ensures Valid() && Grows() && Extends()
      ensures Fields(obj) != [] && view.forest == AddPath(old(view.forest), Fields(obj), nid)
    {
      AddCovered(obj, nid);
    }

    /** The present footprint joins `repr`. */
    ghost method Cover()
      requires TreeOk()
      modifies this`view
      ensures TreeOk() && Covered()
      ensures view == old(view).(repr := old(view.repr) + old(view.nodes) + old(view.arrays) + old(view.cells))
    {
      view := view.(repr := view.repr + view.nodes + view.arrays + view.cells);
    }

    /** Stores an id at one node; the other nodes keep their arrays. */
    method StoreApart(target: PfNode, nid: nat, ghost v: View)
      returns (ghost arrays: set<DynArray>, ghost cells: set<array<nat>>)
      requires target in v.nodes && ArraysOk(v.nodes, v.arrays, v.cells)
      modifies target`ids, target`list, v.arrays, v.cells
      ensures target.list == Some(AddId(old(target.list), nid)) && ArraysOk(v.nodes, arrays, cells)
      ensures fresh(arrays - v.arrays) && fresh(cells - v.cells)
    {
      arrays, cells := v.arrays, v.cells;
      if target.ids != null {
        arrays, cells := arrays - {target.ids}, cells - {target.ids.arr};
      }
      Detach(v.nodes, v.arrays, v.cells, target);
      target.StoreId(nid);
      assert target.ids !in arrays && target.ids.arr !in cells;
      Attach(v.nodes, arrays, cells, target);
      assert v.nodes + {target} == v.nodes;
      arrays, cells := arrays + {target.ids}, cells + {target.ids.arr};
    }

    /** Nothing of that concerns the links. */
    method StoreId(target: PfNode, nid: nat) returns (ghost arrays: set<DynArray>, ghost cells: set<array<nat>>)
      requires target in view.nodes && ArraysOk(view.nodes, view.arrays, view.cells)
      requires LinksOk() && Carries(view.shape, view.forest, target)
      modifies target`ids, target`list, view.arrays, view.cells
      ensures target.list == Some(AddId(old(target.list), nid)) && ArraysOk(view.nodes, arrays, cells)
      ensures fresh(arrays - view.arrays) && fresh(cells - view.cells)
      ensures LinksOk() && Carries(view.shape, view.forest, target)
    {
      arrays, cells := StoreApart(target, nid, view);
    }

    /** Stores an id at the node of `path`. */
    method StoreAt(target: PfNode, nid: nat, ghost path: seq<string>)
      requires TreeOk() && path != [] && Stands(target, path) && target in view.nodes
      modifies this`view, target`ids, target`list, view.arrays, view.cells
      ensures TreeOk() && view.nodes == old(view.nodes) && view.repr == old(view.repr) && scratch == old(scratch)
      ensures fresh(view.arrays - old(view.arrays)) && fresh(view.cells - old(view.cells))
      ensures view.forest == AddPath(old(view.forest), path, nid)
    {
      BeforeStore(view.shape, path);
      ghost var arrays, cells := StoreId(target, nid);
      StoredForest(view.shape, view.forest, path, nid);
      view := view.(forest := ForestOf(view.shape), arrays := arrays, cells := cells);
    }

    /** Takes an id out of one node's array; the other nodes keep theirs. */
    method RemoveApart(target: PfNode, nid: nat, ghost v: View) returns (ghost cells: set<array<nat>>)
      requires target in v.nodes && target.ids != null && ArraysOk(v.nodes, v.arrays, v.cells)
      modifies target`list, v.arrays, v.cells
      ensures target.list == Some(Forests.RemoveId(old(target.list).value, nid))
      ensures ArraysOk(v.nodes, v.arrays, cells) && fresh(cells - v.cells)
    {
      Detach(v.nodes, v.arrays, v.cells, target);
      cells := v.cells - {target.ids.arr};
      target.RemoveId(nid);
      Attach(v.nodes, v.arrays - {target.ids}, cells, target);
      assert v.nodes + {target} == v.nodes && v.arrays - {target.ids} + {target.ids} == v.arrays;
      cells := cells + {target.ids.arr};
    }

    /** Nothing of that concerns the links. */
    method RemoveId(target: PfNode, nid: nat) returns (ghost cells: set<array<nat>>)
      requires target in view.nodes && target.ids != null && ArraysOk(view.nodes, view.arrays, view.cells)
      requires LinksOk() && Carries(view.shape, view.forest, target)
      modifies target`list, view.arrays, view.cells
      ensures target.list == Some(Forests.RemoveId(old(target.list).value, nid))
      ensures ArraysOk(view.nodes, view.arrays, cells) && fresh(cells - view.cells)
      ensures LinksOk() && Carries(view.shape, view.forest, target)
    {
      cells := RemoveApart(target, nid, view);
    }

    /** The node of a whole name, if there is one. */
    method Locate(obj: string) returns (target: PfNode?)
      requires TreeOk()
      ensures target == if Fields(obj) == [] then null else Head(Place(view.shape, Fields(obj)))
    {
      var start, curr := 0, root;
      ghost var path: seq<string> := [];
      target := null;
      while start < |obj|
        invariant Walking(obj, start, target, curr, path)
      {
        var field, next, node := Step(obj, start, target, curr, path);
        path := path + [field];
        if node == null {
          PlacePrefix(view.shape, path, Fields(obj));
          return null;
        }
        start, target, curr := next, node, node.child;
      }
      assert path + [] == path;
    }

    /** Takes an id out of the array at the node of `path`. */
    method RemoveAt(target: PfNode, nid: nat, ghost path: seq<string>)
      requires TreeOk() && path != [] && Stands(target, path) && target in view.nodes && target.ids != null
      modifies this`view, target`list, view.arrays, view.cells
      ensures TreeOk() && KeepsNodes() && view.repr == old(view.repr) && scratch == old(scratch)
      ensures view.forest == RmPath(old(view.forest), path, nid)
    {
      BeforeStore(view.shape, path);
      ghost var cells := RemoveId(target, nid);
      RemovedForest(view.shape, view.forest, path, nid);
      view := view.(forest := ForestOf(view.shape), cells := cells);
    }

    /** RemoveAt, with the cells that the array may have moved to. */
    method RemoveCovered(target: PfNode, nid: nat, ghost path: seq<string>)
      requires TreeOk() && Covered() && path != [] && Stands(target, path) && target in view.nodes && target.ids != null
      modifies this`view, target`list, view.arrays, view.cells
      ensures TreeOk() && Covered() && KeepsNodes() && Extends()
      ensures view.forest == RmPath(old(view.forest), path, nid)
    {
      RemoveAt(target, nid, path);
      Cover();
    }

    /** pft_rm_obj, but for the scratch array. */
    method RmFromTree(obj: string, nid: nat) returns (crash: bool)
      requires TreeOk() && Covered()
      modifies this`view, view.nodes`list, view.arrays, view.cells
      ensures TreeOk() && Covered() && KeepsNodes() && Extends()
      ensures crash <==>
        Fields(obj) != [] && NodeAt(old(view.forest), Fields(obj)) != Nil && IdsAt(old(view.forest), Fields(obj)).None?
      ensures view.forest == if Fields(obj) == [] then old(view.forest) else RmPath(old(view.forest), Fields(obj), nid)
    {
      var target := Locate(obj);
      RmCases(view.shape, Fields(obj), nid);
      crash := target != null && target.ids == null;
      if target != null && target.ids != null {
        RemoveCovered(target, nid, Fields(obj));
      }
    }

    /** pft_rm_obj. A node without an array on that name makes it follow a null pointer. */
    method Rm(obj: string, nid: nat) returns (crash: bool)
      requires Valid()
      modifies this`view, view.nodes`list, view.arrays, view.cells
      ensures Valid() && KeepsNodes() && Extends()
      ensures crash <==>
        Fields(obj) != [] && NodeAt(old(view.forest), Fields(obj)) != Nil && IdsAt(old(view.forest), Fields(obj)).None?
      ensures view.forest == if Fields(obj) == [] then old(view.forest) else RmPath(old(view.forest), Fields(obj), nid)
    {
      crash := RmFromTree(obj, nid);
    }

    /** The scratch array, made by the first query, emptied. */
    method ClearScratch()
      requires ScratchOk()
      modifies this`alPre, (if alPre == null then {} else {alPre})`currElem
      ensures ScratchOk() && alPre != null && alPre.Contents() == []
      ensures if old(alPre) == null then fresh(alPre) && fresh(alPre.arr)
        else alPre == old(alPre) && alPre.arr == old(alPre.arr)
    {
      if alPre == null {
        alPre := new DynArray();
      }
      alPre.Truncate(0);
    }

    /** What a query walk has found so far. */
    ghost predicate Gathered(w: Walk, target: PfNode?, lastPre: DynArray?)
      reads this, view.nodes`list, view.nodes`ids, view.arrays, alPre, if alPre == null then {} else {alPre.arr},
        lastPre, if lastPre == null then {} else {lastPre.arr}
    {
      && alPre != null && ScratchOk() && alPre.Contents() == w.all
      && (if target == null then w == Walk(Nil, None, []) && lastPre == null
          else
            && target in view.nodes && w.target.Branch? && w.target.ids == target.list
            && |IdList(target.list)| <= |w.all|)
      && (lastPre != null ==> lastPre in view.arrays) && Holds(lastPre, w.last)
    }

    /** The node's array joins the scratch array, and is the last prefix, unless it is empty. */
    method Collect(node: PfNode, target: PfNode?, lastPre: DynArray?, ghost w: Walk,
            ghost m: Forest) returns (last: DynArray?)
      requires node in view.nodes && TreeOk() && m.Branch? && m.ids == node.list
      requires Gathered(w, target, lastPre)
      modifies alPre, alPre.arr
      ensures TreeOk()
      ensures Gathered(Taken(w, m), node, last) && (alPre.arr == old(alPre.arr) || fresh(alPre.arr))
    {
      last := lastPre;
      if node.ids != null && node.ids.currElem != 0 {
        alPre.Merge(node.ids);
        last := node.ids;
      }
    }

    /** One round of a query: the next field's node and what it adds, or null where the walk ends. */
    method Visit(obj: string, start: nat, target: PfNode?, curr: PfNode?, lastPre: DynArray?,
            ghost path: seq<string>, ghost w: Walk)
      returns (next: nat, node: PfNode?, last: DynArray?, ghost path': seq<string>, ghost w': Walk)
      requires TreeOk()
      requires Walking(obj, start, target, curr, path) && start < |obj| && Gathered(w, target, lastPre)
      modifies alPre, alPre.arr
      ensures TreeOk() && (alPre.arr == old(alPre.arr) || fresh(alPre.arr))
      ensures node == null ==> Gathered(w, target, lastPre) && Rest(view.forest, obj, path, start, w) == w
      ensures node != null ==> next > start && Walking(obj, next, node, node.child, path') && Gathered(w', node, last)
      ensures node != null ==> Rest(view.forest, obj, path, start, w) == Rest(view.forest, obj, path', next, w')
    {
      RestStep(view.shape, obj, path, start, w);
      var field;
      field, next, node := Step(obj, start, target, curr, path);
      path', w', last := path + [field], w, lastPre;
      if node != null {
        last := Collect(node, target, lastPre, w, NodeAt(view.forest, path'));
        w' := Taken(w, NodeAt(view.forest, path'));
      }
    }

    /** The walk of a query: down along the name as far as there are nodes. */
    method Gather(obj: string) returns (target: PfNode?, lastPre: DynArray?, ghost w: Walk)
      requires TreeOk() && ScratchOk() && alPre != null && alPre.Contents() == []
      modifies alPre, alPre.arr
      ensures TreeOk()
      ensures w == Descend(view.forest, Fields(obj), Walk(Nil, None, []))
      ensures Gathered(w, target, lastPre) && (alPre.arr == old(alPre.arr) || fresh(alPre.arr))
    {
      w := Walk(Nil, None, []);
      target, lastPre := null, null;
      var start, curr := 0, root;
      ghost var path: seq<string> := [];
      while start < |obj|
        invariant TreeOk()
        invariant Walking(obj, start, target, curr, path)
        invariant Gathered(w, target, lastPre) && (alPre.arr == old(alPre.arr) || fresh(alPre.arr))
        invariant Rest(view.forest, obj, path, start, w) == Descend(view.forest, Fields(obj), Walk(Nil, None, []))
      {
        var next, node, last;
        ghost var path', w';
        next, node, last, path', w' := Visit(obj, start, target, curr, lastPre, path, w);
        if node == null {
          break;
        }
        start, target, curr, lastPre, path, w := next, node, node.child, last, path', w';
      }
    }

    /** What pft_get_obj_list returns: the matched node's own ids go from the end of the scratch array again. */
    method Conclude(target: PfNode?, lastPre: DynArray?, ghost w: Walk) returns (crash: bool, list: DynArray?,
            allPre: DynArray?)
      requires TreeOk() && Gathered(w, target, lastPre)
      modifies alPre`currElem
      ensures TreeOk() && ScratchOk() && alPre.arr == old(alPre.arr)
      ensures Answers(AnswerOf(w), crash, list, lastPre, allPre)
    {
      crash, list, allPre := false, null, null;
      if target != null {
        list := target.ids;
        if alPre.currElem > 0 {
          if target.ids == null {
            crash := true;
          } else {
            alPre.Truncate(alPre.currElem - target.ids.currElem);
          }
        }
        allPre := alPre;
      }
    }

    /** The answer of a query, in the tree's own arrays. */
    method Ask(obj: string) returns (crash: bool, list: DynArray?, lastPre: DynArray?, allPre: DynArray?)
      requires TreeOk() && ScratchOk()
      modifies this`alPre, (if alPre == null then {} else {alPre}), (if alPre == null then {} else {alPre.arr})
      ensures TreeOk() && ScratchOk() && Answers(Query(view.forest, obj), crash, list, lastPre, allPre)
      ensures alPre != null && (alPre == old(alPre) || fresh(alPre))
      ensures fresh(alPre.arr) || (old(alPre) != null && alPre.arr == old(alPre.arr))
    {
      ClearScratch();
      var target;
      ghost var w;
      target, lastPre, w := Gather(obj);
      crash, list, allPre := Conclude(target, lastPre, w);
    }

    /** pft_get_obj_list. */
    method GetObjList(obj: string) returns (crash: bool, list: DynArray?, lastPre: DynArray?, allPre: DynArray?)
      requires Valid()
      modifies this`alPre, this`scratch
      modifies (if alPre == null then {} else {alPre}), (if alPre == null then {} else {alPre.arr})
      ensures Valid() && view == old(view) && Answers(Query(view.forest, obj), crash, list, lastPre, allPre)
      ensures fresh(scratch - old(scratch))
    {
      hide TreeOk, Covered;
      crash, list, lastPre, allPre := Ask(obj);
      CoverScratch();
    }

    /** The scratch array joins `scratch`. */
    ghost method CoverScratch()
      requires TreeOk() && Covered() && ScratchOk() && alPre != null
      modifies this`scratch
      ensures Valid() && scratch == old(scratch) + {alPre, alPre.arr}
    {
      scratch := scratch + {alPre, alPre.arr};
    }
  }

  ghost predicate Answers(a: Answer, crash: bool, list: DynArray?, lastPre: DynArray?, allPre: DynArray?)
    reads list, if list == null then {} else {list.arr}, lastPre, if lastPre == null then {} else {lastPre.arr}
    reads allPre, if allPre == null then {} else {allPre.arr}
  {
    match a
    case NoMatch => !crash && list == null && lastPre == null && allPre == null
    case Crash => crash
    case Found(ids, l, all) => !crash && Holds(list, ids) && Holds(lastPre, l) && Holds(allPre, Some(all))
  }
}
