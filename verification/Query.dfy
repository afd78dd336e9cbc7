/** Longest-prefix queries on the forest (src/pft.c:132-201). */
module Queries {
  import opened HashTables
  import opened Forests

  /** The three outcomes of pft_get_obj_list: no node on the path, a null pointer is followed, or an answer. */
  datatype Answer = NoMatch | Crash | Found(ids: Option<seq<nat>>, lastPre: Option<seq<nat>>, allPre: seq<nat>)

  ghost function IdList(ids: Option<seq<nat>>): seq<nat>
  {
    if ids.None? then [] else ids.value
  }

  /** Where the walk along `fields` stops, with what it has collected. */
  datatype Walk = Walk(target: Forest, last: Option<seq<nat>>, all: seq<nat>)

  ghost function Descend(f: Forest, fields: seq<string>, w: Walk): Walk
    decreases fields
  {
    if fields == [] || FindPeer(f, fields[0]) == Nil then w
    else
      var m := FindPeer(f, fields[0]);
      Descend(m.child, fields[1..], Walk(m, if IdList(m.ids) != [] then m.ids else w.last, w.all + IdList(m.ids)))
  }

  ghost function AnswerOf(w: Walk): Answer
  {
    if w.target == Nil then NoMatch
    else if w.all != [] && w.target.ids.None? then Crash
    else Found(w.target.ids, w.last,
               if |IdList(w.target.ids)| <= |w.all| then w.all[..|w.all| - |IdList(w.target.ids)|] else w.all)
  }

  ghost function Query(f: Forest, name: string): Answer
  {
    AnswerOf(Descend(f, Fields(name), Walk(Nil, None, [])))
  }

  // ---------------------------------------------------------------- meaning

  /** How many leading fields have a node. */
  ghost function Depth(f: Forest, fields: seq<string>): (d: nat)
    ensures d <= |fields|
    decreases fields
  {
    if fields == [] || FindPeer(f, fields[0]) == Nil then 0
    else 1 + Depth(FindPeer(f, fields[0]).child, fields[1..])
  }

  /** The arrays of the first k levels, one after the other. */
  ghost function Cover(f: Forest, fields: seq<string>, k: nat): seq<nat>
    requires k <= |fields|
  {
    if k == 0 then [] else Cover(f, fields, k - 1) + IdList(IdsAt(f, fields[..k]))
  }

  /** The array of the deepest of the first k levels whose array is not empty. */
  ghost function LastFull(f: Forest, fields: seq<string>, k: nat): Option<seq<nat>>
    requires k <= |fields|
  {
    if k == 0 then None
    else if IdList(IdsAt(f, fields[..k])) != [] then IdsAt(f, fields[..k])
    else LastFull(f, fields, k - 1)
  }

  /** The node of depth `Depth` is the deepest one whose path is a level prefix of the name. */
  lemma {:induction false} DepthLaw(f: Forest, fields: seq<string>, k: nat)
    requires 1 <= k <= |fields|
    ensures NodeAt(f, fields[..k]) != Nil <==> k <= Depth(f, fields)
    decreases fields
  {
    var m := FindPeer(f, fields[0]);
    assert fields[..k][0] == fields[0] && fields[..k][1..] == fields[1..][..k - 1];
    if m != Nil && k > 1 {
      DepthLaw(m.child, fields[1..], k - 1);
    }
  }

  lemma BelowPeer(f: Forest, fields: seq<string>, k: nat)
    requires 1 < k <= |fields| && FindPeer(f, fields[0]) != Nil
    ensures NodeAt(f, fields[..k]) == NodeAt(FindPeer(f, fields[0]).child, fields[1..][..k - 1])
  {
    assert fields[..k][0] == fields[0] && fields[..k][1..] == fields[1..][..k - 1];
  }

  lemma {:induction false} CoverShift(f: Forest, fields: seq<string>, k: nat)
    requires 1 <= k <= |fields| && FindPeer(f, fields[0]) != Nil
    ensures var m := FindPeer(f, fields[0]);
      && Cover(f, fields, k) == IdList(m.ids) + Cover(m.child, fields[1..], k - 1)
      && LastFull(f, fields, k) ==
        if LastFull(m.child, fields[1..], k - 1).Some? then LastFull(m.child, fields[1..], k - 1)
                                   else if IdList(m.ids) != [] then m.ids else None
  {
    if k == 1 {
      assert fields[..1][0] == fields[0];
    } else {
      var m := FindPeer(f, fields[0]);
      var here, rest := IdsAt(f, fields[..k]), Cover(m.child, fields[1..], k - 2);
      CoverShift(f, fields, k - 1);
      BelowPeer(f, fields, k);
      assert IdsAt(m.child, fields[1..][..k - 1]) == here;
      assert (IdList(m.ids) + rest) + IdList(here) == IdList(m.ids) + (rest + IdList(here));
    }
  }

  lemma {:induction false} LastFullSome(f: Forest, fields: seq<string>, k: nat)
    requires k <= |fields|
    ensures LastFull(f, fields, k).Some? <==> Cover(f, fields, k) != []
  {
    if k > 0 {
      LastFullSome(f, fields, k - 1);
    }
  }

  lemma {:induction false} DescendTarget(f: Forest, fields: seq<string>, w: Walk)
    ensures var d := Depth(f, fields);
      Descend(f, fields, w).target == if d == 0 then w.target else NodeAt(f, fields[..d])
    decreases fields
  {
    if fields != [] && FindPeer(f, fields[0]) != Nil {
      var m, d := FindPeer(f, fields[0]), Depth(f, fields);
      var last := if IdList(m.ids) != [] then m.ids else w.last;
      DescendTarget(m.child, fields[1..], Walk(m, last, w.all + IdList(m.ids)));
      if d > 1 {
        BelowPeer(f, fields, d);
      } else {
        assert fields[..1][0] == fields[0];
      }
    }
  }

  lemma {:induction false} DescendCover(f: Forest, fields: seq<string>, w: Walk)
    ensures var d, r := Depth(f, fields), Descend(f, fields, w);
      && r.all == w.all + Cover(f, fields, d)
      && r.last == if LastFull(f, fields, d).Some? then LastFull(f, fields, d) else w.last
    decreases fields
  {
    if fields == [] || FindPeer(f, fields[0]) == Nil {
      assert w.all + [] == w.all;
    } else {
      var m, d := FindPeer(f, fields[0]), Depth(f, fields);
      var rest := Cover(m.child, fields[1..], d - 1);
      DescendCover(m.child, fields[1..], Walk(m, if IdList(m.ids) != [] then m.ids else w.last, w.all + IdList(m.ids)));
      CoverShift(f, fields, d);
      assert (w.all + IdList(m.ids)) + rest == w.all + (IdList(m.ids) + rest);
    }
  }

  /** The answer for a name whose deepest node is d levels down: the ids of that node, the array of the deepest
      non-empty level as last prefix (the node itself if its array is not empty), and exactly the arrays of its
      proper ancestors as all prefixes. A null pointer is followed exactly when that node has no array while an
      ancestor's array is not empty. */
  ghost function AnswerAt(f: Forest, fields: seq<string>, d: nat): Answer
    requires 1 <= d <= |fields|
  {
    if IdsAt(f, fields[..d]).None? && Cover(f, fields, d - 1) != [] then Crash
    else Found(IdsAt(f, fields[..d]), LastFull(f, fields, d), Cover(f, fields, d - 1))
  }

  /** A query reaches the deepest node whose path is a level prefix of the name, and answers for it. */
  lemma QueryLaw(f: Forest, name: string)
    ensures var fields := Fields(name); var d := Depth(f, fields);
      Query(f, name) == if d == 0 then NoMatch else AnswerAt(f, fields, d)
  {
    var fields := Fields(name);
    var d := Depth(f, fields);
    DescendTarget(f, fields, Walk(Nil, None, []));
    DescendCover(f, fields, Walk(Nil, None, []));
    if d > 0 {
      DepthLaw(f, fields, d);
      assert Cover(f, fields, d) == Cover(f, fields, d - 1) + IdList(IdsAt(f, fields[..d]));
      var r := Descend(f, fields, Walk(Nil, None, []));
      assert r.all == Cover(f, fields, d);
      LastFullSome(f, fields, d);
    }
  }

  lemma {:induction false} CoverEmpty(f: Forest, fields: seq<string>, k: nat)
    requires k <= |fields|
    ensures Cover(f, fields, k) == [] <==> forall j :: 1 <= j <= k ==> IdList(IdsAt(f, fields[..j])) == []
  {
    if k > 0 {
      CoverEmpty(f, fields, k - 1);
    }
  }

  /** A query follows a null pointer exactly if the deepest node on the path has no array and one above it has ids. */
  lemma CrashExactly(f: Forest, name: string)
    ensures var fields := Fields(name); var d := Depth(f, fields);
      Query(f, name) == Crash <==>
      d > 0 && IdsAt(f, fields[..d]).None? && exists j :: 1 <= j < d && IdList(IdsAt(f, fields[..j])) != []
  {
    QueryLaw(f, name);
    var d := Depth(f, Fields(name));
    if d > 0 {
      CoverEmpty(f, Fields(name), d - 1);
    }
  }

  /** Such a query: node 1 holds "a/", node 2 holds "a/b/c", and "a/b/" is asked for. */
  lemma CrashHappens()
    ensures Query(AddPath(AddPath(Nil, Fields("a/"), 1), Fields("a/b/c"), 2), "a/b/") == Crash
  {
    ThreeFields();
    CrashTree();
    var deep := Branch("b/", None, Branch("c", Some([2]), Nil, Nil), Nil);
    assert ["a/", "b/"][1..] == ["b/"];
    assert Descend(deep, ["b/"], Walk(Branch("a/", Some([1]), deep, Nil), Some([1]), [1])).target == deep;
  }

  lemma CrashTree()
    ensures var deep := Branch("b/", None, Branch("c", Some([2]), Nil, Nil), Nil);
      AddPath(AddPath(Nil, ["a/"], 1), ["a/", "b/", "c"], 2) == Branch("a/", Some([1]), deep, Nil)
  {
    var deep := Branch("b/", None, Branch("c", Some([2]), Nil, Nil), Nil);
    assert AddPath(Nil, ["a/"], 1) == Branch("a/", Some([1]), Nil, Nil);
    assert ["a/", "b/", "c"][1..] == ["b/", "c"] && ["b/", "c"][1..] == ["c"];
    assert AddPath(Nil, ["b/", "c"], 2) == deep;
  }

  lemma ThreeFields()
    ensures Fields("a/") == ["a/"] && Fields("a/b/c") == ["a/", "b/", "c"] && Fields("a/b/") == ["a/", "b/"]
  {
    var s := "a/b/c";
    assert s[0..2] == "a/" && s[2..4] == "b/" && s[4..5] == "c";
    assert FieldsFrom(s, 4) == ["c"] && FieldsFrom(s, 2) == ["b/"] + FieldsFrom(s, 4);
    var t := "a/b/";
    assert t[0..2] == "a/" && t[2..4] == "b/";
    assert FieldsFrom(t, 2) == ["b/"];
    var u := "a/";
    assert u[0..2] == "a/";
  }

  // ---------------------------------------------------------------- the forest as a map

  /** The forest holds exactly this map from object names to id sets, and no nodes but those on the way. */
  ghost predicate Represents(f: Forest, dir: map<string, set<nat>>)
  {
    && Proper(f) && "" !in dir
    && (forall o :: o in dir ==> Fields(o) != [])
    && (forall o :: o != "" ==> HoldsAt(f, dir, o))
    && (forall p: seq<string> {:trigger NodeAt(f, p)} :: p != [] ==> (NodeAt(f, p) != Nil <==> Leads(dir, p)))
  }

  ghost predicate HoldsAt(f: Forest, dir: map<string, set<nat>>, o: string)
    requires o != ""
  {
    FieldsJoin(o, 0);
    && (o in dir <==> IdsAt(f, Fields(o)).Some?)
    && (o in dir ==> dir[o] == IdSet(IdsAt(f, Fields(o))))
  }

  /** Some object of the map lies at the path or below it. */
  ghost predicate Leads(dir: map<string, set<nat>>, p: seq<string>)
  {
    exists o :: o in dir && p <= Fields(o)
  }

  /** Every leading part of a field list is the field list of a name. */
  lemma {:induction false} PrefixIsName(name: string, i: nat, k: nat) returns (e: nat)
    requires i <= |name| && k <= |FieldsFrom(name, i)|
    ensures i <= e <= |name| && FieldsFrom(name[..e], i) == FieldsFrom(name, i)[..k]
    ensures k > 0 ==> i < e
    decreases k
  {
    if k == 0 {
      e := i;
    } else {
      var j := FieldEnd(name, i);
      e := PrefixIsName(name, j, k - 1);
      FieldEndPrefix(name, i, e);
      assert name[..e][i..j] == name[i..j];
    }
  }

  lemma {:induction false} FieldEndPrefix(name: string, i: nat, e: nat)
    requires i < |name| && FieldEnd(name, i) <= e <= |name|
    ensures FieldEnd(name[..e], i) == FieldEnd(name, i)
    decreases |name| - i
  {
    if name[i] != '/' && i + 1 < |name| {
      FieldEndPrefix(name, i + 1, e);
    }
  }

  /** Two forests that represent the same map have the same levels and id sets along every name. */
  lemma SameLevels(f: Forest, g: Forest, dir: map<string, set<nat>>, name: string, k: nat)
    requires Represents(f, dir) && Represents(g, dir) && 1 <= k <= |Fields(name)|
    ensures NodeAt(f, Fields(name)[..k]) == Nil <==> NodeAt(g, Fields(name)[..k]) == Nil
    ensures IdsAt(f, Fields(name)[..k]).Some? <==> IdsAt(g, Fields(name)[..k]).Some?
    ensures IdSet(IdsAt(f, Fields(name)[..k])) == IdSet(IdsAt(g, Fields(name)[..k]))
  {
    var e := PrefixIsName(name, 0, k);
    var o := name[..e];
    assert Fields(o) == Fields(name)[..k] && o != "";
    assert HoldsAt(f, dir, o) && HoldsAt(g, dir, o);
    assert NodeAt(f, Fields(o)) != Nil <==> Leads(dir, Fields(o));
    assert NodeAt(g, Fields(o)) != Nil <==> Leads(dir, Fields(o));
  }

  lemma SameDepthAt(f: Forest, g: Forest, dir: map<string, set<nat>>, name: string, k: nat)
    requires Represents(f, dir) && Represents(g, dir) && 1 <= k <= |Fields(name)|
    ensures k <= Depth(f, Fields(name)) <==> k <= Depth(g, Fields(name))
  {
    DepthLaw(f, Fields(name), k);
    DepthLaw(g, Fields(name), k);
    SameLevels(f, g, dir, name, k);
  }

  lemma SameDepth(f: Forest, g: Forest, dir: map<string, set<nat>>, name: string)
    requires Represents(f, dir) && Represents(g, dir)
    ensures Depth(f, Fields(name)) == Depth(g, Fields(name))
  {
    var a, b := Depth(f, Fields(name)), Depth(g, Fields(name));
    if a >= 1 {
      SameDepthAt(f, g, dir, name, a);
    }
    if b >= 1 {
      SameDepthAt(f, g, dir, name, b);
    }
  }

  ghost function SetOf(s: seq<nat>): set<nat>
  {
    set x | x in s
  }

  lemma {:induction false} SameCover(f: Forest, g: Forest, dir: map<string, set<nat>>, name: string, k: nat)
    requires Represents(f, dir) && Represents(g, dir) && k <= |Fields(name)|
    ensures SetOf(Cover(f, Fields(name), k)) == SetOf(Cover(g, Fields(name), k))
    ensures Cover(f, Fields(name), k) == [] <==> Cover(g, Fields(name), k) == []
    ensures LastFull(f, Fields(name), k).Some? <==> LastFull(g, Fields(name), k).Some?
    ensures IdSet(LastFull(f, Fields(name), k)) == IdSet(LastFull(g, Fields(name), k))
  {
    if k > 0 {
      SameCover(f, g, dir, name, k - 1);
      SameLevels(f, g, dir, name, k);
      var a, b := IdsAt(f, Fields(name)[..k]), IdsAt(g, Fields(name)[..k]);
      assert SetOf(IdList(a)) == IdSet(a) && SetOf(IdList(b)) == IdSet(b);
      EmptyList(IdList(a));
      EmptyList(IdList(b));
      SetOfAppend(Cover(f, Fields(name), k - 1), IdList(a));
      SetOfAppend(Cover(g, Fields(name), k - 1), IdList(b));
    }
  }

  /** The directory leads to n for one of the first k levels of the name. */
  ghost predicate LeadsWithin(dir: map<string, set<nat>>, name: string, k: nat, n: nat)
    requires k <= |Fields(name)|
  {
    exists p :: p in dir && n in dir[p] && Fields(p) <= Fields(name)[..k]
  }

  /** Those are the ids that a query collects on the way. */
  lemma {:induction false} CoverWithin(f: Forest, dir: map<string, set<nat>>, name: string, k: nat, n: nat)
    requires Represents(f, dir) && k <= |Fields(name)|
    ensures n in Cover(f, Fields(name), k) <==> LeadsWithin(dir, name, k, n)
  {
    if k > 0 {
      var fields := Fields(name);
      CoverWithin(f, dir, name, k - 1, n);
      assert fields[..k - 1] <= fields[..k];
      var e := PrefixIsName(name, 0, k);
      var o := name[..e];
      assert Fields(o) == fields[..k] && HoldsAt(f, dir, o);
      if LeadsWithin(dir, name, k, n) && !LeadsWithin(dir, name, k - 1, n) {
        var p :| p in dir && n in dir[p] && Fields(p) <= fields[..k];
        LastLevel(Fields(p), fields, k);
        FieldsInjective(p, o);
      }
    }
  }

  /** The names of the directory that make up the first k fields of `name`; there is one of them or none. */
  ghost predicate LevelName(dir: map<string, set<nat>>, name: string, k: nat, p: string)
  {
    k <= |Fields(name)| && p in dir && Fields(p) == Fields(name)[..k]
  }

  /** Level k is the deepest one that leads to anything. */
  ghost predicate Deepest(dir: map<string, set<nat>>, name: string, k: nat)
  {
    && 1 <= k <= |Fields(name)| && Leads(dir, Fields(name)[..k])
    && (k < |Fields(name)| ==> !Leads(dir, Fields(name)[..k + 1]))
  }

  lemma LevelIds(f: Forest, dir: map<string, set<nat>>, name: string, k: nat, p: string)
    requires Represents(f, dir) && 1 <= k && LevelName(dir, name, k, p)
    ensures IdsAt(f, Fields(name)[..k]).Some? && IdSet(IdsAt(f, Fields(name)[..k])) == dir[p]
  {
    assert p != "";
    assert HoldsAt(f, dir, p);
  }

  lemma NoLevelIds(f: Forest, dir: map<string, set<nat>>, name: string, k: nat)
    requires Represents(f, dir) && 1 <= k <= |Fields(name)| && forall p :: !LevelName(dir, name, k, p)
    ensures IdsAt(f, Fields(name)[..k]).None?
  {
    var e := PrefixIsName(name, 0, k);
    assert name[..e] != "" && HoldsAt(f, dir, name[..e]) && !LevelName(dir, name, k, name[..e]);
  }

  lemma DeepestDepth(f: Forest, dir: map<string, set<nat>>, name: string, k: nat)
    requires Represents(f, dir) && Deepest(dir, name, k)
    ensures Depth(f, Fields(name)) == k
  {
    var fields := Fields(name);
    DepthLaw(f, fields, k);
    assert NodeAt(f, fields[..k]) != Nil;
    if k < |fields| {
      DepthLaw(f, fields, k + 1);
      assert NodeAt(f, fields[..k + 1]) == Nil;
    }
  }

  /** The directory leads to n for a level in front of level k. */
  ghost predicate LeadsAbove(dir: map<string, set<nat>>, name: string, k: nat, n: nat)
  {
    1 <= k <= |Fields(name)| && LeadsWithin(dir, name, k - 1, n)
  }

  /** No level of the name leads to anything. */
  lemma QueryNothing(f: Forest, dir: map<string, set<nat>>, name: string)
    requires Represents(f, dir) && forall k :: !Deepest(dir, name, k)
    ensures Query(f, name) == NoMatch
  {
    QueryLaw(f, name);
    if Depth(f, Fields(name)) > 0 {
      DepthDeepest(f, dir, name);
    }
  }

  lemma QueryAtLevel(f: Forest, dir: map<string, set<nat>>, name: string, k: nat)
    requires Represents(f, dir) && Deepest(dir, name, k)
    ensures Query(f, name) == AnswerAt(f, Fields(name), k)
    ensures forall n :: n in Cover(f, Fields(name), k - 1) <==> LeadsAbove(dir, name, k, n)
    ensures Cover(f, Fields(name), k - 1) == [] <==> forall n :: !LeadsAbove(dir, name, k, n)
  {
    QueryLaw(f, name);
    DeepestDepth(f, dir, name, k);
    forall n
      ensures n in Cover(f, Fields(name), k - 1) <==> LeadsAbove(dir, name, k, n)
    {
      CoverWithin(f, dir, name, k - 1, n);
    }
    var c := Cover(f, Fields(name), k - 1);
    if c != [] {
      assert c[0] in c;
      assert LeadsAbove(dir, name, k, c[0]);
    }
  }

  /** What a query answers, told by the directory alone: if the deepest level of the name that leads to anything is a
      name of the directory, then its ids, and with them all ids of the levels in front; otherwise a null pointer is
      followed if a level in front has ids, and there are none if not. */
  lemma QueryAccount(f: Forest, dir: map<string, set<nat>>, name: string, k: nat)
    requires Represents(f, dir) && Deepest(dir, name, k)
    ensures var a := Query(f, name);
      && (forall p :: LevelName(dir, name, k, p) ==> a.Found? && a.ids.Some? && IdSet(a.ids) == dir[p])
      && (a.Found? ==> forall n :: n in a.allPre <==> LeadsAbove(dir, name, k, n))
      && ((forall p :: !LevelName(dir, name, k, p)) ==>
        if forall n :: !LeadsAbove(dir, name, k, n) then a.Found? && a.ids.None? else a == Crash)
  {
    QueryAtLevel(f, dir, name, k);
    if p :| LevelName(dir, name, k, p) {
      LevelIds(f, dir, name, k, p);
      OneLevelName(dir, name, k, p);
    } else {
      NoLevelIds(f, dir, name, k);
    }
  }

  lemma OneLevelName(dir: map<string, set<nat>>, name: string, k: nat, p: string)
    requires LevelName(dir, name, k, p)
    ensures forall q :: LevelName(dir, name, k, q) ==> q == p
  {
    forall q | LevelName(dir, name, k, q)
      ensures q == p
    {
      FieldsInjective(p, q);
    }
  }

  lemma DepthDeepest(f: Forest, dir: map<string, set<nat>>, name: string)
    requires Represents(f, dir) && Depth(f, Fields(name)) > 0
    ensures Deepest(dir, name, Depth(f, Fields(name)))
  {
    var fields, k := Fields(name), Depth(f, Fields(name));
    DepthLaw(f, fields, k);
    assert NodeAt(f, fields[..k]) != Nil;
    if k < |fields| {
      DepthLaw(f, fields, k + 1);
      assert NodeAt(f, fields[..k + 1]) == Nil;
    }
  }

  /** Level j is the last one up to k with any ids. */
  ghost predicate LastHeld(dir: map<string, set<nat>>, name: string, k: nat, j: nat, p: string)
  {
    && 1 <= j <= k && LevelName(dir, name, j, p) && dir[p] != {}
    && forall i, q :: j < i <= k && LevelName(dir, name, i, q) ==> dir[q] == {}
  }

  /** The last prefix of an answer holds the ids of that level, and there is none if no level has any. */
  lemma {:induction false} LastAccount(f: Forest, dir: map<string, set<nat>>, name: string, k: nat)
    requires Represents(f, dir) && k <= |Fields(name)|
    ensures var last := LastFull(f, Fields(name), k);
      if last.None? then forall j, p :: !LastHeld(dir, name, k, j, p)
      else IdSet(last) != {} && exists j, p :: LastHeld(dir, name, k, j, p) && dir[p] == IdSet(last)
    ensures forall j, p, i, q :: LastHeld(dir, name, k, j, p) && LastHeld(dir, name, k, i, q) ==> q == p
  {
    LastOnly(dir, name, k);
    if k > 0 {
      LastAccount(f, dir, name, k - 1);
      var ids := IdsAt(f, Fields(name)[..k]);
      EmptyList(IdList(ids));
      assert SetOf(IdList(ids)) == IdSet(ids);
      if p :| LevelName(dir, name, k, p) {
        LevelIds(f, dir, name, k, p);
        OneLevelName(dir, name, k, p);
        LastNext(dir, name, k, p);
      } else {
        NoLevelIds(f, dir, name, k);
        LastSkips(dir, name, k);
      }
      var before := k - 1;
      if j, q :| IdSet(ids) == {} && LastHeld(dir, name, before, j, q) {
        assert LastHeld(dir, name, k, j, q);
      }
    }
  }

  lemma LastOnly(dir: map<string, set<nat>>, name: string, k: nat)
    requires k <= |Fields(name)|
    ensures forall j, p, i, q :: LastHeld(dir, name, k, j, p) && LastHeld(dir, name, k, i, q) ==> q == p
  {
    forall j, p, i, q | LastHeld(dir, name, k, j, p) && LastHeld(dir, name, k, i, q)
      ensures q == p
    {
      FieldsInjective(p, q);
    }
  }

  lemma LastNext(dir: map<string, set<nat>>, name: string, k: nat, p: string)
    requires 0 < k && LevelName(dir, name, k, p) && forall q :: LevelName(dir, name, k, q) ==> q == p
    ensures dir[p] != {} ==> LastHeld(dir, name, k, k, p)
    ensures dir[p] == {} ==> forall j, q :: LastHeld(dir, name, k, j, q) <==> LastHeld(dir, name, k - 1, j, q)
  {
  }

  lemma LastSkips(dir: map<string, set<nat>>, name: string, k: nat)
    requires 0 < k && forall q :: !LevelName(dir, name, k, q)
    ensures forall j, q :: LastHeld(dir, name, k, j, q) <==> LastHeld(dir, name, k - 1, j, q)
  {
  }

  lemma LastLevel(p: seq<string>, fields: seq<string>, k: nat)
    requires 0 < k <= |fields| && p <= fields[..k]
    ensures p <= fields[..k - 1] || p == fields[..k]
  {
    if |p| < k {
      assert p == fields[..k - 1][..|p|];
    }
  }

  lemma EmptyList(s: seq<nat>)
    ensures SetOf(s) == {} <==> s == []
  {
    if s != [] {
      assert s[0] in SetOf(s);
    }
  }

  lemma SetOfAppend(a: seq<nat>, b: seq<nat>)
    ensures SetOf(a + b) == SetOf(a) + SetOf(b)
  {
  }

  /** The answers of two such forests differ at most in the order of the ids. */
  ghost predicate SameAnswer(a: Answer, b: Answer)
  {
    || (a.NoMatch? && b.NoMatch?) || (a.Crash? && b.Crash?)
    || (&& a.Found? && b.Found? && (a.ids.Some? <==> b.ids.Some?) && IdSet(a.ids) == IdSet(b.ids)
        && (a.lastPre.Some? <==> b.lastPre.Some?) && IdSet(a.lastPre) == IdSet(b.lastPre)
        && SetOf(a.allPre) == SetOf(b.allPre))
  }

  lemma SameAnswerAt(f: Forest, g: Forest, dir: map<string, set<nat>>, name: string, d: nat)
    requires Represents(f, dir) && Represents(g, dir) && 1 <= d <= |Fields(name)|
    ensures SameAnswer(AnswerAt(f, Fields(name), d), AnswerAt(g, Fields(name), d))
  {
    SameLevels(f, g, dir, name, d);
    SameCover(f, g, dir, name, d);
    SameCover(f, g, dir, name, d - 1);
  }

  /** The directory map alone determines every query. */
  lemma SameQuery(f: Forest, g: Forest, dir: map<string, set<nat>>, name: string)
    requires Represents(f, dir) && Represents(g, dir)
    ensures SameAnswer(Query(f, name), Query(g, name))
  {
    QueryLaw(f, name);
    QueryLaw(g, name);
    SameDepth(f, g, dir, name);
    var d := Depth(f, Fields(name));
    if d > 0 {
      SameAnswerAt(f, g, dir, name, d);
    }
  }

  lemma EmptyRepresents()
    ensures Represents(Nil, map[])
  {
    forall p: seq<string> | p != []
      ensures NodeAt(Nil, p) == Nil
    {
      NilHasNothing(p);
    }
    forall o: string | o != ""
      ensures HoldsAt(Nil, map[], o)
    {
      FieldsJoin(o, 0);
      NilHasNothing(Fields(o));
    }
  }

  /** Adding to the forest is adding to the map. */
  lemma AddRepresents(f: Forest, dir: map<string, set<nat>>, o: string, n: nat)
    requires Represents(f, dir) && o != ""
    ensures Fields(o) != []
    ensures Represents(AddPath(f, Fields(o), n), dir[o := (if o in dir then dir[o] else {}) + {n}])
  {
    FieldsJoin(o, 0);
    var f', dir' := AddPath(f, Fields(o), n), dir[o := (if o in dir then dir[o] else {}) + {n}];
    AddProper(f, Fields(o), n);
    forall p: string | p != ""
      ensures HoldsAt(f', dir', p)
    {
      FieldsJoin(p, 0);
      AddLaw(f, Fields(o), n, Fields(p));
      if Fields(p) == Fields(o) {
        FieldsInjective(p, o);
      }
      assert HoldsAt(f, dir, p);
      AddIdSet(IdsAt(f, Fields(o)), n);
    }
    forall p: seq<string> | p != []
      ensures NodeAt(f', p) != Nil <==> Leads(dir', p)
    {
      AddLaw(f, Fields(o), n, p);
      if Leads(dir, p) {
        var q :| q in dir && p <= Fields(q);
        assert q in dir';
      }
      if p <= Fields(o) {
        assert o in dir';
      }
    }
  }

  /** Removing an object that was added is removing from the map. */
  lemma RmRepresents(f: Forest, dir: map<string, set<nat>>, o: string, n: nat)
    requires Represents(f, dir) && o in dir
    ensures Fields(o) != []
    ensures Represents(RmPath(f, Fields(o), n), dir[o := dir[o] - {n}])
  {
    FieldsJoin(o, 0);
    var f', dir' := RmPath(f, Fields(o), n), dir[o := dir[o] - {n}];
    RmProper(f, Fields(o), n);
    assert HoldsAt(f, dir, o);
    ProperIds(f, Fields(o));
    forall p: string | p != ""
      ensures HoldsAt(f', dir', p)
    {
      FieldsJoin(p, 0);
      RmLaw(f, Fields(o), n, Fields(p));
      if Fields(p) == Fields(o) {
        FieldsInjective(p, o);
      }
      assert HoldsAt(f, dir, p);
      RemoveIdSet(IdsAt(f, Fields(o)).value, n);
    }
    forall p: seq<string> | p != []
      ensures NodeAt(f', p) != Nil <==> Leads(dir', p)
    {
      RmLaw(f, Fields(o), n, p);
      assert dir'.Keys == dir.Keys;
      if Leads(dir, p) {
        var q :| q in dir && p <= Fields(q);
        assert q in dir';
      }
    }
  }

  lemma {:induction false} ProperIds(f: Forest, path: seq<string>)
    requires path != [] && Proper(f)
    ensures IdsAt(f, path).Some? ==> NoRepeats(IdsAt(f, path).value)
    decreases path
  {
    ProperPeer(f, path[0]);
    var m := FindPeer(f, path[0]);
    if m != Nil && |path| > 1 {
      ProperIds(m.child, path[1..]);
    }
  }

  lemma {:induction false} ProperPeer(f: Forest, prefix: string)
    requires Proper(f)
    ensures Proper(FindPeer(f, prefix))
    decreases f
  {
    if f != Nil && f.prefix != prefix {
      ProperPeer(f.peer, prefix);
    }
  }
}
