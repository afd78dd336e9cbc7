/** Object names, and the prefix forest as a value (src/pft.c:1-52, src/pft.h:8-14). */
module Forests {
  import opened HashTables

  // ---------------------------------------------------------------- names and fields

  /** End of the field that starts at i: behind the first '/', or the end of the name. */
  ghost function FieldEnd(name: string, i: nat): (e: nat)
    requires i < |name|
    ensures i < e <= |name|
    ensures forall j :: i <= j < e - 1 ==> name[j] != '/'
    ensures name[e - 1] == '/' || e == |name|
    decreases |name| - i
  {
    if name[i] == '/' || i + 1 == |name| then i + 1 else FieldEnd(name, i + 1)
  }

  ghost function FieldsFrom(name: string, i: nat): seq<string>
    requires i <= |name|
    decreases |name| - i
  {
    if i == |name| then [] else [name[i..FieldEnd(name, i)]] + FieldsFrom(name, FieldEnd(name, i))
  }

  ghost function Fields(name: string): seq<string>
  {
    FieldsFrom(name, 0)
  }

  ghost function Join(fields: seq<string>): string
  {
    if fields == [] then [] else fields[0] + Join(fields[1..])
  }

  /** A '/' stands at the end of every field but the last, and nowhere before the end of any. */
  ghost predicate FieldOk(field: string, last: bool)
  {
    && field != [] && (forall j :: 0 <= j < |field| - 1 ==> field[j] != '/')
    && (!last ==> field[|field| - 1] == '/')
  }

  /** Splitting loses nothing and splits exactly behind the slashes. */
  lemma {:induction false} FieldsJoin(name: string, i: nat)
    requires i <= |name|
    ensures Join(FieldsFrom(name, i)) == name[i..]
    ensures forall k :: 0 <= k < |FieldsFrom(name, i)| ==>
      FieldOk(FieldsFrom(name, i)[k], k == |FieldsFrom(name, i)| - 1)
    ensures FieldsFrom(name, i) == [] <==> i == |name|
    decreases |name| - i
  {
    if i < |name| {
      var e := FieldEnd(name, i);
      FieldsJoin(name, e);
      assert name[i..] == name[i..e] + name[e..];
      assert FieldOk(name[i..e], e == |name|);
    }
  }

  /** Distinct names have distinct field lists. */
  lemma FieldsInjective(a: string, b: string)
    requires Fields(a) == Fields(b)
    ensures a == b
  {
    FieldsJoin(a, 0);
    FieldsJoin(b, 0);
  }

  // ---------------------------------------------------------------- forests

  /** A first-child, next-sibling tree; `ids` is None while a node has no array. */
  datatype Forest = Nil | Branch(prefix: string, ids: Option<seq<nat>>, child: Forest, peer: Forest)

  /** The siblings from the first one with this prefix on. */
  ghost function FindPeer(f: Forest, prefix: string): (r: Forest)
    ensures r.Branch? ==> r.prefix == prefix
    ensures r == f || r < f
  {
    if f == Nil || f.prefix == prefix then f else FindPeer(f.peer, prefix)
  }

  /** The node at a path, with its children and later siblings. */
  ghost function NodeAt(f: Forest, path: seq<string>): Forest
    requires path != []
    decreases path
  {
    var n := FindPeer(f, path[0]);
    if n == Nil || |path| == 1 then n else NodeAt(n.child, path[1..])
  }

  /** The id array at a path, if there is one. */
  ghost function IdsAt(f: Forest, path: seq<string>): Option<seq<nat>>
    requires path != []
  {
    var n := NodeAt(f, path);
    if n == Nil then None else n.ids
  }

  function AddId(ids: Option<seq<nat>>, n: nat): seq<nat>
  {
    match ids
    case None => [n]
    case Some(s) => if n in s then s else s + [n]
  }

  ghost predicate HasPeer(f: Forest, prefix: string)
  {
    FindPeer(f, prefix) != Nil
  }

  /** pft_add_obj below one sibling list: a missing prefix becomes its new head. */
  ghost function AddPath(f: Forest, path: seq<string>, n: nat): Forest
    requires path != []
    decreases path, 1
  {
    if HasPeer(f, path[0]) then AddInPeer(f, path, n)
    else if |path| == 1 then Branch(path[0], Some(AddId(None, n)), Nil, f)
    else Branch(path[0], None, AddPath(Nil, path[1..], n), f)
  }

  ghost function AddInPeer(f: Forest, path: seq<string>, n: nat): Forest
    requires path != [] && HasPeer(f, path[0])
    decreases path, 0, f
  {
    if f.prefix != path[0] then f.(peer := AddInPeer(f.peer, path, n))
    else if |path| == 1 then f.(ids := Some(AddId(f.ids, n)))
    else f.(child := AddPath(f.child, path[1..], n))
  }

  /** rm_elem_by_idx: the last element takes the free place. */
  function RemoveAt(s: seq<nat>, i: nat): (r: seq<nat>)
    requires i < |s|
    ensures |r| == |s| - 1
  {
    s[i := s[|s| - 1]][..|s| - 1]
  }

  function IndexOf(s: seq<nat>, n: nat): (i: nat)
    ensures i <= |s| && (i < |s| ==> s[i] == n) && (i == |s| <==> n !in s)
    ensures n !in s[..i]
  {
    if s == [] || s[0] == n then 0 else
      var k := IndexOf(s[1..], n);
      assert s == [s[0]] + s[1..] && s[..k + 1] == [s[0]] + s[1..][..k];
      k + 1
  }

  function RemoveId(s: seq<nat>, n: nat): seq<nat>
  {
    if n in s then RemoveAt(s, IndexOf(s, n)) else s
  }

  ghost function RmPath(f: Forest, path: seq<string>, n: nat): Forest
    requires path != []
    decreases path, f
  {
    if f == Nil then Nil
    else if f.prefix != path[0] then f.(peer := RmPath(f.peer, path, n))
    else if |path| > 1 then f.(child := RmPath(f.child, path[1..], n))
    else if f.ids.Some? then f.(ids := Some(RemoveId(f.ids.value, n)))
    else f
  }

  // ---------------------------------------------------------------- well-formedness

  ghost predicate NoRepeats(s: seq<nat>)
  {
    forall i, j :: 0 <= i < j < |s| ==> s[i] != s[j]
  }

  /** Sibling prefixes are pairwise distinct and no array repeats an id. */
  ghost predicate Proper(f: Forest)
  {
    f == Nil || (&& !HasPeer(f.peer, f.prefix) && (f.ids.Some? ==> NoRepeats(f.ids.value))
                 && Proper(f.child) && Proper(f.peer))
  }

  ghost function IdSet(ids: Option<seq<nat>>): set<nat>
  {
    if ids.None? then {} else set x | x in ids.value
  }

  lemma AddIdSet(ids: Option<seq<nat>>, n: nat)
    ensures IdSet(Some(AddId(ids, n))) == IdSet(ids) + {n}
    ensures (ids.Some? ==> NoRepeats(ids.value)) ==> NoRepeats(AddId(ids, n))
  {
  }

  lemma RemoveIdSet(s: seq<nat>, n: nat)
    requires NoRepeats(s)
    ensures NoRepeats(RemoveId(s, n)) && IdSet(Some(RemoveId(s, n))) == IdSet(Some(s)) - {n}
  {
    if n in s {
      var i, r := IndexOf(s, n), RemoveId(s, n);
      forall x
        ensures x in r <==> x in s && x != n
      {
        if x in s && x != n {
          var k :| 0 <= k < |s| && s[k] == x;
          assert r[if k == |s| - 1 then i else k] == x;
        }
      }
    }
  }

  // ---------------------------------------------------------------- adding

  lemma {:induction false} AddPeers(f: Forest, path: seq<string>, n: nat, prefix: string)
    requires path != [] && HasPeer(f, path[0])
    ensures AddInPeer(f, path, n).Branch?
    ensures var m, m' := FindPeer(f, prefix), FindPeer(AddInPeer(f, path, n), prefix);
      prefix != path[0] && m.Branch? ==> m'.Branch? && m'.ids == m.ids && m'.child == m.child
    ensures !HasPeer(f, prefix) ==> !HasPeer(AddInPeer(f, path, n), prefix)
    ensures var m, m' := FindPeer(f, path[0]), FindPeer(AddInPeer(f, path, n), path[0]);
      && m'.Branch? && m.Branch?
      && (if |path| == 1 then m'.ids == Some(AddId(m.ids, n)) && m'.child == m.child
          else m'.ids == m.ids && m'.child == AddPath(m.child, path[1..], n))
    decreases f
  {
    if f.prefix != path[0] {
      AddPeers(f.peer, path, n, prefix);
    }
  }

  /** What one sibling list answers after an add. */
  lemma AddFinds(f: Forest, path: seq<string>, n: nat, prefix: string)
    requires path != []
    ensures var m, m' := FindPeer(f, prefix), FindPeer(AddPath(f, path, n), prefix);
      if prefix != path[0] then (m == Nil <==> m' == Nil) && (m != Nil ==> m'.ids == m.ids && m'.child == m.child)
      else
        var ids, child := if m == Nil then None else m.ids, if m == Nil then Nil else m.child;
        && m' != Nil
        && (if |path| == 1 then m'.ids == Some(AddId(ids, n)) && m'.child == child
            else m'.ids == ids && m'.child == AddPath(child, path[1..], n))
  {
    if HasPeer(f, path[0]) {
      AddPeers(f, path, n, prefix);
    }
  }

  /** add(o, n) changes the ids at o's own path only, by adding n; and the nodes afterwards are the old ones
      and those on the path. */
  lemma {:induction false} AddLaw(f: Forest, path: seq<string>, n: nat, at: seq<string>)
    requires path != [] && at != []
    ensures IdsAt(AddPath(f, path, n), at) == if at == path then Some(AddId(IdsAt(f, path), n)) else IdsAt(f, at)
    ensures NodeAt(AddPath(f, path, n), at) != Nil <==> NodeAt(f, at) != Nil || at <= path
    decreases path
  {
    AddFinds(f, path, n, at[0]);
    var m, m' := FindPeer(f, at[0]), FindPeer(AddPath(f, path, n), at[0]);
    var child := if m == Nil then Nil else m.child;
    if at[0] == path[0] {
      if |path| > 1 && |at| > 1 {
        AddLaw(child, path[1..], n, at[1..]);
        assert at == path <==> at[1..] == path[1..];
        assert at <= path <==> at[1..] <= path[1..];
      } else if |at| > 1 {
        assert m'.child == child;
      }
      if m == Nil && |at| > 1 {
        NilHasNothing(at[1..]);
      }
    }
  }

  lemma NilHasNothing(path: seq<string>)
    requires path != []
    ensures NodeAt(Nil, path) == Nil && IdsAt(Nil, path) == None
  {
  }

  lemma {:induction false} AddProper(f: Forest, path: seq<string>, n: nat)
    requires path != [] && Proper(f)
    ensures Proper(AddPath(f, path, n))
    decreases path, 1
  {
    if HasPeer(f, path[0]) {
      AddInPeerProper(f, path, n);
    } else if |path| > 1 {
      AddProper(Nil, path[1..], n);
    }
  }

  lemma {:induction false} AddInPeerProper(f: Forest, path: seq<string>, n: nat)
    requires path != [] && Proper(f) && HasPeer(f, path[0])
    ensures Proper(AddInPeer(f, path, n))
    decreases path, 0, f
  {
    if f.prefix != path[0] {
      AddInPeerProper(f.peer, path, n);
      AddPeers(f.peer, path, n, f.prefix);
    } else if |path| == 1 {
      AddIdSet(f.ids, n);
    } else {
      AddProper(f.child, path[1..], n);
    }
  }

  // ---------------------------------------------------------------- removing

  lemma {:induction false} RmFinds(f: Forest, path: seq<string>, n: nat, prefix: string)
    requires path != []
    ensures var m, m' := FindPeer(f, prefix), FindPeer(RmPath(f, path, n), prefix);
      && (m == Nil <==> m' == Nil)
      && (m != Nil ==>
            if prefix != path[0] then m'.ids == m.ids && m'.child == m.child
            else if |path| > 1 then m'.ids == m.ids && m'.child == RmPath(m.child, path[1..], n)
            else m'.child == m.child && m'.ids == if m.ids.None? then None else Some(RemoveId(m.ids.value, n)))
    decreases f
  {
    if f != Nil && f.prefix != prefix {
      if f.prefix != path[0] {
        RmFinds(f.peer, path, n, prefix);
      }
    }
  }

  /** rm(o, n) changes the ids at o's own path only, by taking n out; no node appears or disappears. */
  lemma {:induction false} RmLaw(f: Forest, path: seq<string>, n: nat, at: seq<string>)
    requires path != [] && at != []
    ensures IdsAt(RmPath(f, path, n), at) ==
      if at == path && IdsAt(f, path).Some? then Some(RemoveId(IdsAt(f, path).value, n)) else IdsAt(f, at)
    ensures NodeAt(RmPath(f, path, n), at) != Nil <==> NodeAt(f, at) != Nil
    decreases path
  {
    RmFinds(f, path, n, at[0]);
    var m := FindPeer(f, at[0]);
    if m != Nil && at[0] == path[0] && |path| > 1 && |at| > 1 {
      RmLaw(m.child, path[1..], n, at[1..]);
      assert at == path <==> at[1..] == path[1..];
    }
  }

  lemma {:induction false} RmProper(f: Forest, path: seq<string>, n: nat)
    requires path != [] && Proper(f)
    ensures Proper(RmPath(f, path, n))
    decreases path, f
  {
    if f != Nil {
      if f.prefix != path[0] {
        RmProper(f.peer, path, n);
        RmFinds(f.peer, path, n, f.prefix);
      } else if |path| > 1 {
        RmProper(f.child, path[1..], n);
      } else if f.ids.Some? {
        RemoveIdSet(f.ids.value, n);
      }
    }
  }
}
