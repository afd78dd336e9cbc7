/** The growing and shrinking id array (src/darr.c), with the cost of its element writes and copies. */
module DynArrays {
  import opened Forests

  const DARR_INIT_ELEM_NUM := 4

  // ---------------------------------------------------------------- cost of a history

  /** Capacity and number of elements. */
  datatype Shape = Shape(cap: nat, len: nat)

  datatype Op = Add | Remove

  ghost predicate PowerOfTwo(n: nat)
  {
    n == 1 || (n > 1 && n % 2 == 0 && PowerOfTwo(n / 2))
  }

  ghost predicate Good(s: Shape)
  {
    s.len <= s.cap && 2 <= s.cap && PowerOfTwo(s.cap)
  }

  /** A full array doubles before an add; a removal halves it once fewer than a quarter are used. Removing
      from an empty array does nothing. */
  function After(s: Shape, op: Op): Shape
  {
    match op
    case Add => if s.len == s.cap then Shape(2 * s.cap, s.len + 1) else Shape(s.cap, s.len + 1)
    case Remove =>
      if s.len == 0 then s
      else if s.len - 1 < s.cap / 4 then Shape(s.cap / 2, s.len - 1)
      else Shape(s.cap, s.len - 1)
  }

  /** One write, and for a reallocation one copy for each slot kept. */
  function Cost(s: Shape, op: Op): nat
  {
    match op
    case Add => if s.len == s.cap then 1 + s.cap else 1
    case Remove => if s.len == 0 then 0 else if s.len - 1 < s.cap / 4 then 1 + s.cap / 2 else 1
  }

  function Final(s: Shape, ops: seq<Op>): Shape
  {
    if ops == [] then s else After(Final(s, ops[..|ops| - 1]), ops[|ops| - 1])
  }

  function TotalCost(s: Shape, ops: seq<Op>): nat
  {
    if ops == [] then 0
    else TotalCost(s, ops[..|ops| - 1]) + Cost(Final(s, ops[..|ops| - 1]), ops[|ops| - 1])
  }

  /** Twice the distance from being half full. */
  ghost function Potential(s: Shape): nat
  {
    if 2 * s.len >= s.cap then 2 * s.len - s.cap else s.cap - 2 * s.len
  }

  lemma StepCost(s: Shape, op: Op)
    requires Good(s)
    ensures Good(After(s, op))
    ensures Cost(s, op) + Potential(After(s, op)) <= 3 + Potential(s)
  {
    assert PowerOfTwo(2 * s.cap) by {
      assert 2 * s.cap / 2 == s.cap;
    }
    if s.cap > 2 {
      assert PowerOfTwo(s.cap / 2) && s.cap / 2 >= 2;
      assert s.cap / 2 % 2 == 0;
    }
  }

  /** Any m additions and removals on a new array cost at most 3 m + 4 writes and copies, and leave a capacity
      that is a power of two, at least 2 and not below the length. */
  lemma {:induction false} Amortised(ops: seq<Op>)
    ensures var s := Final(Shape(DARR_INIT_ELEM_NUM, 0), ops);
      && Good(s)
      && TotalCost(Shape(DARR_INIT_ELEM_NUM, 0), ops) + Potential(s) <= 3 * |ops| + 4
  {
    if ops == [] {
      assert PowerOfTwo(4 / 2 / 2);
      assert PowerOfTwo(4 / 2);
    } else {
      Amortised(ops[..|ops| - 1]);
      StepCost(Final(Shape(DARR_INIT_ELEM_NUM, 0), ops[..|ops| - 1]), ops[|ops| - 1]);
    }
  }

  // ---------------------------------------------------------------- the block behind it

  const ELEM_SIZE := 4

  function Fresh(): Shape { Shape(DARR_INIT_ELEM_NUM, 0) }

  /** The size in bytes of the block that is asked for: room for four elements at first, and for a reallocation as many
      bytes as there are slots. */
  function Block(ops: seq<Op>): nat
  {
    if ops == [] then ELEM_SIZE * DARR_INIT_ELEM_NUM
    else
      var before := ops[..|ops| - 1];
      if Final(Fresh(), ops).cap == Final(Fresh(), before).cap then Block(before) else Final(Fresh(), ops).cap
  }

  function Length(ops: seq<Op>): nat
  {
    Final(Fresh(), ops).len
  }

  /** After each operation the elements lie within the block. */
  ghost predicate Within(ops: seq<Op>)
  {
    forall k :: 0 <= k <= |ops| ==> ELEM_SIZE * Length(ops[..k]) <= Block(ops[..k])
  }

  /** There is never a fifth element, nor any once the array has been emptied. */
  ghost predicate Small(ops: seq<Op>)
  {
    && (forall k :: 0 <= k <= |ops| ==> Length(ops[..k]) <= 4)
    && (forall j, k :: 0 <= j < k <= |ops| && Emptied(ops, j) ==> Length(ops[..k]) == 0)
  }

  /** The array loses its last element. */
  ghost predicate Emptied(ops: seq<Op>, j: nat)
    requires j < |ops|
  {
    Length(ops[..j]) > 0 && Length(ops[..j + 1]) == 0
  }

  ghost predicate HasEmptied(ops: seq<Op>)
  {
    exists j :: 0 <= j < |ops| && Emptied(ops, j)
  }

  /** Where an array stands whose elements have stayed within its block. */
  ghost predicate Settled(ops: seq<Op>)
  {
    var s := Final(Fresh(), ops);
    if s.cap == 4 then s.len <= 4 && Block(ops) == 16 && !HasEmptied(ops)
    else s == Shape(2, 0) && Block(ops) == 2 && HasEmptied(ops)
  }

  lemma EmptiedPrefix(ops: seq<Op>, k: nat, j: nat)
    requires j < k <= |ops|
    ensures Emptied(ops[..k], j) == Emptied(ops, j)
  {
    assert ops[..k][..j] == ops[..j] && ops[..k][..j + 1] == ops[..j + 1];
  }

  lemma HasEmptiedNext(ops: seq<Op>, op: Op)
    ensures HasEmptied(ops + [op]) <==> HasEmptied(ops) || (Length(ops) > 0 && Length(ops + [op]) == 0)
  {
    var more := ops + [op];
    assert more[..|ops|] == ops && more[..|ops| + 1] == more;
    if j :| 0 <= j < |ops| && Emptied(ops, j) {
      EmptiedPrefix(more, |ops|, j);
    }
    if j :| 0 <= j < |more| && Emptied(more, j) && j < |ops| {
      EmptiedPrefix(more, |ops|, j);
    }
    assert Emptied(more, |ops|) <==> Length(ops) > 0 && Length(more) == 0;
  }

  lemma SettledNext(ops: seq<Op>, op: Op)
    requires Settled(ops)
    ensures ELEM_SIZE * Length(ops + [op]) <= Block(ops + [op]) ==> Settled(ops + [op])
    ensures Length(ops + [op]) <= 4 && (HasEmptied(ops) ==> Length(ops + [op]) == 0) ==> Settled(ops + [op])
  {
    assert (ops + [op])[..|ops|] == ops;
    HasEmptiedNext(ops, op);
  }

  lemma {:induction false} WithinSettled(ops: seq<Op>, k: nat)
    requires Within(ops) && k <= |ops|
    ensures Settled(ops[..k])
  {
    if k > 0 {
      WithinSettled(ops, k - 1);
      SettledNext(ops[..k - 1], ops[k - 1]);
      assert ops[..k] == ops[..k - 1] + [ops[k - 1]];
    }
  }

  lemma {:induction false} SmallSettled(ops: seq<Op>, k: nat)
    requires Small(ops) && k <= |ops|
    ensures Settled(ops[..k])
  {
    if k > 0 {
      var before := ops[..k - 1];
      SmallSettled(ops, k - 1);
      assert ops[..k] == before + [ops[k - 1]];
      if j :| 0 <= j < |before| && Emptied(before, j) {
        EmptiedPrefix(ops, k - 1, j);
      }
      SettledNext(before, ops[k - 1]);
    }
  }

  /** Additions and removals stay within the block that was asked for if and only if there is never a fifth element,
      nor any once the array has been emptied. */
  lemma WithinExact(ops: seq<Op>)
    ensures Within(ops) <==> Small(ops)
  {
    if Within(ops) {
      forall k | 0 <= k <= |ops|
        ensures Length(ops[..k]) <= 4 && forall j :: 0 <= j < k && Emptied(ops, j) ==> Length(ops[..k]) == 0
      {
        WithinSettled(ops, k);
        forall j | 0 <= j < k && Emptied(ops, j)
          ensures Length(ops[..k]) == 0
        {
          EmptiedPrefix(ops, k, j);
        }
      }
    }
    if Small(ops) {
      forall k | 0 <= k <= |ops|
        ensures ELEM_SIZE * Length(ops[..k]) <= Block(ops[..k])
      {
        SmallSettled(ops, k);
      }
    }
  }

  // ---------------------------------------------------------------- the array

  class DynArray {
    var arr: array<nat>
    var currElem: nat
    ghost var spent: nat

    ghost predicate Valid()
      reads this, arr
    {
      Good(Size())
    }

    ghost function Size(): Shape
      reads this
    {
      Shape(arr.Length, currElem)
    }

    ghost function Contents(): seq<nat>
      reads this, arr
      requires Valid()
    {
      arr[..currElem]
    }

    constructor ()
      ensures Valid() && Contents() == [] && Size() == Shape(DARR_INIT_ELEM_NUM, 0) && spent == 0 && fresh(arr)
    {
      arr := new nat[DARR_INIT_ELEM_NUM];
      currElem := 0;
      spent := 0;
      new;
      Amortised([]);
    }

    /** realloc: a new block that keeps the leading slots. */
    method Resize(newMax: nat)
      requires currElem <= newMax && currElem <= arr.Length
      modifies this
      ensures fresh(arr) && arr.Length == newMax && currElem == old(currElem)
      ensures arr[..currElem] == old(arr[..currElem])
      ensures spent == old(spent) + if newMax <= old(arr.Length) then newMax else old(arr.Length)
    {
      var fewer := if newMax <= arr.Length then newMax else arr.Length;
      var bigger := new nat[newMax];
      for i := 0 to fewer
        invariant spent == old(spent) + i && arr == old(arr) && currElem == old(currElem)
        invariant arr[..] == old(arr[..])
        invariant forall j :: 0 <= j < i ==> bigger[j] == arr[j]
      {
        bigger[i] := arr[i];
        spent := spent + 1;
      }
      assert bigger[..currElem] == arr[..currElem];
      arr := bigger;
    }

    method GetElemIdx(elem: nat) returns (i: nat)
      requires Valid()
      ensures i == IndexOf(Contents(), elem)
    {
      i := 0;
      while i < currElem && arr[i] != elem
        invariant i <= currElem && elem !in arr[..i]
      {
        i := i + 1;
      }
      FirstIndex(Contents(), elem, i);
    }

    method AddElem(elem: nat)
      requires Valid()
      modifies this, arr
      ensures Valid() && Contents() == old(Contents()) + [elem]
      ensures arr == old(arr) || fresh(arr)
      ensures Size() == After(old(Size()), Add) && spent == old(spent) + Cost(old(Size()), Add)
    {
      StepCost(Size(), Add);
      if currElem == arr.Length {
        Resize(2 * arr.Length);
      }
      arr[currElem] := elem;
      currElem := currElem + 1;
      spent := spent + 1;
    }

    method RmElemByIdx(i: nat)
      requires Valid()
      modifies this, arr
      ensures Valid() && Contents() == if i < |old(Contents())| then RemoveAt(old(Contents()), i) else old(Contents())
      ensures arr == old(arr) || fresh(arr)
      ensures i < |old(Contents())| ==>
        Size() == After(old(Size()), Remove) && spent == old(spent) + Cost(old(Size()), Remove)
      ensures i >= |old(Contents())| ==> Size() == old(Size()) && spent == old(spent)
    {
      if i >= currElem { return; }
      StepCost(Size(), Remove);
      arr[i] := arr[currElem - 1];
      currElem := currElem - 1;
      spent := spent + 1;
      assert arr[..currElem] == RemoveAt(old(Contents()), i);
      if currElem < arr.Length / 4 {
        Resize(arr.Length / 2);
      }
    }

    /** Writing the element counter back alone: the array keeps its leading elements and its capacity. */
    method Truncate(n: nat)
      requires Valid() && n <= currElem
      modifies this`currElem
      ensures Valid() && Contents() == old(Contents())[..n]
    {
      currElem := n;
    }

    method Merge(src: DynArray)
      requires Valid() && src.Valid() && src != this && src.arr != arr
      modifies this, arr
      ensures Valid() && Contents() == old(Contents()) + src.Contents()
      ensures arr == old(arr) || fresh(arr)
    {
      ghost var s := src.Contents();
      for i := 0 to src.currElem
        invariant Valid() && src.Valid() && src.Contents() == s && src.arr == old(src.arr) && src.currElem == |s|
        invariant arr == old(arr) || fresh(arr)
        invariant arr != src.arr
        invariant Contents() == old(Contents()) + s[..i]
      {
        AddElem(src.arr[i]);
        assert s[..i + 1] == s[..i] + [s[i]];
      }
      assert s[..|s|] == s;
    }
  }

  lemma {:induction false} FirstIndex(s: seq<nat>, n: nat, i: nat)
    requires i <= |s| && n !in s[..i] && (i < |s| ==> s[i] == n)
    ensures IndexOf(s, n) == i
  {
    if i > 0 {
      assert s[0] == s[..i][0] && s[1..][..i - 1] == s[..i][1..];
      FirstIndex(s[1..], n, i - 1);
    }
  }
}
