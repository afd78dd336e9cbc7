/** The request parser of src/parser.c on the block chain, and the requests that starter/webserver.py prints. */
module Parsing {
  import opened HashTables
  import opened Buffers

  const METHOD_MAX_LEN := 7
  const REQ_FIELD1_MAX_LEN := 9
  const REQ_FIELD2_MAX_LEN := 512
  const METHOD_LIST: seq<string> := ["ADDFILE", "GETRD"]

  datatype Method = ADDFILE | GETRD

  datatype Status = ERROR | NEW | METHOD_DONE | LEN1_DONE | FIELD1_DONE | LEN2_DONE | DONE

  // ---------------------------------------------------------------- strings and numbers

  /** strncmp of two strings no longer than the limit: negative, zero or positive. */
  function StrCmp(a: string, b: string): (r: int)
    ensures r == 0 <==> a == b
  {
    if a == "" then (if b == "" then 0 else -1)
    else if b == "" then 1
    else if a[0] != b[0] then (if a[0] < b[0] then -1 else 1)
    else
      assert a == [a[0]] + a[1..] && b == [b[0]] + b[1..];
      StrCmp(a[1..], b[1..])
  }

  lemma {:induction false} StrCmpTrans(a: string, b: string, c: string)
    requires StrCmp(a, b) < 0 && StrCmp(b, c) <= 0
    ensures StrCmp(a, c) < 0
    decreases |a|
  {
    if a != "" && b != "" && c != "" && a[0] == b[0] == c[0] {
      StrCmpTrans(a[1..], b[1..], c[1..]);
    }
  }

  lemma {:induction false} StrCmpFlip(a: string, b: string)
    ensures StrCmp(a, b) < 0 <==> StrCmp(b, a) > 0
    decreases |a|
  {
    if a != "" && b != "" && a[0] == b[0] {
      StrCmpFlip(a[1..], b[1..]);
    }
  }

  /** str_match: binary search in an ascending list. */
  method StrMatch(dest: seq<string>, src: string) returns (r: int)
    requires forall i, j :: 0 <= i < j < |dest| ==> StrCmp(dest[i], dest[j]) < 0
    ensures r == -1 || (0 <= r < |dest| && dest[r] == src)
    ensures r == -1 ==> src !in dest
  {
    var low, hi := 0, |dest| - 1;
    while low <= hi
      invariant 0 <= low <= hi + 1 <= |dest|
      invariant forall i :: 0 <= i < low || hi < i < |dest| ==> dest[i] != src
    {
      var mid := (low + hi) / 2;
      var ret := StrCmp(dest[mid], src);
      if ret < 0 {
        forall i | 0 <= i <= mid
          ensures dest[i] != src
        {
          if i < mid { StrCmpTrans(dest[i], dest[mid], src); }
        }
        low := mid + 1;
      } else if ret > 0 {
        forall i | mid <= i < |dest|
          ensures dest[i] != src
        {
          if i > mid { StrCmpFlip(src, dest[mid]); StrCmpTrans(src, dest[mid], dest[i]); }
        }
        hi := mid - 1;
      } else {
        return mid;
      }
    }
    r := -1;
  }

  predicate IsDigit(c: char) { '0' <= c <= '9' }

  predicate AllDigits(s: string) { forall i :: 0 <= i < |s| ==> IsDigit(s[i]) }

  function Value(s: string): nat
    requires AllDigits(s)
  {
    if s == "" then 0
    else
      assert IsDigit(s[|s| - 1]);
      10 * Value(s[..|s| - 1]) + (s[|s| - 1] as int - '0' as int)
  }

  /** Behind the white space that strtol skips. */
  function NumStart(s: string, i: nat): (r: nat)
    requires i <= |s|
    ensures i <= r <= |s|
    decreases |s| - i
  {
    if i < |s| && (s[i] == ' ' || 9 as char <= s[i] <= 13 as char) then NumStart(s, i + 1) else i
  }

  /** str_to_num: the whole string must be a decimal number, which may have a sign. */
  function StrToNum(s: string): Option<int>
  {
    var a := NumStart(s, 0);
    var signed := a < |s| && (s[a] == '-' || s[a] == '+');
    var digits := s[if signed then a + 1 else a..];
    if digits == "" || !AllDigits(digits) then None
    else
      var v: int := Value(digits);
      Some(if signed && s[a] == '-' then -v else v)
  }

  /** Python's str of a length. */
  function Digits(n: nat): string
  {
    if n < 10 then [(n + '0' as int) as char] else Digits(n / 10) + [(n % 10 + '0' as int) as char]
  }

  lemma {:induction false} DigitsLaw(n: nat)
    ensures Digits(n) != "" && AllDigits(Digits(n)) && Value(Digits(n)) == n && StrToNum(Digits(n)) == Some(n)
    ensures n < 1000 ==> |Digits(n)| <= 3
    ensures forall i :: 0 <= i < |Digits(n)| ==> Digits(n)[i] != ' '
  {
    var s := Digits(n);
    if n >= 10 {
      DigitsLaw(n / 10);
      assert s[..|s| - 1] == Digits(n / 10);
      if n < 1000 {
        assert n / 10 < 100;
        assert n / 10 < 10 || n / 10 / 10 < 10;
      }
    }
    assert NumStart(s, 0) == 0 && s[0..] == s;
  }

  // ---------------------------------------------------------------- the state machine

  /** What the parser and the request record hold; `pos` is the cursor as a position in the stream. */
  datatype Ps = Ps(status: Status, pos: nat, meth: Method, bad: bool, len1: int, len2: int, field1: string,
          field2: string)

  datatype Ret = Go | Stop | Crash

  ghost predicate Busy(s: Status)
  {
    s != ERROR && s != DONE
  }

  ghost function Rank(s: Status): nat
  {
    match s
    case NEW => 0
    case METHOD_DONE => 1
    case LEN1_DONE => 2
    case FIELD1_DONE => 3
    case LEN2_DONE => 4
    case DONE => 5
    case ERROR => 6
  }

  /** The characters before the first NUL. */
  function CString(s: string): string
  {
    if s == "" || s[0] == 0 as char then "" else [s[0]] + CString(s[1..])
  }

  lemma {:induction false} CStringSame(s: string)
    requires 0 as char !in s
    ensures CString(s) == s
  {
    if s != "" {
      CStringSame(s[1..]);
    }
  }

  /** The cursor is in the stream, and a length that is done is positive. */
  ghost predicate Sound(st: Stream, p: Ps)
  {
    && p.pos <= |st.bytes| && (p.status == LEN1_DONE ==> 0 < p.len1 <= REQ_FIELD1_MAX_LEN)
    && (p.status == LEN2_DONE ==> 0 < p.len2 <= REQ_FIELD2_MAX_LEN)
  }

  /** A step either advances the status, or reports an error, or changes nothing. */
  ghost predicate StepOk(st: Stream, p: Ps, ret: Ret, q: Ps)
  {
    && Sound(st, q) && (ret == Go ==> q.status != ERROR && Rank(p.status) < Rank(q.status))
    && (ret != Go ==> q.status == ERROR || q == p)
  }

  ghost function Wrong(p: Ps): Ps
  {
    p.(status := ERROR, bad := true)
  }

  ghost function Lacking(p: Ps, why: Read): (Ret, Ps)
  {
    (if why.Segv? then Crash else Stop, p)
  }

  ghost function MethodStep(st: Stream, p: Ps): (Ret, Ps)
    requires p.pos <= |st.bytes|
  {
    match FieldAt(st, p.pos, METHOD_MAX_LEN + 1)
    case (TooLong, _) => (Stop, Wrong(p))
    case (More(why), _) => Lacking(p, why)
    case (Field(buf), next) =>
      var text := CString(buf);
      if text == "ADDFILE" then (Go, p.(status := METHOD_DONE, pos := next, meth := ADDFILE))
      else if text == "GETRD" then (Go, p.(status := METHOD_DONE, pos := next, meth := GETRD))
      else (Stop, Wrong(p.(pos := next)))
  }

  ghost function LenStep(st: Stream, p: Ps): (Ret, Ps)
    requires p.pos <= |st.bytes|
  {
    match FieldAt(st, p.pos, 10)
    case (TooLong, _) => (Stop, Wrong(p))
    case (More(why), _) => Lacking(p, why)
    case (Field(buf), next) =>
      var q := p.(pos := next);
      var text := CString(buf);
      if StrToNum(text).None? then (Stop, Wrong(q))
      else
        var len := StrToNum(text).value;
        if p.status == METHOD_DONE then
          if 0 < len <= REQ_FIELD1_MAX_LEN then (Go, q.(len1 := len, status := LEN1_DONE))
            else (Stop, Wrong(q.(len1 := len)))
        else
          if 0 < len <= REQ_FIELD2_MAX_LEN then (Go, q.(len2 := len, status := LEN2_DONE))
            else (Stop, Wrong(q.(len2 := len)))
  }

  /** The length of the field whose bytes come next. */
  function Due(p: Ps): int
  {
    if p.status == LEN1_DONE then p.len1 else p.len2
  }

  ghost function DataStep(st: Stream, p: Ps): (Ret, Ps)
    requires Due(p) >= 0
  {
    match BytesAt(st, p.pos, Due(p))
    case Failed(why) => Lacking(p, why)
    case Bytes(text) =>
      var q := p.(pos := p.pos + Due(p));
      if p.status == LEN1_DONE then
        (Go, q.(field1 := CString(text), status := if p.meth == GETRD then DONE else FIELD1_DONE))
      else (Go, q.(field2 := CString(text), status := DONE))
  }

  ghost function OneStep(st: Stream, p: Ps): (Ret, Ps)
    requires Busy(p.status) && Sound(st, p)
  {
    if p.status == NEW then MethodStep(st, p)
    else if p.status == METHOD_DONE || p.status == FIELD1_DONE then LenStep(st, p)
    else DataStep(st, p)
  }

  /** Every step keeps the cursor in the stream and advances the status, unless it stops. */
  lemma StepLaw(st: Stream, p: Ps)
    requires Busy(p.status) && Sound(st, p)
    ensures StepOk(st, p, OneStep(st, p).0, OneStep(st, p).1)
  {
  }

  /** From p the parser goes on to q. */
  ghost predicate Moves(st: Stream, p: Ps, q: Ps)
  {
    Busy(p.status) && Sound(st, p) && OneStep(st, p) == (Go, q) && Sound(st, q)
  }

  ghost predicate MoveAt(st: Stream, path: seq<Ps>, i: nat)
    requires i + 1 < |path|
  {
    Moves(st, path[i], path[i + 1]) && path[i + 1].status != DONE
  }

  /** The last step: the request is done, or the step stops. */
  ghost predicate Ends(st: Stream, p: Ps, ret: Ret, q: Ps)
  {
    Busy(p.status) && Sound(st, p) && OneStep(st, p) == (ret, q) && (ret == Go ==> q.status == DONE)
  }

  /** A run of parse_req through the records in `path`, which ends with q. */
  ghost predicate IsRun(st: Stream, path: seq<Ps>, ret: Ret, q: Ps)
  {
    && path != [] && (forall i {:trigger MoveAt(st, path, i)} :: 0 <= i < |path| - 1 ==> MoveAt(st, path, i))
    && Ends(st, path[|path| - 1], ret, q)
  }

  /** parse_req, called with p, ends with ret and q. */
  ghost predicate RunsTo(st: Stream, p: Ps, ret: Ret, q: Ps)
  {
    exists path {:trigger IsRun(st, path, ret, q)} :: IsRun(st, path, ret, q) && path[0] == p
  }

  /** There is only one run from each record. */
  lemma {:induction false} OneRun(st: Stream, a: seq<Ps>, ra: Ret, qa: Ps, b: seq<Ps>, rb: Ret, qb: Ps)
    requires IsRun(st, a, ra, qa) && IsRun(st, b, rb, qb) && a[0] == b[0]
    ensures ra == rb && qa == qb
    decreases |a|
  {
    assert |a| > 1 ==> MoveAt(st, a, 0);
    assert |b| > 1 ==> MoveAt(st, b, 0);
    if |a| > 1 && |b| > 1 {
      TailRun(st, a, ra, qa);
      TailRun(st, b, rb, qb);
      OneRun(st, a[1..], ra, qa, b[1..], rb, qb);
    }
  }

  lemma SameRun(st: Stream, p: Ps, ra: Ret, qa: Ps, rb: Ret, qb: Ps)
    requires RunsTo(st, p, ra, qa) && RunsTo(st, p, rb, qb)
    ensures ra == rb && qa == qb
  {
    var a :| IsRun(st, a, ra, qa) && a[0] == p;
    var b :| IsRun(st, b, rb, qb) && b[0] == p;
    OneRun(st, a, ra, qa, b, rb, qb);
  }

  lemma TailRun(st: Stream, path: seq<Ps>, ret: Ret, q: Ps)
    requires IsRun(st, path, ret, q) && |path| > 1
    ensures IsRun(st, path[1..], ret, q)
  {
    var rest := path[1..];
    forall i: nat {:trigger MoveAt(st, rest, i)} | i < |rest| - 1
      ensures MoveAt(st, rest, i)
    {
      assert MoveAt(st, path, i + 1);
    }
  }

  lemma LastMove(st: Stream, p: Ps, q: Ps)
    requires Moves(st, p, q) && q.status == DONE
    ensures RunsTo(st, p, Go, q)
  {
    assert IsRun(st, [p], Go, q);
  }

  lemma FirstMove(st: Stream, p: Ps, q: Ps, ret: Ret, r: Ps)
    requires Moves(st, p, q) && q.status != DONE && RunsTo(st, q, ret, r)
    ensures RunsTo(st, p, ret, r)
  {
    var rest :| IsRun(st, rest, ret, r) && rest[0] == q;
    HeadRun(st, p, rest, ret, r);
  }

  lemma HeadRun(st: Stream, p: Ps, rest: seq<Ps>, ret: Ret, r: Ps)
    requires IsRun(st, rest, ret, r) && Moves(st, p, rest[0]) && rest[0].status != DONE
    ensures IsRun(st, [p] + rest, ret, r)
  {
    var path := [p] + rest;
    forall i: nat {:trigger MoveAt(st, path, i)} | i < |path| - 1
      ensures MoveAt(st, path, i)
    {
      assert i > 0 ==> MoveAt(st, rest, i - 1);
    }
  }

  // ---------------------------------------------------------------- requests that arrive in parts

  lemma {:induction false} CStringLast(s: string, a: char, b: char)
    requires a != b
    ensures CString(s + [a]) == CString(s + [b]) <==> 0 as char in s
  {
    if s == "" {
      assert s + [a] == [a] && s + [b] == [b] && [a][1..] == "" && [b][1..] == "";
    } else {
      assert (s + [a])[1..] == s[1..] + [a] && (s + [b])[1..] == s[1..] + [b];
      CStringLast(s[1..], a, b);
      if s[0] != 0 as char {
        assert CString(s + [a])[1..] == CString(s[1..] + [a]) && CString(s + [b])[1..] == CString(s[1..] + [b]);
        assert s == [s[0]] + s[1..];
      }
    }
  }

  /** The n received bytes hold all that the next step uses: the space behind the word, or the bytes of the field up to
      its end or to a NUL. */
  ghost predicate Complete(got: string, p: Ps)
    requires Busy(p.status) && p.pos <= |got|
  {
    if p.status == LEN1_DONE || p.status == LEN2_DONE then p.pos + Due(p) <= |got| || 0 as char in got[p.pos..]
    else WordEnds(got, p.pos)
  }

  lemma WordStep(part: Stream, full: Stream, n: nat, p: Ps, q: Ps, size: nat)
    requires Arrived(part, full, n) && p.pos <= n && size > 0 && FieldAt(part, p.pos, size).0.Field?
    requires FieldAt(part, p.pos, size).1 == q.pos
    ensures FieldAt(full, p.pos, size).0.Field? && FieldAt(full, p.pos, size).1 == q.pos ==>
      FieldAt(full, p.pos, size) == FieldAt(part, p.pos, size)
  {
    var s, t := part.bytes, full.bytes;
    SameSkip(s, t, n, p.pos);
    SameSlice(s, t, n, SkipSpaces(s, p.pos), q.pos - 1);
  }

  /** The size of the buffer for the next word. */
  function WordSize(p: Ps): nat { if p.status == NEW then METHOD_MAX_LEN + 1 else 10 }

  lemma WordMoved(st: Stream, p: Ps, q: Ps)
    requires Moves(st, p, q) && p.status != LEN1_DONE && p.status != LEN2_DONE
    ensures FieldAt(st, p.pos, WordSize(p)).0.Field? && FieldAt(st, p.pos, WordSize(p)).1 == q.pos
  {
  }

  lemma SameWordMoves(st: Stream, st': Stream, p: Ps, q: Ps)
    requires Moves(st, p, q) && p.status != LEN1_DONE && p.status != LEN2_DONE && |st.bytes| <= |st'.bytes|
    requires FieldAt(st', p.pos, WordSize(p)) == FieldAt(st, p.pos, WordSize(p))
    ensures Moves(st', p, q)
  {
  }

  lemma WordMove(part: Stream, full: Stream, n: nat, p: Ps, q: Ps)
    requires Arrived(part, full, n) && p.pos <= n && Moves(part, p, q) && p.status != LEN1_DONE && p.status != LEN2_DONE
    ensures FieldAt(part, p.pos, WordSize(p)).0.Field?
    ensures Moves(full, p, q) <==> FieldAt(full, p.pos, WordSize(p)) == FieldAt(part, p.pos, WordSize(p))
  {
    WordMoved(part, p, q);
    if Moves(full, p, q) {
      WordMoved(full, p, q);
      WordStep(part, full, n, p, q, WordSize(p));
    } else if FieldAt(full, p.pos, WordSize(p)) == FieldAt(part, p.pos, WordSize(p)) {
      SameWordMoves(part, full, p, q);
    }
  }

  lemma TextMove(part: Stream, full: Stream, n: nat, p: Ps, q: Ps)
    requires Arrived(part, full, n) && p.pos <= n && Moves(part, p, q)
    requires p.status == LEN1_DONE || p.status == LEN2_DONE
    ensures Moves(full, p, q) <==>
      p.pos + Due(p) <= n || 0 as char in part.bytes[..n][p.pos..] || full.bytes[n] == part.bytes[n]
  {
    TextStep(part, full, n, p);
  }

  lemma TextStep(part: Stream, full: Stream, n: nat, p: Ps)
    requires Arrived(part, full, n) && p.pos <= n && Due(p) > 0 && p.pos + Due(p) <= n + 1
    ensures BytesAt(part, p.pos, Due(p)).Bytes? && BytesAt(full, p.pos, Due(p)).Bytes?
    ensures CString(BytesAt(part, p.pos, Due(p)).text) == CString(BytesAt(full, p.pos, Due(p)).text) <==>
      p.pos + Due(p) <= n || 0 as char in part.bytes[..n][p.pos..] || full.bytes[n] == part.bytes[n]
  {
    BytesSplit(part, full, n, p.pos, Due(p));
    if p.pos + Due(p) == n + 1 {
      var s, t := part.bytes, full.bytes;
      SameSlice(s, t, n, p.pos, n);
      assert s[p.pos..n + 1] == s[p.pos..n] + [s[n]] && t[p.pos..n + 1] == t[p.pos..n] + [t[n]];
      assert s[..n][p.pos..] == s[p.pos..n];
      if s[n] != t[n] {
        CStringLast(s[p.pos..n], s[n], t[n]);
      }
    }
  }

  /** A step taken on a part of the stream is the step on the whole stream if and only if the received bytes hold all
      it uses, or the byte behind them is the one that arrives. */
  lemma MoveExact(part: Stream, full: Stream, n: nat, p: Ps, q: Ps)
    requires Arrived(part, full, n) && p.pos <= n && Moves(part, p, q)
    ensures Moves(full, p, q) <==> Complete(part.bytes[..n], p) || full.bytes[n] == part.bytes[n]
  {
    if p.status == LEN1_DONE || p.status == LEN2_DONE {
      TextMove(part, full, n, p, q);
    } else {
      WordMove(part, full, n, p, q);
      FieldSplit(part, full, n, p.pos, WordSize(p));
    }
  }

  /** The step kept to the received bytes, or the byte behind them is the one that arrives. */
  ghost predicate Kept(part: Stream, full: Stream, n: nat, q: Ps)
    requires n < |part.bytes| && n < |full.bytes|
  {
    q.pos <= n || full.bytes[n] == part.bytes[n]
  }

  lemma MoveAgain(part: Stream, full: Stream, n: nat, p: Ps, q: Ps)
    requires Arrived(part, full, n) && Moves(part, p, q) && Kept(part, full, n, q)
    ensures p.pos <= n && Moves(full, p, q)
  {
    MoveForward(part, p, q);
    MoveExact(part, full, n, p, q);
    if q.pos <= n && p.status != LEN1_DONE && p.status != LEN2_DONE {
      WordWithin(part, n, p.pos, WordSize(p));
    }
  }

  lemma MoveWithin(part: Stream, n: nat, p: Ps, q: Ps)
    requires |part.bytes| == n + 1 && Moves(part, p, q)
    ensures p.pos <= n && p.pos <= q.pos
  {
  }

  ghost predicate NextAt(st: Stream, path: seq<Ps>, i: nat)
    requires i + 1 < |path|
  {
    Moves(st, path[i], path[i + 1])
  }

  /** The records that parse_req goes through. */
  ghost predicate Through(st: Stream, path: seq<Ps>)
  {
    forall i {:trigger NextAt(st, path, i)} :: 0 <= i < |path| - 1 ==> NextAt(st, path, i)
  }

  lemma {:induction false} ThroughForward(part: Stream, n: nat, path: seq<Ps>, i: nat, k: nat)
    requires |part.bytes| == n + 1 && Through(part, path) && i <= k < |path|
    ensures path[i].pos <= path[k].pos && (k < |path| - 1 ==> path[k].pos <= n)
    decreases k
  {
    if k < |path| - 1 {
      assert NextAt(part, path, k);
      MoveWithin(part, n, path[k], path[k + 1]);
    }
    if i < k {
      ThroughForward(part, n, path, i, k - 1);
      assert NextAt(part, path, k - 1);
      MoveWithin(part, n, path[k - 1], path[k]);
    }
  }

  /** A call on a part of the stream goes through the records of the call on the whole stream if and only if the
      received bytes hold all that its last step uses, or the byte behind them is the one that arrives. */
  lemma CallExact(part: Stream, full: Stream, n: nat, path: seq<Ps>)
    requires Arrived(part, full, n) && Through(part, path) && |path| >= 2
    ensures path[|path| - 2].pos <= n && Busy(path[|path| - 2].status)
    ensures Through(full, path) <==>
      Complete(part.bytes[..n], path[|path| - 2]) || full.bytes[n] == part.bytes[n]
  {
    var k := |path| - 2;
    ThroughForward(part, n, path, k, k);
    assert NextAt(part, path, k);
    MoveExact(part, full, n, path[k], path[k + 1]);
    ThroughBefore(part, full, n, path);
    assert Through(full, path) ==> NextAt(full, path, k);
  }

  lemma ThroughBefore(part: Stream, full: Stream, n: nat, path: seq<Ps>)
    requires Arrived(part, full, n) && Through(part, path)
    ensures forall i {:trigger NextAt(full, path, i)} :: 0 <= i < |path| - 2 ==> NextAt(full, path, i)
  {
    forall i | 0 <= i < |path| - 2
      ensures NextAt(full, path, i)
    {
      assert NextAt(part, path, i);
      ThroughForward(part, n, path, i + 1, |path| - 2);
      MoveAgain(part, full, n, path[i], path[i + 1]);
    }
  }

  /** An error that is reported on the received bytes is reported on the whole stream. */
  lemma WrongAgain(part: Stream, full: Stream, n: nat, p: Ps, ret: Ret, q: Ps)
    requires Arrived(part, full, n) && Ends(part, p, ret, q) && q.status == ERROR && Kept(part, full, n, q)
    ensures Ends(full, p, ret, q) && ret == Stop
  {
    var size := WordSize(p);
    match FieldAt(part, p.pos, size).0
    case TooLong => LongSplit(part, full, n, p.pos, size);
    case Field(_) =>
      FieldSplit(part, full, n, p.pos, size);
      WordWithin(part, n, p.pos, size);
    case More(_) =>
  }

  lemma MoveForward(st: Stream, p: Ps, q: Ps)
    requires Moves(st, p, q)
    ensures p.pos <= q.pos
  {
  }

  lemma {:induction false} PathForward(st: Stream, path: seq<Ps>, ret: Ret, q: Ps)
    requires IsRun(st, path, ret, q)
    ensures path[0].pos <= q.pos
    decreases |path|
  {
    if |path| > 1 {
      assert MoveAt(st, path, 0);
      MoveForward(st, path[0], path[1]);
      TailRun(st, path, ret, q);
      PathForward(st, path[1..], ret, q);
    } else {
      LastForward(st, path[0], ret, q);
    }
  }

  lemma LastForward(st: Stream, p: Ps, ret: Ret, q: Ps)
    requires Ends(st, p, ret, q)
    ensures p.pos <= q.pos
    ensures q.status != ERROR ==> if ret == Go then Moves(st, p, q) && q.status == DONE else q == p
  {
    StepLaw(st, p);
  }

  ghost predicate Over(q: Ps)
  {
    q.status == DONE || q.status == ERROR
  }

  lemma LastAgain(part: Stream, full: Stream, n: nat, p: Ps, stop: Ret, q: Ps, ret: Ret, r: Ps)
    requires Arrived(part, full, n) && Ends(part, p, stop, q) && Kept(part, full, n, q)
    requires if Over(q) then ret == stop && r == q else RunsTo(full, q, ret, r)
    ensures RunsTo(full, p, ret, r)
  {
    LastForward(part, p, stop, q);
    if q.status == ERROR {
      WrongAgain(part, full, n, p, stop, q);
      assert IsRun(full, [p], stop, q);
    } else if stop == Go {
      MoveAgain(part, full, n, p, q);
      LastMove(full, p, q);
    }
  }

  lemma {:induction false} PathAgain(part: Stream, full: Stream, n: nat, path: seq<Ps>, stop: Ret, q: Ps,
          ret: Ret, r: Ps)
    requires Arrived(part, full, n) && IsRun(part, path, stop, q) && Kept(part, full, n, q)
    requires if Over(q) then ret == stop && r == q else RunsTo(full, q, ret, r)
    ensures RunsTo(full, path[0], ret, r)
    decreases |path|
  {
    if |path| > 1 {
      assert MoveAt(part, path, 0);
      TailRun(part, path, stop, q);
      PathForward(part, path[1..], stop, q);
      PathAgain(part, full, n, path[1..], stop, q, ret, r);
      MoveAgain(part, full, n, path[0], path[1]);
      FirstMove(full, path[0], path[1], ret, r);
    } else {
      LastAgain(part, full, n, path[0], stop, q, ret, r);
    }
  }

  /** parse_req called on a part of the stream, and called again when more has arrived unless it is done or has found an
      error, ends as it would on the whole stream, provided that the first call kept to the bytes that had arrived. */
  lemma Resume(part: Stream, full: Stream, n: nat, p: Ps, stop: Ret, q: Ps, ret: Ret, r: Ps)
    requires Arrived(part, full, n) && RunsTo(part, p, stop, q) && Kept(part, full, n, q)
    requires if Over(q) then ret == stop && r == q else RunsTo(full, q, ret, r)
    ensures RunsTo(full, p, ret, r)
  {
    var path :| IsRun(part, path, stop, q) && path[0] == p;
    PathAgain(part, full, n, path, stop, q, ret, r);
  }

  /** parse_req, called with p, goes through q. */
  ghost predicate Reaches(st: Stream, p: Ps, q: Ps)
  {
    exists path {:trigger Through(st, path)} ::
      Through(st, path) && path != [] && path[0] == p && path[|path| - 1] == q
  }

  lemma {:induction false} ThroughRank(st: Stream, path: seq<Ps>, j: nat, k: nat)
    requires Through(st, path) && j <= k < |path|
    ensures Rank(path[j].status) + (k - j) <= Rank(path[k].status)
    decreases k
  {
    if j < k {
      ThroughRank(st, path, j, k - 1);
      assert NextAt(st, path, k - 1);
      StepLaw(st, path[k - 1]);
    }
  }

  lemma SameStatus(st: Stream, st': Stream, p: Ps, q: Ps, x: Ps)
    requires Moves(st, p, q) && Moves(st', p, x)
    ensures q.status == x.status
  {
    hide Moves;
    MoveStatus(st, p, q);
    MoveStatus(st', p, x);
  }

  /** The status behind a step that goes on. */
  ghost function NextStatus(p: Ps): Status
  {
    match p.status
    case NEW => METHOD_DONE
    case METHOD_DONE => LEN1_DONE
    case LEN1_DONE => if p.meth == GETRD then DONE else FIELD1_DONE
    case FIELD1_DONE => LEN2_DONE
    case _ => DONE
  }

  lemma MoveStatus(st: Stream, p: Ps, q: Ps)
    requires Moves(st, p, q)
    ensures q.status == NextStatus(p)
  {
  }

  /** Up to the last record of a call on a part, a call on the whole goes through the same records. */
  lemma {:induction false} SamePath(part: Stream, full: Stream, n: nat, path: seq<Ps>, path': seq<Ps>, k: nat)
    requires Arrived(part, full, n) && Through(part, path) && Through(full, path')
    requires k < |path| - 1 && k < |path'| && path[0] == path'[0]
    ensures path'[k] == path[k]
  {
    if k > 0 {
      SamePath(part, full, n, path, path', k - 1);
      assert NextAt(part, path, k - 1) && NextAt(full, path', k - 1);
      ThroughForward(part, n, path, k, k);
      MoveAgain(part, full, n, path[k - 1], path[k]);
    }
  }

  /** A call on the whole that goes through the last record of a call on a part takes as many steps to it. */
  lemma SameLength(part: Stream, full: Stream, n: nat, path: seq<Ps>, path': seq<Ps>)
    requires Arrived(part, full, n) && Through(part, path) && Through(full, path') && |path| >= 2 && path' != []
    requires path[0] == path'[0] && path[|path| - 1] == path'[|path'| - 1]
    ensures |path'| == |path| && path'[|path| - 2] == path[|path| - 2]
  {
    var m, i := |path| - 1, |path'| - 1;
    SamePath(part, full, n, path, path', if i < m then i else m - 1);
    ThroughRank(part, path, if i < m then i else m, m);
    if i >= m {
      assert NextAt(part, path, m - 1) && NextAt(full, path', m - 1);
      SameStatus(part, full, path[m - 1], path[m], path'[m]);
      ThroughRank(full, path', m, i);
    }
  }

  /** A call on the whole stream goes through the record at which a call on a part has arrived, after one step or more,
      if and only if the received bytes hold all that the last of these steps uses, or the byte behind them is the one
      that arrives. */
  lemma ResumeExact(part: Stream, full: Stream, n: nat, path: seq<Ps>)
    requires Arrived(part, full, n) && Through(part, path) && |path| >= 2
    ensures path[|path| - 2].pos <= n && Busy(path[|path| - 2].status)
    ensures Reaches(full, path[0], path[|path| - 1]) <==>
      Complete(part.bytes[..n], path[|path| - 2]) || full.bytes[n] == part.bytes[n]
  {
    CallExact(part, full, n, path);
    if Reaches(full, path[0], path[|path| - 1]) {
      var path' :| Through(full, path') && path' != [] && path'[0] == path[0]
                   && path'[|path'| - 1] == path[|path| - 1];
      SameLength(part, full, n, path, path');
      assert NextAt(full, path', |path| - 2) && NextAt(part, path, |path| - 2);
      MoveExact(part, full, n, path[|path| - 2], path[|path| - 1]);
    }
  }

  /** And then it ends as a second call does that begins there. */
  lemma ReachesEnds(st: Stream, p: Ps, q: Ps, ret: Ret, r: Ps)
    requires Reaches(st, p, q) && !Over(q) && RunsTo(st, q, ret, r)
    ensures RunsTo(st, p, ret, r)
  {
    var path :| Through(st, path) && path != [] && path[0] == p && path[|path| - 1] == q;
    EndsFrom(st, path, 0, ret, r);
  }

  lemma {:induction false} EndsFrom(st: Stream, path: seq<Ps>, k: nat, ret: Ret, r: Ps)
    requires Through(st, path) && k < |path| && !Over(path[|path| - 1]) && RunsTo(st, path[|path| - 1], ret, r)
    ensures RunsTo(st, path[k], ret, r)
    decreases |path| - k
  {
    if k < |path| - 1 {
      EndsFrom(st, path, k + 1, ret, r);
      assert NextAt(st, path, k);
      if k + 1 < |path| - 1 {
        assert NextAt(st, path, k + 1);
      }
      FirstMove(st, path[k], path[k + 1], ret, r);
    }
  }

  // ---------------------------------------------------------------- the parser object

  class Parser {
    var status: Status
    var cur: Cursor
    var meth: Method
    var bad: bool
    var len1: int
    var len2: int
    var field1: string
    var field2: string

    ghost function State(): Ps
      reads this
    {
      Ps(status, cur.Pos(), meth, bad, len1, len2, field1, field2)
    }

    /** init_parser and init_req_info. */
    constructor ()
      ensures status == NEW && cur == Cursor(0, 0) && !bad && len1 == 0 && len2 == 0
    {
      status, cur := NEW, Cursor(0, 0);
      bad, len1, len2 := false, 0, 0;
      meth, field1, field2 := ADDFILE, "", "";
    }

    /** update_parser_info and update_req_info: the cursor stays. */
    method Reset()
      modifies this
      ensures State() == old(State()).(status := NEW, bad := false, len1 := 0, len2 := 0) && cur == old(cur)
    {
      status, bad, len1, len2 := NEW, false, 0, 0;
    }

    method ParseMethod(ch: Chain) returns (ret: Ret)
      requires ch.Valid() && cur.Ok(ch)
      modifies this
      ensures cur.Ok(ch) && (ret, State()) == MethodStep(ch.Seen(), old(State()))
    {
      var r, next := GetNextField(ch, cur, METHOD_MAX_LEN + 1);
      if r.TooLong? {
        status, bad := ERROR, true;
        return Stop;
      } else if r.More? {
        return if r.why.Segv? then Crash else Stop;
      }
      cur := next;
      var idx := StrMatch(METHOD_LIST, CString(r.text));
      if idx == -1 {
        assert METHOD_LIST[0] in METHOD_LIST && METHOD_LIST[1] in METHOD_LIST;
        status, bad := ERROR, true;
        return Stop;
      }
      meth, status := if idx == 0 then ADDFILE else GETRD, METHOD_DONE;
      ret := Go;
    }

    method ParseLen(ch: Chain) returns (ret: Ret)
      requires ch.Valid() && cur.Ok(ch) && (status == METHOD_DONE || status == FIELD1_DONE)
      modifies this
      ensures cur.Ok(ch) && (ret, State()) == LenStep(ch.Seen(), old(State()))
    {
      var r, next := GetNextField(ch, cur, 10);
      if r.TooLong? {
        status, bad := ERROR, true;
        return Stop;
      } else if r.More? {
        return if r.why.Segv? then Crash else Stop;
      }
      cur := next;
      var num := StrToNum(CString(r.text));
      if num.None? {
        status, bad := ERROR, true;
        return Stop;
      }
      var len := num.value;
      if status == METHOD_DONE {
        len1 := len;
        if len > REQ_FIELD1_MAX_LEN || len <= 0 {
          status, bad := ERROR, true;
          return Stop;
        }
        status := LEN1_DONE;
      } else {
        len2 := len;
        if len > REQ_FIELD2_MAX_LEN || len <= 0 {
          status, bad := ERROR, true;
          return Stop;
        }
        status := LEN2_DONE;
      }
      ret := Go;
    }

    method ParseData(ch: Chain) returns (ret: Ret)
      requires ch.Valid() && cur.Ok(ch) && (status == LEN1_DONE || status == LEN2_DONE) && Due(State()) >= 0
      modifies this
      ensures cur.Ok(ch) && (ret, State()) == DataStep(ch.Seen(), old(State()))
    {
      var len := if status == LEN1_DONE then len1 else len2;
      var r, next := GetBytes(ch, cur, len);
      if r.Failed? {
        return if r.why.Segv? then Crash else Stop;
      }
      var text := CString(r.text);
      cur, ret := next, Go;
      if status == LEN1_DONE {
        field1 := text;
        status := if meth == GETRD then DONE else FIELD1_DONE;
      } else {
        field2, status := text, DONE;
      }
    }

    method Advance(ch: Chain) returns (ret: Ret)
      requires ch.Valid() && cur.Ok(ch) && Busy(status) && Sound(ch.Seen(), State())
      modifies this
      ensures cur.Ok(ch) && (ret, State()) == OneStep(ch.Seen(), old(State()))
    {
      if status == NEW {
        ret := ParseMethod(ch);
      } else if status == METHOD_DONE || status == FIELD1_DONE {
        ret := ParseLen(ch);
      } else {
        ret := ParseData(ch);
      }
    }

    /** One round of parse_req; `more` if there is to be another. */
    method Round(ch: Chain) returns (ret: Ret, more: bool)
      requires ch.Valid() && cur.Ok(ch) && Busy(status) && Sound(ch.Seen(), State())
      modifies this
      ensures cur.Ok(ch) && Sound(ch.Seen(), State())
      ensures more ==>
        Moves(ch.Seen(), old(State()), State()) && Busy(status) && Rank(old(status)) < Rank(status) < Rank(DONE)
      ensures !more ==> Ends(ch.Seen(), old(State()), ret, State())
    {
      StepLaw(ch.Seen(), State());
      ret := Advance(ch);
      more := ret == Go && status != DONE;
    }

    /** parse_req: full is set once a request is complete or wrong. */
    method ParseReq(ch: Chain) returns (crash: bool, full: bool)
      requires ch.Valid() && cur.Ok(ch) && Busy(status) && Sound(ch.Seen(), State())
      modifies this
      ensures cur.Ok(ch) && Sound(ch.Seen(), State()) && full == (status == DONE || status == ERROR)
      ensures exists ret :: RunsTo(ch.Seen(), old(State()), ret, State()) && crash == (ret == Crash)
    {
      ghost var path := [State()];
      ghost var st := ch.Seen();
      var ret, more := Round(ch);
      while more
        invariant cur.Ok(ch) && Sound(st, State()) && (more ==> Busy(status) && Rank(status) < Rank(DONE))
        invariant path != [] && path[0] == old(State())
        invariant forall i {:trigger MoveAt(st, path, i)} :: 0 <= i < |path| - 1 ==> MoveAt(st, path, i)
        invariant if more then Moves(st, path[|path| - 1], State()) else Ends(st, path[|path| - 1], ret, State())
        decreases if more then Rank(DONE) - Rank(status) else 0
      {
        path := Longer(st, path, State());
        ret, more := Round(ch);
      }
      assert IsRun(st, path, ret, State());
      assert RunsTo(st, old(State()), ret, State());
      crash, full := ret == Crash, status == DONE || status == ERROR;
    }
  }

  lemma Longer(st: Stream, path: seq<Ps>, q: Ps) returns (path': seq<Ps>)
    requires path != [] && Moves(st, path[|path| - 1], q) && q.status != DONE
    requires forall i {:trigger MoveAt(st, path, i)} :: 0 <= i < |path| - 1 ==> MoveAt(st, path, i)
    ensures path' == path + [q]
    ensures forall i {:trigger MoveAt(st, path', i)} :: 0 <= i < |path'| - 1 ==> MoveAt(st, path', i)
  {
    path' := path + [q];
    forall i: nat {:trigger MoveAt(st, path', i)} | i < |path'| - 1
      ensures MoveAt(st, path', i)
    {
      assert i < |path| - 1 ==> MoveAt(st, path, i);
    }
  }

  // ---------------------------------------------------------------- printed requests

  datatype Request = GetRd(name: string) | AddFile(name: string, path: string)

  /** What the web server sends. */
  ghost function Print(r: Request): string
  {
    match r
    case GetRd(name) => "GETRD " + Counted(name)
    case AddFile(name, path) => "ADDFILE " + (Counted(name) + (" " + Counted(path)))
  }

  /** Length, space, text. */
  ghost function Counted(s: string): string
  {
    Digits(|s|) + " " + s
  }

  ghost function PrintAll(rs: seq<Request>): string
  {
    if rs == [] then "" else Print(rs[0]) + PrintAll(rs[1..])
  }

  ghost predicate FieldFits(s: string, max: nat)
  {
    0 < |s| <= max && 0 as char !in s
  }

  ghost predicate Fits(r: Request)
  {
    FieldFits(r.name, REQ_FIELD1_MAX_LEN) && (r.AddFile? ==> FieldFits(r.path, REQ_FIELD2_MAX_LEN))
  }

  /** The request in the parser's record. */
  function RequestOf(p: Ps): Request
  {
    if p.meth == GETRD then GetRd(p.field1) else AddFile(p.field1, p.field2)
  }

  // ---------------------------------------------------------------- reading back what was printed

  /** `text` stands at `pos`, and not at the very end. */
  ghost predicate Stands(st: Stream, pos: nat, text: string)
  {
    pos + |text| < |st.bytes| && st.bytes[pos..pos + |text|] == text
  }

  lemma StandsParts(st: Stream, pos: nat, a: string, b: string)
    ensures Stands(st, pos, a + b) <==> Stands(st, pos, a) && Stands(st, pos + |a|, b)
  {
    if pos + |a| + |b| < |st.bytes| {
      SplitSlice(st.bytes, pos, a, b);
    }
  }

  lemma SplitSlice(s: string, pos: nat, a: string, b: string)
    requires pos + |a| + |b| <= |s|
    ensures s[pos..pos + |a + b|] == a + b <==> s[pos..pos + |a|] == a && s[pos + |a|..pos + |a| + |b|] == b
  {
    var t := s[pos..pos + |a + b|];
    assert t[..|a|] == s[pos..pos + |a|] && t[|a|..] == s[pos + |a|..pos + |a| + |b|];
    assert t == t[..|a|] + t[|a|..];
    assert (a + b)[..|a|] == a && (a + b)[|a|..] == b;
  }

  lemma SeenAt(st: Stream, pos: nat, text: string)
    requires Stands(st, pos, text)
    ensures pos + |text| < |st.bytes| && forall i :: 0 <= i < |text| ==> st.bytes[pos + i] == text[i]
  {
    forall i | 0 <= i < |text|
      ensures st.bytes[pos + i] == text[i]
    {
      assert st.bytes[pos..pos + |text|][i] == text[i];
    }
  }

  lemma {:induction false} NextSpaceIs(s: string, pos: nat, e: nat)
    requires pos <= e < |s| && s[e] == ' ' && forall i :: pos <= i < e ==> s[i] != ' '
    ensures NextSpace(s, pos) == e
    decreases e - pos
  {
    if pos < e {
      NextSpaceIs(s, pos + 1, e);
    }
  }

  /** A word that a space ends is read as it stands, behind a space or not. */
  lemma WordAt(st: Stream, pos: nat, word: string, size: nat)
    requires 0 < |word| < size && ' ' !in word && Stands(st, pos, word + " ")
    ensures FieldAt(st, pos, size) == (Field(word), pos + |word| + 1)
  {
    var s := st.bytes;
    SeenAt(st, pos, word + " ");
    assert forall i :: 0 <= i < |word| ==> s[pos + i] == word[i] && word[i] != ' ';
    assert s[pos + 0] != ' ' && s[pos + |word|] == ' ';
    assert forall i :: pos + 1 <= i < pos + |word| ==> s[i] == word[i - pos];
    NextSpaceIs(s, pos + 1, pos + |word|);
    assert s[pos..pos + |word|] == word;
  }

  lemma SpaceBefore(st: Stream, pos: nat, word: string, size: nat)
    requires 0 < |word| < size && ' ' !in word && Stands(st, pos, " " + (word + " "))
    ensures FieldAt(st, pos, size) == (Field(word), pos + |word| + 2)
  {
    StandsParts(st, pos, " ", word + " ");
    SeenAt(st, pos, " ");
    assert st.bytes[pos + 0] == ' ';
    WordAt(st, pos + 1, word, size);
    assert SkipSpaces(st.bytes, pos) == SkipSpaces(st.bytes, pos + 1);
  }

  lemma TextAt(st: Stream, pos: nat, text: string)
    requires Stands(st, pos, text)
    ensures BytesAt(st, pos, |text|) == Bytes(text)
  {
    SeenAt(st, pos, text);
    assert st.bytes[pos..pos + |text|] == text;
  }

  /** A word is read, behind a space or not. */
  lemma WordOrSpace(st: Stream, pos: nat, word: string, lead: string)
    requires 0 < |word| < 10 && ' ' !in word && (lead == "" || lead == " ") && Stands(st, pos, lead + (word + " "))
    ensures FieldAt(st, pos, 10) == (Field(word), pos + |lead| + |word| + 1)
  {
    if lead == "" {
      assert lead + (word + " ") == word + " ";
      WordAt(st, pos, word, 10);
    } else {
      SpaceBefore(st, pos, word, 10);
    }
  }

  lemma LenMoves(st: Stream, p: Ps, len: nat, word: string, next: nat)
    requires (p.status == METHOD_DONE || p.status == FIELD1_DONE) && Sound(st, p)
    requires 0 < len <= if p.status == METHOD_DONE then REQ_FIELD1_MAX_LEN else REQ_FIELD2_MAX_LEN
    requires FieldAt(st, p.pos, 10) == (Field(word), next) && CString(word) == word && StrToNum(word) == Some(len)
    ensures Moves(st, p, AfterLen(p, len, next))
  {
    StepLaw(st, p);
  }

  function AfterLen(p: Ps, len: nat, next: nat): Ps
  {
    if p.status == METHOD_DONE then p.(pos := next, len1 := len, status := LEN1_DONE)
    else p.(pos := next, len2 := len, status := LEN2_DONE)
  }

  function AfterText(p: Ps, text: string): Ps
  {
    if p.status == LEN2_DONE then p.(pos := p.pos + |text|, field2 := text, status := DONE)
    else p.(pos := p.pos + |text|, field1 := text, status := if p.meth == GETRD then DONE else FIELD1_DONE)
  }

  lemma TextMoves(st: Stream, p: Ps, text: string)
    requires (p.status == LEN1_DONE || p.status == LEN2_DONE) && Sound(st, p) && Due(p) == |text| && 0 as char !in text
    requires BytesAt(st, p.pos, |text|) == Bytes(text)
    ensures Moves(st, p, AfterText(p, text))
  {
    CStringSame(text);
    StepLaw(st, p);
  }

  /** Length and text of a field that stand in the stream; `word` is the printed length. */
  lemma CountedAt(st: Stream, pos: nat, text: string, lead: string, word: string)
    requires 0 < |word| < 10 && ' ' !in word && (lead == "" || lead == " ")
    requires Stands(st, pos, lead + ((word + " ") + text))
    ensures var next := pos + |lead| + |word| + 1;
      && FieldAt(st, pos, 10) == (Field(word), next) && BytesAt(st, next, |text|) == Bytes(text)
      && next + |text| <= |st.bytes|
  {
    CountedParts(st, pos, text, lead, word);
    WordOrSpace(st, pos, word, lead);
    TextAt(st, pos + |lead| + |word| + 1, text);
  }

  lemma CountedParts(st: Stream, pos: nat, text: string, lead: string, word: string)
    requires Stands(st, pos, lead + ((word + " ") + text))
    ensures Stands(st, pos, lead + (word + " ")) && Stands(st, pos + |lead| + |word| + 1, text)
  {
    var head := lead + (word + " ");
    assert lead + ((word + " ") + text) == head + text;
    StandsParts(st, pos, head, text);
  }

  /** At `pos` the parser reads the length of `text`, which stands behind it at `a`. */
  ghost predicate Shown(st: Stream, pos: nat, text: string, w: string, a: nat)
  {
    && pos <= |st.bytes| && FieldAt(st, pos, 10) == (Field(w), a) && CString(w) == w && StrToNum(w) == Some(|text|)
    && BytesAt(st, a, |text|) == Bytes(text)
  }

  /** A word that the parser takes for the number n. */
  ghost predicate Numeral(w: string, n: nat)
  {
    0 < |w| < 10 && ' ' !in w && CString(w) == w && StrToNum(w) == Some(n)
  }

  lemma DigitsNumeral(n: nat)
    requires n < 1000
    ensures Numeral(Digits(n), n)
  {
    DigitsLaw(n);
    CStringSame(Digits(n));
  }

  lemma ShownAt(st: Stream, pos: nat, text: string, lead: string) returns (w: string, a: nat)
    requires 0 < |text| < 1000 && (lead == "" || lead == " ") && Stands(st, pos, lead + Counted(text))
    ensures Shown(st, pos, text, w, a) && a + |text| == pos + |lead| + |Counted(text)|
  {
    w := Digits(|text|);
    DigitsNumeral(|text|);
    a := pos + |lead| + |w| + 1;
    NumeralAt(st, pos, text, lead, w, a);
  }

  lemma NumeralAt(st: Stream, pos: nat, text: string, lead: string, w: string, a: nat)
    requires Numeral(w, |text|) && (lead == "" || lead == " ") && Stands(st, pos, lead + ((w + " ") + text))
    requires a == pos + |lead| + |w| + 1
    ensures Shown(st, pos, text, w, a)
  {
    CountedAt(st, pos, text, lead, w);
  }

  ghost function Word(meth: Method): string
  {
    if meth == GETRD then "GETRD" else "ADDFILE"
  }

  lemma MethodAt(st: Stream, pos: nat, meth: Method)
    requires Stands(st, pos, Word(meth) + " ")
    ensures FieldAt(st, pos, METHOD_MAX_LEN + 1) == (Field(Word(meth)), pos + |Word(meth)| + 1)
  {
    WordAt(st, pos, Word(meth), METHOD_MAX_LEN + 1);
  }

  /** The record behind the method. */
  function AfterMethod(p: Ps, meth: Method, next: nat): Ps
  {
    p.(pos := next, status := METHOD_DONE, meth := meth)
  }

  /** The record behind a counted field. */
  function AfterField(p: Ps, text: string, end: nat): Ps
  {
    if p.status == METHOD_DONE then
      p.(pos := end, len1 := |text|, field1 := text, status := if p.meth == GETRD then DONE else FIELD1_DONE)
    else p.(pos := end, len2 := |text|, field2 := text, status := DONE)
  }

  lemma MethodThen(st: Stream, p: Ps, meth: Method, next: nat, ret: Ret, r: Ps)
    requires p.status == NEW && Sound(st, p) && Stands(st, p.pos, Word(meth) + " ") && next == p.pos + |Word(meth)| + 1
    requires RunsTo(st, AfterMethod(p, meth, next), ret, r)
    ensures RunsTo(st, p, ret, r)
  {
    MethodMoves(st, p, meth, next);
    FirstMove(st, p, AfterMethod(p, meth, next), ret, r);
  }

  lemma MethodMoves(st: Stream, p: Ps, meth: Method, next: nat)
    requires p.status == NEW && Sound(st, p) && Stands(st, p.pos, Word(meth) + " ") && next == p.pos + |Word(meth)| + 1
    ensures Moves(st, p, AfterMethod(p, meth, next))
  {
    MethodAt(st, p.pos, meth);
    CStringSame(Word(meth));
    MethodRead(st, p, meth, next);
  }

  lemma MethodRead(st: Stream, p: Ps, meth: Method, next: nat)
    requires p.status == NEW && Sound(st, p) && next <= |st.bytes| && CString(Word(meth)) == Word(meth)
    requires FieldAt(st, p.pos, METHOD_MAX_LEN + 1) == (Field(Word(meth)), next)
    ensures Moves(st, p, AfterMethod(p, meth, next))
  {
  }

  ghost predicate FieldDue(p: Ps, text: string)
  {
    || (p.status == METHOD_DONE && FieldFits(text, REQ_FIELD1_MAX_LEN))
    || (p.status == FIELD1_DONE && FieldFits(text, REQ_FIELD2_MAX_LEN))
  }

  lemma FieldMoves(st: Stream, p: Ps, text: string, w: string, a: nat, end: nat)
    requires FieldDue(p, text) && Sound(st, p) && Shown(st, p.pos, text, w, a) && end == a + |text|
    ensures Moves(st, p, AfterLen(p, |text|, a)) && AfterLen(p, |text|, a).status != DONE
    ensures Moves(st, AfterLen(p, |text|, a), AfterField(p, text, end))
  {
    LenMoves(st, p, |text|, w, a);
    AfterBoth(p, text, a);
    TextMoves(st, AfterLen(p, |text|, a), text);
  }

  lemma AfterBoth(p: Ps, text: string, a: nat)
    requires FieldDue(p, text)
    ensures var q := AfterLen(p, |text|, a);
      && (q.status == LEN1_DONE || q.status == LEN2_DONE) && q.pos == a && Due(q) == |text| && 0 as char !in text
      && AfterText(q, text) == AfterField(p, text, a + |text|)
  {
  }

  /** A counted field is read in two steps. */
  lemma FieldRead(st: Stream, p: Ps, text: string, lead: string, end: nat) returns (q: Ps)
    requires FieldDue(p, text) && Sound(st, p) && (lead == "" || lead == " ") && Stands(st, p.pos, lead + Counted(text))
    requires end == p.pos + |lead| + |Counted(text)|
    ensures Moves(st, p, q) && q.status != DONE && Moves(st, q, AfterField(p, text, end))
  {
    var w, a := ShownAt(st, p.pos, text, lead);
    FieldMoves(st, p, text, w, a, end);
    q := AfterLen(p, |text|, a);
  }

  lemma FieldThen(st: Stream, p: Ps, text: string, lead: string, end: nat, ret: Ret, r: Ps)
    requires FieldDue(p, text) && Sound(st, p) && (lead == "" || lead == " ") && Stands(st, p.pos, lead + Counted(text))
    requires end == p.pos + |lead| + |Counted(text)| && AfterField(p, text, end).status != DONE
    requires RunsTo(st, AfterField(p, text, end), ret, r)
    ensures RunsTo(st, p, ret, r)
  {
    var q := FieldRead(st, p, text, lead, end);
    FirstMove(st, q, AfterField(p, text, end), ret, r);
    FirstMove(st, p, q, ret, r);
  }

  lemma LastField(st: Stream, p: Ps, text: string, lead: string, end: nat)
    requires FieldDue(p, text) && Sound(st, p) && (lead == "" || lead == " ") && Stands(st, p.pos, lead + Counted(text))
    requires end == p.pos + |lead| + |Counted(text)| && AfterField(p, text, end).status == DONE
    ensures RunsTo(st, p, Go, AfterField(p, text, end))
  {
    var q := FieldRead(st, p, text, lead, end);
    LastMove(st, q, AfterField(p, text, end));
    FirstMove(st, p, q, Go, AfterField(p, text, end));
  }

  /** The record after a request. */
  ghost function Parsed(p: Ps, r: Request, next: nat): Ps
  {
    var q := p.(pos := next, len1 := |r.name|, field1 := r.name, status := DONE);
    match r
    case GetRd(_) => q.(meth := GETRD)
    case AddFile(_, path) => q.(meth := ADDFILE, len2 := |path|, field2 := path)
  }

  lemma GetRdParts(st: Stream, pos: nat, name: string)
    requires Stands(st, pos, Print(GetRd(name)))
    ensures Stands(st, pos, Word(GETRD) + " ") && Stands(st, pos + 6, "" + Counted(name))
    ensures |Print(GetRd(name))| == 6 + |Counted(name)|
  {
    StandsParts(st, pos, "GETRD ", Counted(name));
    assert "" + Counted(name) == Counted(name);
  }

  lemma GetRdParsed(st: Stream, p: Ps, name: string, next: nat)
    requires p.status == NEW && Sound(st, p) && Fits(GetRd(name)) && Stands(st, p.pos, Print(GetRd(name)))
    requires next == p.pos + |Print(GetRd(name))|
    ensures RunsTo(st, p, Go, Parsed(p, GetRd(name), next))
  {
    GetRdParts(st, p.pos, name);
    LastField(st, AfterMethod(p, GETRD, p.pos + 6), name, "", next);
    MethodThen(st, p, GETRD, p.pos + 6, Go, AfterField(AfterMethod(p, GETRD, p.pos + 6), name, next));
  }

  lemma AddFileParts(st: Stream, pos: nat, name: string, path: string)
    requires Stands(st, pos, Print(AddFile(name, path)))
    ensures Stands(st, pos, Word(ADDFILE) + " ") && Stands(st, pos + 8, "" + Counted(name))
    ensures Stands(st, pos + 8 + |Counted(name)|, " " + Counted(path))
    ensures |Print(AddFile(name, path))| == 9 + |Counted(name)| + |Counted(path)|
  {
    StandsParts(st, pos, "ADDFILE ", Counted(name) + (" " + Counted(path)));
    StandsParts(st, pos + 8, Counted(name), " " + Counted(path));
    assert "" + Counted(name) == Counted(name);
  }

  lemma AddFileParsed(st: Stream, p: Ps, name: string, path: string, next: nat)
    requires p.status == NEW && Sound(st, p) && Fits(AddFile(name, path))
    requires Stands(st, p.pos, Print(AddFile(name, path)))
    requires next == p.pos + |Print(AddFile(name, path))|
    ensures RunsTo(st, p, Go, Parsed(p, AddFile(name, path), next))
  {
    AddFileParts(st, p.pos, name, path);
    var p1 := AfterMethod(p, ADDFILE, p.pos + 8);
    var p2 := AfterField(p1, name, p1.pos + |Counted(name)|);
    LastField(st, p2, path, " ", next);
    FieldThen(st, p1, name, "", p2.pos, Go, AfterField(p2, path, next));
    MethodThen(st, p, ADDFILE, p1.pos, Go, AfterField(p2, path, next));
  }

  /** A printed request is parsed back, and the cursor ends up right behind it. */
  lemma ParsesBack(st: Stream, p: Ps, r: Request, next: nat)
    requires p.status == NEW && Sound(st, p) && Fits(r) && Stands(st, p.pos, Print(r)) && next == p.pos + |Print(r)|
    ensures RunsTo(st, p, Go, Parsed(p, r, next)) && RequestOf(Parsed(p, r, next)) == r
  {
    match r
    case GetRd(name) => GetRdParsed(st, p, name, next);
    case AddFile(name, path) => AddFileParsed(st, p, name, path, next);
  }

  /** Between requests the parser waits without moving; where the received bytes fill their block up to its last
      byte it follows a null pointer instead. */
  lemma WaitsIdle(st: Stream, p: Ps)
    requires p.status == NEW && p.pos == |st.bytes| - 1
    ensures RunsTo(st, p, if st.behind.Segv? then Crash else Stop, p)
  {
    assert IsRun(st, [p], if st.behind.Segv? then Crash else Stop, p);
  }

  // ---------------------------------------------------------------- a whole stream

  /** Where request k of a stream of printed requests starts. */
  ghost function Start(rs: seq<Request>, k: nat): nat
    requires k <= |rs|
  {
    if k == 0 then 0 else Start(rs, k - 1) + |Print(rs[k - 1])|
  }

  lemma {:induction false} RestAt(data: string, rs: seq<Request>, k: nat)
    requires data == PrintAll(rs) && k <= |rs|
    ensures Start(rs, k) <= |data| && data[Start(rs, k)..] == PrintAll(rs[k..])
    decreases k
  {
    if k == 0 {
      assert rs[0..] == rs;
    } else {
      RestAt(data, rs, k - 1);
      RestNext(data, rs, k);
    }
  }

  lemma RestNext(data: string, rs: seq<Request>, k: nat)
    requires 0 < k <= |rs| && Start(rs, k - 1) <= |data| && data[Start(rs, k - 1)..] == PrintAll(rs[k - 1..])
    ensures Start(rs, k) <= |data| && data[Start(rs, k)..] == PrintAll(rs[k..])
  {
    RestStep(rs, k);
    DropFirst(data, Start(rs, k - 1), Print(rs[k - 1]), PrintAll(rs[k..]));
  }

  lemma RestStep(rs: seq<Request>, k: nat)
    requires 0 < k <= |rs|
    ensures PrintAll(rs[k - 1..]) == Print(rs[k - 1]) + PrintAll(rs[k..])
  {
    assert rs[k - 1..][1..] == rs[k..];
  }

  lemma DropFirst(data: string, at: nat, text: string, rest: string)
    requires at <= |data| && data[at..] == text + rest
    ensures at + |text| <= |data| && data[at + |text|..] == rest
  {
    assert data[at..][|text|..] == data[at + |text|..];
  }

  lemma StandsFirst(ch: Chain, pos: nat, text: string, rest: string)
    requires pos <= |ch.data| && ch.data[pos..] == text + rest
    ensures Stands(ch.Seen(), pos, text)
  {
    var d, n := ch.data, |text|;
    assert d[pos..][..n] == d[pos..pos + n];
    assert ch.Seen().bytes[pos..pos + n] == d[pos..pos + n];
  }

  lemma RequestStands(ch: Chain, rs: seq<Request>, k: nat)
    requires ch.data == PrintAll(rs) && k < |rs|
    ensures Stands(ch.Seen(), Start(rs, k), Print(rs[k]))
  {
    RestAt(ch.data, rs, k);
    StandsFirst(ch, Start(rs, k), Print(rs[k]), PrintAll(rs[k..][1..]));
  }

  lemma AllRead(data: string, rs: seq<Request>)
    requires data == PrintAll(rs)
    ensures Start(rs, |rs|) == |data|
  {
    RestAt(data, rs, |rs|);
  }

  /** What parse_req comes to in such a stream. */
  lemma RequestRun(ch: Chain, p: Ps, rs: seq<Request>, k: nat, ret: Ret, q: Ps)
    requires p.status == NEW && ch.data == PrintAll(rs) && k < |rs| && p.pos == Start(rs, k) && Fits(rs[k])
    requires RunsTo(ch.Seen(), p, ret, q)
    ensures ret == Go && q.status == DONE && RequestOf(q) == rs[k] && q.pos == Start(rs, k + 1)
  {
    RequestStands(ch, rs, k);
    ParsesBack(ch.Seen(), p, rs[k], Start(rs, k + 1));
    SameRun(ch.Seen(), p, ret, q, Go, Parsed(p, rs[k], Start(rs, k + 1)));
  }

  lemma IdleRun(ch: Chain, p: Ps, ret: Ret, q: Ps)
    requires p.status == NEW && p.pos == |ch.data| && RunsTo(ch.Seen(), p, ret, q)
    ensures ret == (if ch.Seen().behind.Segv? then Crash else Stop) && q == p
  {
    var st := ch.Seen();
    WaitsIdle(st, p);
    SameRun(st, p, ret, q, if st.behind.Segv? then Crash else Stop, p);
  }

  /** One call of parse_req in such a stream, and what process_write does with its outcome. */
  method ServeOne(ch: Chain, parser: Parser, ghost rs: seq<Request>, ghost k: nat) returns (crash: bool, full: bool,
          r: Request)
    requires ch.Valid() && parser.status == NEW && parser.cur.Ok(ch) && ch.data == PrintAll(rs)
    requires k <= |rs| && parser.cur.Pos() == Start(rs, k) && forall i :: 0 <= i < |rs| ==> Fits(rs[i])
    modifies parser
    ensures parser.status == NEW && parser.cur.Ok(ch)
    ensures if k < |rs| then full && !crash && r == rs[k] && parser.cur.Pos() == Start(rs, k + 1)
            else !full && crash == ch.Seen().behind.Segv? && parser.cur.Pos() == |ch.data|
  {
    ghost var p := parser.State();
    crash, full := parser.ParseReq(ch);
    ghost var ret :| RunsTo(ch.Seen(), p, ret, parser.State()) && crash == (ret == Crash);
    if k < |rs| {
      RequestRun(ch, p, rs, k, ret, parser.State());
    } else {
      AllRead(ch.data, rs);
      IdleRun(ch, p, ret, parser.State());
    }
    r := if parser.meth == GETRD then GetRd(parser.field1) else AddFile(parser.field1, parser.field2);
    if full {
      parser.Reset();
    }
  }

  lemma OneMore(out: seq<Request>, rs: seq<Request>)
    requires |out| < |rs| && out == rs[..|out|]
    ensures out + [rs[|out|]] == rs[..|out| + 1]
  {
  }

  lemma {:induction false} StartGrows(rs: seq<Request>, k: nat)
    requires 0 < k <= |rs|
    ensures Start(rs, 1) <= Start(rs, k)
    decreases k
  {
    if k > 1 {
      StartGrows(rs, k - 1);
    }
  }

  /** The next read is from a block that update_clnt_info has freed: it frees all blocks but the one that is being
      filled, whether they have been read or not. */
  predicate Dangles(ch: Chain, cur: Cursor)
  {
    cur.node < |ch.blocks| - 1
  }

  lemma DanglesFrom(ch: Chain, cur: Cursor)
    requires ch.Valid() && cur.Ok(ch)
    ensures Dangles(ch, cur) <==> cur.Pos() / BUFBLK_SIZE < |ch.data| / BUFBLK_SIZE
  {
    Place(ch, cur);
    assert |ch.data| / BUFBLK_SIZE == |ch.blocks| - 1;
    assert cur.Pos() / BUFBLK_SIZE == cur.node;
  }

  lemma DanglesLater(ch: Chain, cur: Cursor, rs: seq<Request>, k: nat)
    requires ch.Valid() && cur.Ok(ch) && 0 < k <= |rs| && cur.Pos() == Start(rs, k)
    ensures k == 1 ==> (Dangles(ch, cur) <==> FreedEarly(ch, rs))
    ensures Dangles(ch, cur) ==> FreedEarly(ch, rs)
  {
    DanglesFrom(ch, cur);
    StartGrows(rs, k);
  }

  /** The first request ends before the last block begins. */
  ghost predicate FreedEarly(ch: Chain, rs: seq<Request>)
  {
    rs != [] && Start(rs, 1) / BUFBLK_SIZE < |ch.data| / BUFBLK_SIZE
  }

  /** The web server's requests, sent one behind the other and stored in blocks, are read back exactly, one for each
      call of parse_req, if the bytes in freed blocks still stand there; and a freed block is read from, or about to
      be, exactly if the first request ends before the last block begins. The call after the last request waits, or
      crashes exactly if the stream leaves one byte of its last block free. */
  method ServeAll(ch: Chain, parser: Parser, ghost rs: seq<Request>)
    returns (out: seq<Request>, crash: bool, dangling: bool)
    requires ch.Valid() && parser.status == NEW && parser.cur.Pos() == 0 && parser.cur.Ok(ch)
    requires ch.data == PrintAll(rs) && forall i :: 0 <= i < |rs| ==> Fits(rs[i])
    modifies parser
    ensures out == rs && (crash <==> |ch.data| % BUFBLK_SIZE == BUFBLK_SIZE - 1)
    ensures dangling <==> FreedEarly(ch, rs)
    ensures parser.cur.Pos() == |ch.data| && parser.status == NEW
  {
    out := [];
    var full := true;
    crash, dangling := false, false;
    while full
      invariant parser.status == NEW && parser.cur.Ok(ch) && |out| <= |rs| && out == rs[..|out|]
      invariant dangling <==> out != [] && FreedEarly(ch, rs)
      invariant if full then parser.cur.Pos() == Start(rs, |out|)
                else |out| == |rs| && crash == ch.Seen().behind.Segv? && parser.cur.Pos() == |ch.data|
      decreases |rs| - |out|, full
    {
      var r;
      crash, full, r := ServeOne(ch, parser, rs, |out|);
      if full {
        OneMore(out, rs);
        out := out + [r];
        DanglesLater(ch, parser.cur, rs, |out|);
        dangling := dangling || Dangles(ch, parser.cur);
      }
    }
  }
}
