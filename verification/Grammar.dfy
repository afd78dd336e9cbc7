/** Which bytes parse_req takes for a request, and which it rejects (src/parser.c:42-234, src/buf_ctrl.c:71-117,
    src/str_helper.c:9-31). The bytes are described without the steps of the parser. */
module Grammars {
  import opened HashTables
  import opened Buffers
  import opened Parsing

  // ---------------------------------------------------------------- words

  /** The first word at or behind pos, from a to the space at e. */
  ghost predicate WordSpan(s: string, pos: nat, a: nat, e: nat)
  {
    && pos <= a < e < |s| && (forall i :: pos <= i < a ==> s[i] == ' ')
    && (forall i :: a <= i < e ==> s[i] != ' ') && s[e] == ' '
  }

  /** t is what stands in w in front of the first NUL. */
  ghost predicate Cut(w: string, t: string)
  {
    t <= w && 0 as char !in t && (t == w || w[|t|] == 0 as char)
  }

  /** A word of fewer than `size` characters stands there, which reads t, and behind its space is `next`. */
  ghost predicate Reads(s: string, pos: nat, size: nat, t: string, next: nat)
  {
    exists a: nat, e: nat :: WordSpan(s, pos, a, e) && e - a < size && Cut(s[a..e], t) && next == e + 1
  }

  /** A word of at least `size` characters stands there. */
  ghost predicate Overlong(s: string, pos: nat, size: nat)
  {
    exists a: nat :: SpacesTo(s, pos, a) && a + size < |s| && forall i :: a <= i < a + size ==> s[i] != ' '
  }

  ghost predicate SpacesTo(s: string, pos: nat, a: nat)
  {
    pos <= a <= |s| && forall i :: pos <= i < a ==> s[i] == ' '
  }

  lemma {:induction false} CutIs(w: string)
    ensures Cut(w, CString(w))
  {
    if w != "" && w[0] != 0 as char {
      CutIs(w[1..]);
      assert w == [w[0]] + w[1..];
    }
  }

  lemma {:induction false} CutOnly(w: string, t: string)
    requires Cut(w, t)
    ensures CString(w) == t
  {
    if t != "" {
      assert t[0] == w[0] && t[0] in t;
      assert t[1..] <= w[1..] && t == [t[0]] + t[1..];
      CutOnly(w[1..], t[1..]);
    }
  }

  lemma {:induction false} SkipTo(s: string, pos: nat, a: nat)
    requires SpacesTo(s, pos, a) && a < |s| && s[a] != ' '
    ensures SkipSpaces(s, pos) == a
    decreases a - pos
  {
    if pos < a {
      SkipTo(s, pos + 1, a);
    }
  }

  lemma {:induction false} SkipIs(s: string, pos: nat)
    requires pos <= |s|
    ensures SpacesTo(s, pos, SkipSpaces(s, pos))
    decreases |s| - pos
  {
    if pos < |s| && s[pos] == ' ' {
      SkipIs(s, pos + 1);
    }
  }

  lemma SpanIsField(st: Stream, pos: nat, size: nat, a: nat, e: nat)
    requires WordSpan(st.bytes, pos, a, e) && e - a < size
    ensures FieldAt(st, pos, size) == (Field(st.bytes[a..e]), e + 1)
  {
    SkipTo(st.bytes, pos, a);
    NextSpaceIs(st.bytes, a + 1, e);
  }

  lemma FieldIsSpan(st: Stream, pos: nat, size: nat) returns (a: nat, e: nat)
    requires pos <= |st.bytes| && FieldAt(st, pos, size).0.Field?
    ensures WordSpan(st.bytes, pos, a, e) && e - a < size && FieldAt(st, pos, size) == (Field(st.bytes[a..e]), e + 1)
  {
    a, e := SkipSpaces(st.bytes, pos), FieldAt(st, pos, size).1 - 1;
    SkipIs(st.bytes, pos);
    NextSpaceFirst(st.bytes, a + 1);
  }

  /** The reader finds exactly these words. */
  lemma ReadsExactly(st: Stream, pos: nat, size: nat, t: string, next: nat)
    requires pos <= |st.bytes| && size > 0
    ensures Reads(st.bytes, pos, size, t, next) <==>
      var r := FieldAt(st, pos, size); r.0.Field? && CString(r.0.text) == t && r.1 == next
  {
    hide FieldAt;
    if a: nat, e: nat :| WordSpan(st.bytes, pos, a, e) && e - a < size && Cut(st.bytes[a..e], t) && next == e + 1 {
      SpanIsField(st, pos, size, a, e);
      CutOnly(st.bytes[a..e], t);
    } else if FieldAt(st, pos, size).0.Field? {
      var a, e := FieldIsSpan(st, pos, size);
      CutIs(st.bytes[a..e]);
    }
  }

  lemma OverlongExactly(st: Stream, pos: nat, size: nat)
    requires pos <= |st.bytes| && size > 0
    ensures Overlong(st.bytes, pos, size) <==> FieldAt(st, pos, size).0.TooLong?
  {
    var s := st.bytes;
    if a: nat :| SpacesTo(s, pos, a) && a + size < |s| && forall i :: a <= i < a + size ==> s[i] != ' ' {
      SkipTo(s, pos, a);
      assert NextSpace(s, a + 1) < |s| ==> NextSpace(s, a + 1) >= a + size;
    } else if FieldAt(st, pos, size).0.TooLong? {
      var a := SkipSpaces(s, pos);
      SkipIs(s, pos);
      NextSpaceFirst(s, a + 1);
    }
  }

  // ---------------------------------------------------------------- numbers

  ghost function Tens(n: nat): nat
  {
    if n == 0 then 1 else 10 * Tens(n - 1)
  }

  /** The value of a row of decimal digits. */
  ghost function Decimal(d: string): int
  {
    if d == "" then 0 else (d[0] as int - '0' as int) * Tens(|d| - 1) + Decimal(d[1..])
  }

  /** White space up to i, a sign or none up to j, and digits. */
  ghost predicate NumberParts(t: string, v: int, i: nat, j: nat)
  {
    && i <= j < |t| && (forall k :: 0 <= k < i ==> t[k] == ' ' || 9 <= t[k] as int <= 13)
    && (forall k :: j <= k < |t| ==> '0' <= t[k] <= '9')
    && ((j == i && v == Decimal(t[j..])) || (j == i + 1 && t[i] == '+' && v == Decimal(t[j..]))
        || (j == i + 1 && t[i] == '-' && v == -Decimal(t[j..])))
  }

  ghost predicate Number(t: string, v: int)
  {
    exists i: nat, j: nat :: NumberParts(t, v, i, j)
  }

  lemma {:induction false} DecimalLast(d: string, c: char)
    ensures Decimal(d + [c]) == 10 * Decimal(d) + (c as int - '0' as int)
  {
    if d == "" {
      assert [c][1..] == "" && "" + [c] == [c];
    } else {
      DecimalLast(d[1..], c);
      assert (d + [c])[1..] == d[1..] + [c];
      assert Tens(|d|) == 10 * Tens(|d| - 1);
    }
  }

  lemma {:induction false} ValueIs(d: string)
    requires AllDigits(d)
    ensures Value(d) == Decimal(d)
  {
    if d != "" {
      var last := |d| - 1;
      ValueIs(d[..last]);
      DecimalLast(d[..last], d[last]);
      assert d[..last] + [d[last]] == d;
    }
  }

  lemma {:induction false} NumStartIs(t: string, i: nat, k: nat)
    requires k <= i < |t| && t[i] != ' ' && !(9 as char <= t[i] <= 13 as char)
    requires forall j :: k <= j < i ==> t[j] == ' ' || 9 <= t[j] as int <= 13
    ensures NumStart(t, k) == i
    decreases i - k
  {
    if k < i {
      NumStartIs(t, i, k + 1);
    }
  }

  lemma {:induction false} NumStartSkips(t: string, k: nat)
    requires k <= |t|
    ensures forall j :: k <= j < NumStart(t, k) ==> t[j] == ' ' || 9 <= t[j] as int <= 13
    decreases |t| - k
  {
    if k < |t| && (t[k] == ' ' || 9 as char <= t[k] <= 13 as char) {
      NumStartSkips(t, k + 1);
    }
  }

  /** str_to_num takes exactly these strings for numbers. */
  lemma NumberExactly(t: string, v: int)
    ensures Number(t, v) <==> StrToNum(t) == Some(v)
  {
    if i: nat, j: nat :| NumberParts(t, v, i, j) {
      assert '0' <= t[j] <= '9';
      NumStartIs(t, i, 0);
      ValueIs(t[j..]);
    } else if StrToNum(t) == Some(v) {
      var i := NumStart(t, 0);
      NumStartSkips(t, 0);
      var j := if i < |t| && (t[i] == '-' || t[i] == '+') then i + 1 else i;
      ValueIs(t[j..]);
      forall k | j <= k < |t|
        ensures '0' <= t[k] <= '9'
      {
        assert IsDigit(t[j..][k - j]);
      }
      assert NumberParts(t, v, i, j);
    }
  }

  // ---------------------------------------------------------------- fields

  /** A length from 1 to max stands there. */
  ghost predicate LenAt(s: string, pos: nat, max: nat, n: int, next: nat)
  {
    1 <= n <= max && exists t :: Reads(s, pos, 10, t, next) && Number(t, n)
  }

  /** A word of ten characters or more, or one that is no such length. */
  ghost predicate BadLen(s: string, pos: nat, max: nat)
  {
    || Overlong(s, pos, 10)
    || exists t, next :: Reads(s, pos, 10, t, next) && forall n :: Number(t, n) ==> n < 1 || n > max
  }

  /** A length n, a space, and n bytes up to `end`, which read `text`. */
  ghost predicate FieldFrom(s: string, pos: nat, max: nat, text: string, n: int, end: nat)
  {
    exists x: nat :: LenAt(s, pos, max, n, x) && end == x + n <= |s| && Cut(s[x..end], text)
  }

  // ---------------------------------------------------------------- requests

  ghost predicate GetAt(s: string, pos: nat, name: string, end: nat)
  {
    exists x: nat, n :: Reads(s, pos, 8, "GETRD", x) && FieldFrom(s, x, 9, name, n, end)
  }

  ghost predicate AddAt(s: string, pos: nat, name: string, path: string, end: nat)
  {
    exists x: nat, n, y: nat, m ::
      Reads(s, pos, 8, "ADDFILE", x) && FieldFrom(s, x, 9, name, n, y) && FieldFrom(s, y, 512, path, m, end)
  }

  /** A method that is too long or unknown, or behind a known one a first length that is wrong, or behind the first
      field of ADDFILE a second length that is. */
  ghost predicate RejectedAt(s: string, pos: nat)
  {
    || Overlong(s, pos, 8)
    || (exists t, x :: Reads(s, pos, 8, t, x) && t != "ADDFILE" && t != "GETRD")
    || (exists t, x :: Reads(s, pos, 8, t, x) && BadLen(s, x, 9))
    || exists x: nat, name, n, y: nat ::
         Reads(s, pos, 8, "ADDFILE", x) && FieldFrom(s, x, 9, name, n, y) && BadLen(s, y, 512)
  }

  // ---------------------------------------------------------------- the steps on such bytes

  /** The call ends in the error state. */
  ghost predicate EndsBad(st: Stream, p: Ps)
  {
    exists q :: RunsTo(st, p, Stop, q) && q.status == ERROR && q.bad
  }

  /** The call ends before the request does. */
  ghost predicate EndsWaiting(st: Stream, p: Ps)
  {
    exists q :: RunsTo(st, p, if st.behind.Segv? then Crash else Stop, q) && Busy(q.status)
  }

  lemma StopsAt(st: Stream, p: Ps, ret: Ret, q: Ps)
    requires Ends(st, p, ret, q)
    ensures RunsTo(st, p, ret, q)
  {
    assert IsRun(st, [p], ret, q);
  }

  ghost function MaxOf(p: Ps): nat
  {
    if p.status == METHOD_DONE then 9 else 512
  }

  lemma BadLenEnds(st: Stream, p: Ps)
    requires (p.status == METHOD_DONE || p.status == FIELD1_DONE) && Sound(st, p) && BadLen(st.bytes, p.pos, MaxOf(p))
    ensures EndsBad(st, p)
  {
    OverlongExactly(st, p.pos, 10);
    if t, next: nat :| Reads(st.bytes, p.pos, 10, t, next) && forall n :: Number(t, n) ==> n < 1 || n > MaxOf(p) {
      ReadsExactly(st, p.pos, 10, t, next);
      if StrToNum(t).Some? {
        NumberExactly(t, StrToNum(t).value);
      }
    }
    var q := OneStep(st, p).1;
    StopsAt(st, p, Stop, q);
  }

  /** The record behind a field. */
  ghost function Behind(p: Ps, text: string, n: int, end: nat): Ps
  {
    if p.status == METHOD_DONE then
      p.(pos := end, len1 := n, field1 := text, status := if p.meth == GETRD then DONE else FIELD1_DONE)
    else p.(pos := end, len2 := n, field2 := text, status := DONE)
  }

  lemma FieldMovesOn(st: Stream, p: Ps, text: string, n: int, end: nat) returns (mid: Ps)
    requires (p.status == METHOD_DONE || p.status == FIELD1_DONE) && Sound(st, p)
    requires FieldFrom(st.bytes, p.pos, MaxOf(p), text, n, end)
    ensures Moves(st, p, mid) && mid.status != DONE && Moves(st, mid, Behind(p, text, n, end))
  {
    var x: nat :| LenAt(st.bytes, p.pos, MaxOf(p), n, x) && end == x + n <= |st.bytes| && Cut(st.bytes[x..end], text);
    var t :| Reads(st.bytes, p.pos, 10, t, x) && Number(t, n);
    ReadsExactly(st, p.pos, 10, t, x);
    NumberExactly(t, n);
    mid := AfterLen(p, n, x);
    LenDone(st, p, t, n, x);
    TextDone(st, p, text, n, x, end);
  }

  lemma LenDone(st: Stream, p: Ps, t: string, n: int, x: nat)
    requires (p.status == METHOD_DONE || p.status == FIELD1_DONE) && Sound(st, p) && 1 <= n <= MaxOf(p)
    requires FieldAt(st, p.pos, 10).0.Field? && CString(FieldAt(st, p.pos, 10).0.text) == t
    requires FieldAt(st, p.pos, 10).1 == x && StrToNum(t) == Some(n)
    ensures Moves(st, p, AfterLen(p, n, x))
  {
  }

  lemma TextDone(st: Stream, p: Ps, text: string, n: int, x: nat, end: nat)
    requires (p.status == METHOD_DONE || p.status == FIELD1_DONE) && 1 <= n <= MaxOf(p)
    requires end == x + n <= |st.bytes| && Cut(st.bytes[x..end], text)
    ensures Moves(st, AfterLen(p, n, x), Behind(p, text, n, end))
  {
    CutOnly(st.bytes[x..end], text);
  }

  /** Behind the field the call goes on as it would from there. */
  lemma FieldGoesOn(st: Stream, p: Ps, text: string, n: int, end: nat, ret: Ret, q: Ps)
    requires (p.status == METHOD_DONE || p.status == FIELD1_DONE) && Sound(st, p)
    requires FieldFrom(st.bytes, p.pos, MaxOf(p), text, n, end)
    requires if Behind(p, text, n, end).status == DONE then ret == Go && q == Behind(p, text, n, end)
             else RunsTo(st, Behind(p, text, n, end), ret, q)
    ensures RunsTo(st, p, ret, q)
  {
    var mid := FieldMovesOn(st, p, text, n, end);
    if Behind(p, text, n, end).status == DONE {
      LastMove(st, mid, q);
    } else {
      FirstMove(st, mid, Behind(p, text, n, end), ret, q);
    }
    FirstMove(st, p, mid, ret, q);
  }

  lemma NoFieldWaits(st: Stream, p: Ps)
    requires (p.status == METHOD_DONE || p.status == FIELD1_DONE) && Sound(st, p) && st.Valid()
    requires !BadLen(st.bytes, p.pos, MaxOf(p))
    requires forall text, n, end :: !FieldFrom(st.bytes, p.pos, MaxOf(p), text, n, end)
    ensures EndsWaiting(st, p)
  {
    var r := FieldAt(st, p.pos, 10);
    OverlongExactly(st, p.pos, 10);
    if r.0.Field? {
      var t, x := CString(r.0.text), r.1;
      ReadsExactly(st, p.pos, 10, t, x);
      var n :| Number(t, n) && 1 <= n <= MaxOf(p);
      NumberExactly(t, n);
      LenDone(st, p, t, n, x);
      assert LenAt(st.bytes, p.pos, MaxOf(p), n, x);
      if x + n <= |st.bytes| {
        FieldThere(st.bytes, p.pos, MaxOf(p), n, x);
      }
      NoTextWaits(st, p, n, x);
    } else {
      StopsAt(st, p, if st.behind.Segv? then Crash else Stop, p);
    }
  }

  lemma NoTextWaits(st: Stream, p: Ps, n: int, x: nat)
    requires (p.status == METHOD_DONE || p.status == FIELD1_DONE) && 1 <= n <= MaxOf(p) && x <= |st.bytes| < x + n
    requires st.Valid() && Moves(st, p, AfterLen(p, n, x))
    ensures EndsWaiting(st, p)
  {
    var mid, ret := AfterLen(p, n, x), if st.behind.Segv? then Crash else Stop;
    StopsAt(st, mid, ret, mid);
    FirstMove(st, p, mid, ret, mid);
  }

  lemma FieldThere(s: string, pos: nat, max: nat, n: int, x: nat)
    requires LenAt(s, pos, max, n, x) && x + n <= |s|
    ensures FieldFrom(s, pos, max, CString(s[x..x + n]), n, x + n)
  {
    CutIs(s[x..x + n]);
  }

  lemma BadMethodEnds(st: Stream, p: Ps)
    requires p.status == NEW && Sound(st, p)
    requires Overlong(st.bytes, p.pos, 8)
          || exists t, x :: Reads(st.bytes, p.pos, 8, t, x) && t != "ADDFILE" && t != "GETRD"
    ensures EndsBad(st, p)
  {
    OverlongExactly(st, p.pos, 8);
    if t, x: nat :| Reads(st.bytes, p.pos, 8, t, x) && t != "ADDFILE" && t != "GETRD" {
      ReadsExactly(st, p.pos, 8, t, x);
    }
    StopsAt(st, p, Stop, OneStep(st, p).1);
  }

  lemma MethodGoesOn(st: Stream, p: Ps, meth: Method, x: nat)
    requires p.status == NEW && Sound(st, p)
    requires Reads(st.bytes, p.pos, 8, if meth == ADDFILE then "ADDFILE" else "GETRD", x)
    ensures Moves(st, p, p.(status := METHOD_DONE, pos := x, meth := meth))
  {
    ReadsExactly(st, p.pos, 8, if meth == ADDFILE then "ADDFILE" else "GETRD", x);
  }

  lemma NoMethodWaits(st: Stream, p: Ps)
    requires p.status == NEW && Sound(st, p) && st.Valid()
    requires !Overlong(st.bytes, p.pos, 8) && forall t, x :: !Reads(st.bytes, p.pos, 8, t, x)
    ensures EndsWaiting(st, p)
  {
    OverlongExactly(st, p.pos, 8);
    var r := FieldAt(st, p.pos, 8);
    if r.0.Field? {
      ReadsExactly(st, p.pos, 8, CString(r.0.text), r.1);
    }
    StopsAt(st, p, if st.behind.Segv? then Crash else Stop, p);
  }

  // ---------------------------------------------------------------- whole calls

  ghost function MethodRecord(p: Ps, meth: Method, x: nat): Ps
  {
    p.(status := METHOD_DONE, pos := x, meth := meth)
  }

  lemma BadAgain(st: Stream, p: Ps, q: Ps)
    requires Moves(st, p, q) && q.status != DONE && EndsBad(st, q)
    ensures EndsBad(st, p)
  {
    var r :| RunsTo(st, q, Stop, r) && r.status == ERROR && r.bad;
    FirstMove(st, p, q, Stop, r);
  }

  lemma WaitsAgain(st: Stream, p: Ps, q: Ps)
    requires Moves(st, p, q) && q.status != DONE && EndsWaiting(st, q)
    ensures EndsWaiting(st, p)
  {
    var ret := if st.behind.Segv? then Crash else Stop;
    var r :| RunsTo(st, q, ret, r) && Busy(r.status);
    FirstMove(st, p, q, ret, r);
  }

  lemma FieldBadAgain(st: Stream, p: Ps, text: string, n: int, end: nat)
    requires p.status == METHOD_DONE && p.meth == ADDFILE && Sound(st, p)
    requires FieldFrom(st.bytes, p.pos, 9, text, n, end) && BadLen(st.bytes, end, 512)
    ensures EndsBad(st, p)
  {
    var mid := FieldMovesOn(st, p, text, n, end);
    BadLenEnds(st, Behind(p, text, n, end));
    BadAgain(st, mid, Behind(p, text, n, end));
    BadAgain(st, p, mid);
  }

  /** Rejected bytes end the call in the error state. */
  lemma RejectedEnds(st: Stream, p: Ps)
    requires p.status == NEW && Sound(st, p) && RejectedAt(st.bytes, p.pos)
    ensures EndsBad(st, p)
  {
    var s := st.bytes;
    if Overlong(s, p.pos, 8) || exists t, x :: Reads(s, p.pos, 8, t, x) && t != "ADDFILE" && t != "GETRD" {
      BadMethodEnds(st, p);
    } else if t: string, x: nat :| Reads(s, p.pos, 8, t, x) && BadLen(s, x, 9) {
      var q := MethodRecord(p, if t == "ADDFILE" then ADDFILE else GETRD, x);
      MethodGoesOn(st, p, q.meth, x);
      BadLenEnds(st, q);
      BadAgain(st, p, q);
    } else {
      var x: nat, name: string, n: int, y: nat :|
        Reads(s, p.pos, 8, "ADDFILE", x) && FieldFrom(s, x, 9, name, n, y) && BadLen(s, y, 512);
      MethodGoesOn(st, p, ADDFILE, x);
      FieldBadAgain(st, MethodRecord(p, ADDFILE, x), name, n, y);
      BadAgain(st, p, MethodRecord(p, ADDFILE, x));
    }
  }

  /** The call ends with this request. */
  ghost predicate EndsWith(st: Stream, p: Ps, r: Request, end: nat)
  {
    exists q :: RunsTo(st, p, Go, q) && q.status == DONE && RequestOf(q) == r && q.pos == end
  }

  lemma GetEnds(st: Stream, p: Ps, name: string, end: nat)
    requires p.status == NEW && Sound(st, p) && GetAt(st.bytes, p.pos, name, end)
    ensures EndsWith(st, p, GetRd(name), end)
  {
    var x: nat, n: int :| Reads(st.bytes, p.pos, 8, "GETRD", x) && FieldFrom(st.bytes, x, 9, name, n, end);
    var p1 := MethodRecord(p, GETRD, x);
    MethodGoesOn(st, p, GETRD, x);
    FieldGoesOn(st, p1, name, n, end, Go, Behind(p1, name, n, end));
    FirstMove(st, p, p1, Go, Behind(p1, name, n, end));
  }

  lemma AddEnds(st: Stream, p: Ps, name: string, path: string, end: nat)
    requires p.status == NEW && Sound(st, p) && AddAt(st.bytes, p.pos, name, path, end)
    ensures EndsWith(st, p, AddFile(name, path), end)
  {
    var x: nat, n: int, y: nat, m: int :| Reads(st.bytes, p.pos, 8, "ADDFILE", x)
      && FieldFrom(st.bytes, x, 9, name, n, y) && FieldFrom(st.bytes, y, 512, path, m, end);
    var p1 := MethodRecord(p, ADDFILE, x);
    var p2 := Behind(p1, name, n, y);
    var p3 := Behind(p2, path, m, end);
    MethodGoesOn(st, p, ADDFILE, x);
    FieldGoesOn(st, p2, path, m, end, Go, p3);
    FieldGoesOn(st, p1, name, n, y, Go, p3);
    FirstMove(st, p, p1, Go, p3);
  }

  lemma FieldWaitsAgain(st: Stream, p: Ps, text: string, n: int, end: nat)
    requires p.status == METHOD_DONE && p.meth == ADDFILE && Sound(st, p) && st.Valid()
    requires FieldFrom(st.bytes, p.pos, 9, text, n, end) && !BadLen(st.bytes, end, 512)
    requires forall path, m, e :: !FieldFrom(st.bytes, end, 512, path, m, e)
    ensures EndsWaiting(st, p)
  {
    var mid := FieldMovesOn(st, p, text, n, end);
    NoFieldWaits(st, Behind(p, text, n, end));
    WaitsAgain(st, mid, Behind(p, text, n, end));
    WaitsAgain(st, p, mid);
  }

  /** Behind a method no whole request, and nothing wrong. */
  ghost predicate Unfinished(s: string, x: nat, meth: Method)
  {
    && !BadLen(s, x, 9)
    && (meth == GETRD ==> forall name, n, end :: !FieldFrom(s, x, 9, name, n, end))
    && (meth == ADDFILE ==> forall name, n, y :: FieldFrom(s, x, 9, name, n, y) ==>
      !BadLen(s, y, 512) && forall path, m, end :: !FieldFrom(s, y, 512, path, m, end))
  }

  lemma UnfinishedWaits(st: Stream, p: Ps)
    requires p.status == METHOD_DONE && Sound(st, p) && st.Valid() && Unfinished(st.bytes, p.pos, p.meth)
    ensures EndsWaiting(st, p)
  {
    if name: string, n: int, y: nat :| p.meth == ADDFILE && FieldFrom(st.bytes, p.pos, 9, name, n, y) {
      FieldWaitsAgain(st, p, name, n, y);
    } else {
      NoFieldWaits(st, p);
    }
  }

  /** Bytes that are neither leave the call waiting. */
  lemma NeitherWaits(st: Stream, p: Ps)
    requires p.status == NEW && Sound(st, p) && st.Valid() && !RejectedAt(st.bytes, p.pos)
    requires forall name, end :: !GetAt(st.bytes, p.pos, name, end)
    requires forall name, path, end :: !AddAt(st.bytes, p.pos, name, path, end)
    ensures EndsWaiting(st, p)
  {
    if t: string, x: nat :| Reads(st.bytes, p.pos, 8, t, x) {
      var p1 := MethodRecord(p, if t == "ADDFILE" then ADDFILE else GETRD, x);
      MethodGoesOn(st, p, p1.meth, x);
      NotYet(st.bytes, p.pos, x, p1.meth);
      hide RejectedAt, GetAt, AddAt, FieldFrom, BadLen, Moves;
      UnfinishedWaits(st, p1);
      WaitsAgain(st, p, p1);
    } else {
      NoMethodWaits(st, p);
    }
  }

  lemma NotYet(s: string, pos: nat, x: nat, meth: Method)
    requires Reads(s, pos, 8, if meth == ADDFILE then "ADDFILE" else "GETRD", x) && !RejectedAt(s, pos)
    requires forall name, end :: !GetAt(s, pos, name, end)
    requires forall name, path, end :: !AddAt(s, pos, name, path, end)
    ensures Unfinished(s, x, meth)
  {
    hide Reads, FieldFrom, BadLen;
    if meth == GETRD {
      forall name, n, end
        ensures !FieldFrom(s, x, 9, name, n, end)
      {
        assert FieldFrom(s, x, 9, name, n, end) ==> GetAt(s, pos, name, end);
      }
    } else {
      forall name, n, y | FieldFrom(s, x, 9, name, n, y)
        ensures !BadLen(s, y, 512) && forall path, m, end :: !FieldFrom(s, y, 512, path, m, end)
      {
        forall path, m, end
          ensures !FieldFrom(s, y, 512, path, m, end)
        {
          assert FieldFrom(s, y, 512, path, m, end) ==> AddAt(s, pos, name, path, end);
        }
      }
    }
  }

  /** What parse_req makes of the bytes behind its cursor: an error exactly if they are rejected, a request exactly if
      that request stands there, with the cursor behind it, and otherwise it waits for more, or follows a null pointer
      where there are no more blocks. */
  lemma ParsesExactly(st: Stream, p: Ps, ret: Ret, q: Ps)
    requires p.status == NEW && Sound(st, p) && st.Valid() && RunsTo(st, p, ret, q)
    ensures q.status == ERROR <==> RejectedAt(st.bytes, p.pos)
    ensures q.status == ERROR ==> q.bad && ret == Stop
    ensures forall name, end :: GetAt(st.bytes, p.pos, name, end) <==>
      q.status == DONE && RequestOf(q) == GetRd(name) && q.pos == end
    ensures forall name, path, end :: AddAt(st.bytes, p.pos, name, path, end) <==>
      q.status == DONE && RequestOf(q) == AddFile(name, path) && q.pos == end
    ensures q.status == DONE ==> ret == Go
    ensures q.status != ERROR && q.status != DONE ==> ret == if st.behind.Segv? then Crash else Stop
  {
    var s := st.bytes;
    if RejectedAt(s, p.pos) {
      RejectedEnds(st, p);
      var r :| RunsTo(st, p, Stop, r) && r.status == ERROR && r.bad;
      SameRun(st, p, ret, q, Stop, r);
    }
    forall name, end | GetAt(s, p.pos, name, end)
      ensures ret == Go && q.status == DONE && RequestOf(q) == GetRd(name) && q.pos == end
    {
      GetEnds(st, p, name, end);
      var r :| RunsTo(st, p, Go, r) && r.status == DONE && RequestOf(r) == GetRd(name) && r.pos == end;
      SameRun(st, p, ret, q, Go, r);
    }
    forall name, path, end | AddAt(s, p.pos, name, path, end)
      ensures ret == Go && q.status == DONE && RequestOf(q) == AddFile(name, path) && q.pos == end
    {
      AddEnds(st, p, name, path, end);
      var r :| RunsTo(st, p, Go, r) && r.status == DONE && RequestOf(r) == AddFile(name, path) && r.pos == end;
      SameRun(st, p, ret, q, Go, r);
    }
    if !RejectedAt(s, p.pos) && (forall name, end :: !GetAt(s, p.pos, name, end))
       && forall name, path, end :: !AddAt(s, p.pos, name, path, end) {
      NeitherWaits(st, p);
      var stop := if st.behind.Segv? then Crash else Stop;
      var r :| RunsTo(st, p, stop, r) && Busy(r.status);
      SameRun(st, p, ret, q, stop, r);
    }
  }
}
