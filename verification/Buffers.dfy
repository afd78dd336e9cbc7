/** Received bytes in a chain of blocks, and the cursor that reads them (src/buf_ctrl.c). */
module Buffers {

  const BUFBLK_SIZE := 2048

  /** The blocks with their valid bytes, which are together `data`; `stale` is the byte that the last block holds
      behind its valid ones. */
  datatype Chain = Chain(blocks: seq<string>, stale: char, ghost data: string)
  {
    /** recv_clnt_data fills a block completely before it appends the next. */
    ghost predicate Valid()
    {
      && blocks != [] && |blocks[|blocks| - 1]| < BUFBLK_SIZE
      && (forall i :: 0 <= i < |blocks| - 1 ==> |blocks[i]| == BUFBLK_SIZE)
      && |data| == (|blocks| - 1) * BUFBLK_SIZE + |blocks[|blocks| - 1]|
      && forall node, idx :: 0 <= node < |blocks| && 0 <= idx < |blocks[node]| ==>
        data[node * BUFBLK_SIZE + idx] == blocks[node][idx]
    }

    /** What a reader gets to see: the received bytes and then the stale one. Behind that there is nothing, but
        where it fills its block the reader follows a null pointer. */
    ghost function Seen(): Stream
    {
      Stream(data + [stale], if |data| % BUFBLK_SIZE == BUFBLK_SIZE - 1 then Segv else NoMore)
    }
  }

  datatype Read = Got(c: char) | NoMore | Segv

  /** Bytes that can be read, and what reading on gives. */
  datatype Stream = Stream(bytes: string, behind: Read)
  {
    ghost predicate Valid() { bytes != "" && !behind.Got? }
  }

  /** The bytes of a stream in blocks as the receiver leaves them. */
  ghost function Stored(data: string): (blocks: seq<string>)
    decreases |data|
  {
    if |data| < BUFBLK_SIZE then [data] else [data[..BUFBLK_SIZE]] + Stored(data[BUFBLK_SIZE..])
  }

  lemma {:induction false} StoredLaw(data: string, stale: char)
    ensures Chain(Stored(data), stale, data).Valid()
    decreases |data|
  {
    if |data| >= BUFBLK_SIZE {
      StoredLaw(data[BUFBLK_SIZE..], stale);
      ValidCons(data, Stored(data[BUFBLK_SIZE..]), stale);
    }
  }

  lemma ValidCons(data: string, blocks: seq<string>, stale: char)
    requires |data| >= BUFBLK_SIZE && Chain(blocks, stale, data[BUFBLK_SIZE..]).Valid()
    ensures Chain([data[..BUFBLK_SIZE]] + blocks, stale, data).Valid()
  {
    var all := [data[..BUFBLK_SIZE]] + blocks;
    assert all[|all| - 1] == blocks[|blocks| - 1];
    forall i | 0 <= i < |all| - 1
      ensures |all[i]| == BUFBLK_SIZE
    {
      assert i > 0 ==> all[i] == blocks[i - 1];
    }
    forall node, idx | 0 <= node < |all| && 0 <= idx < |all[node]|
      ensures 0 <= node * BUFBLK_SIZE + idx < |data| && data[node * BUFBLK_SIZE + idx] == all[node][idx]
    {
      if node > 0 {
        assert all[node] == blocks[node - 1];
        assert data[BUFBLK_SIZE..][(node - 1) * BUFBLK_SIZE + idx] == blocks[node - 1][idx];
      }
    }
  }

  // ---------------------------------------------------------------- reading

  ghost function ByteAt(st: Stream, pos: nat): Read
  {
    if pos < |st.bytes| then Got(st.bytes[pos]) else st.behind
  }

  /** A block and an index in it. */
  datatype Cursor = Cursor(node: nat, idx: nat)
  {
    ghost function Pos(): nat { node * BUFBLK_SIZE + idx }

    ghost predicate Ok(ch: Chain)
    {
      idx < BUFBLK_SIZE && Pos() <= |ch.Seen().bytes|
    }
  }

  lemma Place(ch: Chain, cur: Cursor)
    requires ch.Valid() && cur.Ok(ch)
    ensures |ch.data| == (|ch.blocks| - 1) * BUFBLK_SIZE + |ch.blocks[|ch.blocks| - 1]|
    ensures cur.node <= |ch.blocks|
    ensures cur.node == |ch.blocks| <==> cur.Pos() == |ch.Seen().bytes| && ch.Seen().behind.Segv?
    ensures cur.node < |ch.blocks| ==>
      if cur.idx < |ch.blocks[cur.node]| then
        cur.Pos() < |ch.data| && ch.data[cur.Pos()] == ch.blocks[cur.node][cur.idx]
      else cur.Pos() == |ch.data| + cur.idx - |ch.blocks[cur.node]| && cur.node == |ch.blocks| - 1
  {
  }

  /** get_next_byte: the bound lets one byte behind the valid ones through. */
  method GetNextByte(ch: Chain, cur: Cursor) returns (r: Read, cur': Cursor)
    requires ch.Valid() && cur.Ok(ch)
    ensures r == ByteAt(ch.Seen(), cur.Pos())
    ensures r == if cur.Pos() < |ch.data| then Got(ch.data[cur.Pos()]) else if cur.Pos() == |ch.data| then Got(ch.stale)
      else if |ch.data| % 2048 == 2047 then Segv else NoMore
    ensures r.Got? ==> cur'.Ok(ch) && cur'.Pos() == cur.Pos() + 1
    ensures !r.Got? ==> cur' == cur
  {
    Place(ch, cur);
    if cur.node == |ch.blocks| {
      return Segv, cur;
    }
    var data := ch.blocks[cur.node];
    if cur.idx > |data| {
      return NoMore, cur;
    }
    r := Got(if cur.idx < |data| then data[cur.idx] else ch.stale);
    cur' := if cur.idx + 1 == BUFBLK_SIZE then Cursor(cur.node + 1, 0) else Cursor(cur.node, cur.idx + 1);
  }

  datatype Bytes = Bytes(text: string) | Failed(why: Read)

  ghost function BytesAt(st: Stream, pos: nat, size: nat): Bytes
  {
    if pos + size <= |st.bytes| then Bytes(st.bytes[pos..pos + size]) else Failed(st.behind)
  }

  /** get_bytes: the cursor moves only if all bytes are there. */
  method GetBytes(ch: Chain, cur: Cursor, size: nat) returns (r: Bytes, cur': Cursor)
    requires ch.Valid() && cur.Ok(ch)
    ensures r == BytesAt(ch.Seen(), cur.Pos(), size)
    ensures if r.Bytes? then cur'.Ok(ch) && cur'.Pos() == cur.Pos() + size else cur' == cur
  {
    var tmp, buf := cur, "";
    ghost var seen := ch.Seen().bytes;
    for i := 0 to size
      invariant tmp.Ok(ch) && tmp.Pos() == cur.Pos() + i && buf == seen[cur.Pos()..tmp.Pos()]
    {
      var b, next := GetNextByte(ch, tmp);
      if !b.Got? {
        return Failed(b), cur;
      }
      assert seen[cur.Pos()..next.Pos()] == buf + [b.c];
      buf, tmp := buf + [b.c], next;
    }
    r, cur' := Bytes(buf), tmp;
  }

  datatype Field = Field(text: string) | TooLong | More(why: Read)

  /** First position from `pos` on that is not a space, or the end. */
  ghost function SkipSpaces(s: string, pos: nat): (r: nat)
    requires pos <= |s|
    ensures pos <= r <= |s| && (r < |s| ==> s[r] != ' ')
    decreases |s| - pos
  {
    if pos == |s| || s[pos] != ' ' then pos else SkipSpaces(s, pos + 1)
  }

  /** First space from `pos` on, or the end. */
  ghost function NextSpace(s: string, pos: nat): (r: nat)
    requires pos <= |s|
    ensures pos <= r <= |s| && (r < |s| ==> s[r] == ' ')
    decreases |s| - pos
  {
    if pos == |s| || s[pos] == ' ' then pos else NextSpace(s, pos + 1)
  }

  /** The next word, which a space must end within `size` characters from its start. */
  ghost function FieldAt(st: Stream, pos: nat, size: nat): (r: (Field, nat))
    requires pos <= |st.bytes|
    ensures r.1 <= |st.bytes| && (r.0.More? ==> r.0.why == st.behind)
  {
    var s := st.bytes;
    var a := SkipSpaces(s, pos);
    if a == |s| then (More(st.behind), pos)
    else
      var e := NextSpace(s, a + 1);
      if e < |s| && e - a < size then (Field(s[a..e]), e + 1)
      else if a + size < |s| then (TooLong, pos)
      else (More(st.behind), pos)
  }

  /** The first byte that is not a space, and the cursors at it and behind it. */
  method FirstByte(ch: Chain, cur: Cursor) returns (b: Read, at: Cursor, next: Cursor)
    requires ch.Valid() && cur.Ok(ch)
    ensures at.Ok(ch) && at.Pos() == SkipSpaces(ch.Seen().bytes, cur.Pos()) && b == ByteAt(ch.Seen(), at.Pos())
    ensures b.Got? ==> next.Ok(ch) && next.Pos() == at.Pos() + 1
  {
    ghost var s, pos := ch.Seen().bytes, cur.Pos();
    at := cur;
    b, next := GetNextByte(ch, at);
    while b.Got? && b.c == ' '
      invariant at.Ok(ch) && b == ByteAt(ch.Seen(), at.Pos()) && SkipSpaces(s, at.Pos()) == SkipSpaces(s, pos)
      invariant b.Got? ==> next.Ok(ch) && next.Pos() == at.Pos() + 1
      decreases |s| - at.Pos()
    {
      at := next;
      b, next := GetNextByte(ch, at);
    }
  }

  /** get_next_field: the cursor moves only if the field is complete. */
  method GetNextField(ch: Chain, cur: Cursor, size: nat) returns (r: Field, cur': Cursor)
    requires ch.Valid() && cur.Ok(ch) && size > 0
    ensures cur'.Ok(ch) && (r, cur'.Pos()) == FieldAt(ch.Seen(), cur.Pos(), size)
    ensures !r.Field? ==> cur' == cur
  {
    var b, at, next := FirstByte(ch, cur);
    if !b.Got? {
      return More(b), cur;
    }
    ghost var s, a := ch.Seen().bytes, at.Pos();
    var tmp, buf := next, [b.c];
    while true
      invariant tmp.Ok(ch) && a < tmp.Pos() && |buf| == tmp.Pos() - a <= size && buf == s[a..tmp.Pos()]
      invariant NextSpace(s, a + 1) == NextSpace(s, tmp.Pos())
      decreases |s| - tmp.Pos()
    {
      b, next := GetNextByte(ch, tmp);
      if !b.Got? {
        return More(b), cur;
      }
      if |buf| + 1 > size {
        return TooLong, cur;
      }
      if b.c == ' ' {
        return Field(buf), next;
      }
      assert s[a..next.Pos()] == buf + [b.c];
      buf, tmp := buf + [b.c], next;
    }
  }

  // ---------------------------------------------------------------- bytes that arrive in parts

  /** `part` is what a reader sees when only the first n bytes of `full` have arrived. */
  ghost predicate Arrived(part: Stream, full: Stream, n: nat)
  {
    |part.bytes| == n + 1 && n < |full.bytes| && part.bytes[..n] == full.bytes[..n]
  }

  lemma {:induction false} SameSkip(s: string, t: string, n: nat, pos: nat)
    requires pos <= n <= |s| && n <= |t| && s[..n] == t[..n]
    ensures SkipSpaces(s, pos) < n ==> SkipSpaces(t, pos) == SkipSpaces(s, pos)
    ensures SkipSpaces(s, pos) >= n ==> SkipSpaces(t, pos) == SkipSpaces(t, n)
    decreases n - pos
  {
    if pos < n {
      assert s[..n][pos] == t[..n][pos];
      SameSkip(s, t, n, pos + 1);
    }
  }

  lemma {:induction false} SameNext(s: string, t: string, n: nat, pos: nat)
    requires pos <= n < |s| && n < |t| && s[..n] == t[..n]
    ensures NextSpace(s, pos) < n ==> NextSpace(t, pos) == NextSpace(s, pos)
    ensures NextSpace(s, pos) >= n ==> NextSpace(t, pos) == NextSpace(t, n)
    decreases n - pos
  {
    if pos < n {
      assert s[..n][pos] == t[..n][pos];
      SameNext(s, t, n, pos + 1);
    }
  }

  lemma SameSlice(s: string, t: string, n: nat, a: nat, e: nat)
    requires a <= e <= n < |s| && n < |t| && s[..n] == t[..n]
    ensures s[a..e] == t[a..e]
  {
    assert s[a..e] == s[..n][a..e] && t[a..e] == t[..n][a..e];
  }

  /** A space stands in `got` behind the first character of the word that begins at or after `pos`. */
  ghost predicate WordEnds(got: string, pos: nat)
    requires pos <= |got|
  {
    exists e :: SkipSpaces(got, pos) < e < |got| && got[e] == ' '
  }

  lemma {:induction false} NextSpaceFirst(s: string, pos: nat)
    requires pos <= |s|
    ensures forall e :: pos <= e < NextSpace(s, pos) ==> s[e] != ' '
    decreases |s| - pos
  {
    if pos < |s| && s[pos] != ' ' {
      NextSpaceFirst(s, pos + 1);
    }
  }

  /** The word read from a part ends within the received bytes exactly if a space has arrived behind its first
      character. */
  lemma WordWithin(part: Stream, n: nat, pos: nat, size: nat)
    requires |part.bytes| == n + 1 && pos <= n && size > 0 && FieldAt(part, pos, size).0.Field?
    ensures FieldAt(part, pos, size).1 <= n <==> WordEnds(part.bytes[..n], pos)
  {
    var s, got := part.bytes, part.bytes[..n];
    var a := SkipSpaces(s, pos);
    SameSkip(s, got, n, pos);
    var e := NextSpace(s, a + 1);
    NextSpaceFirst(s, a + 1);
    if e < n {
      assert got[e] == ' ';
    } else if k :| SkipSpaces(got, pos) < k < n && got[k] == ' ' {
      assert s[k] == ' ';
    }
  }

  lemma SplitAt(part: Stream, full: Stream, n: nat, pos: nat, size: nat)
    requires Arrived(part, full, n) && pos <= n && size > 0 && FieldAt(part, pos, size).0.Field?
    ensures FieldAt(full, pos, size) == FieldAt(part, pos, size) <==>
      FieldAt(part, pos, size).1 <= n || full.bytes[n] == part.bytes[n]
  {
    var s, t := part.bytes, full.bytes;
    var a := SkipSpaces(s, pos);
    SameSkip(s, t, n, pos);
    SameNext(s, t, n, a + 1);
    SameSlice(s, t, n, a, NextSpace(s, a + 1));
  }

  /** A word read from the first part of a stream is the word of the whole stream if and only if a space has arrived
      behind its first character, or the byte behind the part is the one that arrives. */
  lemma FieldSplit(part: Stream, full: Stream, n: nat, pos: nat, size: nat)
    requires Arrived(part, full, n) && pos <= n && size > 0 && FieldAt(part, pos, size).0.Field?
    ensures FieldAt(full, pos, size) == FieldAt(part, pos, size) <==>
      WordEnds(part.bytes[..n], pos) || full.bytes[n] == part.bytes[n]
  {
    WordWithin(part, n, pos, size);
    SplitAt(part, full, n, pos, size);
  }

  /** A word that is too long already is too long in the whole stream. */
  lemma LongSplit(part: Stream, full: Stream, n: nat, pos: nat, size: nat)
    requires Arrived(part, full, n) && pos <= n && size > 0 && FieldAt(part, pos, size).0.TooLong?
    ensures FieldAt(full, pos, size) == FieldAt(part, pos, size)
  {
    var s, t := part.bytes, full.bytes;
    SameSkip(s, t, n, pos);
    SameNext(s, t, n, SkipSpaces(s, pos) + 1);
  }

  /** Bytes likewise. */
  lemma BytesSplit(part: Stream, full: Stream, n: nat, pos: nat, size: nat)
    requires Arrived(part, full, n) && pos <= n && size > 0 && BytesAt(part, pos, size).Bytes?
    ensures BytesAt(full, pos, size) == BytesAt(part, pos, size) <==> pos + size <= n || full.bytes[n] == part.bytes[n]
  {
    var s, t, end := part.bytes, full.bytes, pos + size;
    if end <= n {
      SameSlice(s, t, n, pos, end);
    } else {
      SameSlice(s, t, n, pos, n);
      assert s[pos..end] == s[pos..n] + [s[n]] && t[pos..end] == t[pos..n] + [t[n]];
      assert s[pos..end][size - 1] == s[n] && t[pos..end][size - 1] == t[n];
    }
  }

  /** The length 12 of which only the first digit has arrived is taken for 1 if a space lies behind it. */
  lemma LengthTornApart()
    ensures FieldAt(Stream("1 ", NoMore), 0, 10) == (Field("1"), 2)
    ensures FieldAt(Stream("12 ?", NoMore), 0, 10) == (Field("12"), 3)
  {
    assert "1 "[0..1] == "1" && "12 ?"[0..2] == "12";
  }
}
