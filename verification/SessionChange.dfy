/** Exactly when a poll of a new game session's file reads it as one: the length decides, not the content. */
module SessionChange {
  import opened Options
  import opened Search
  import opened LogMarkers
  import opened Scan
  import opened ChunkInvariance
  import opened ExactChunking
  import opened TailLog

  function Copies(b: byte, n: nat): (r: Bytes)
    ensures |r| == n && forall i | 0 <= i < n :: r[i] == b
  {
    if n == 0 then [] else [b] + Copies(b, n - 1)
  }

  /** A byte that is none of three. */
  function Another(a: byte, b: byte, c: byte): (r: byte)
    ensures r != a && r != b && r != c
  {
    if 0 != a && 0 != b && 0 != c then 0
    else if 1 != a && 1 != b && 1 != c then 1
    else if 2 != a && 2 != b && 2 != c then 2
    else 3
  }

  /** A byte that is no newline, and neither begins nor ends a START. */
  function Filler(m: Markers): byte
    requires m.NonEmpty()
  {
    Another(LF, m.start[0], m.start[|m.start| - 1])
  }

  // ---------- Chunks without markers ----------

  lemma NoStartSettles(m: Markers, buf: Bytes, chunk: Bytes)
    requires m.NonEmpty() && Find(buf + chunk, m.start, 0).None?
    ensures AfterChunk(m, State(buf, None), chunk) == Outcome([], State(KeepTail(buf + chunk), None))
    ensures CutsAfter(m, State(buf, None), chunk) <==> |buf + chunk| - LineStart(buf + chunk, |buf + chunk|) > KEEP_TAIL
  {
    hide Find, KeepTail, LineStart;
    DriveTurn(m, State(buf + chunk, None));
  }

  lemma NoStartInNewlines(m: Markers, n: nat, rest: Bytes)
    requires m.WellFormed() && forall i | 0 <= i < |rest| :: rest[i] != m.start[0]
    ensures Find(Copies(LF, n) + rest, m.start, 0).None?
  {
    var all := Copies(LF, n) + rest;
    assert m.Plain(Restart);
    forall i | 0 <= i ensures !OccursAt(all, m.start, i) {
      if i < |all| {
        assert all[i] == if i < n then LF else rest[i - n];
      }
    }
    FindIs(all, m.start, 0, None);
  }

  /** Newlines leave a fresh scanner fresh. */
  lemma NewlinesLeaveNothing(m: Markers, n: nat)
    requires m.WellFormed()
    ensures AfterChunk(m, INITIAL, Copies(LF, n)) == Outcome([], INITIAL) && !CutsAfter(m, INITIAL, Copies(LF, n))
  {
    hide Find;
    NoStartInNewlines(m, n, []);
    assert Copies(LF, n) + [] == Copies(LF, n) && [] + Copies(LF, n) == Copies(LF, n);
    NoStartSettles(m, [], Copies(LF, n));
    LineStartIs(Copies(LF, n), n, n);
  }

  /** One byte behind them stays. */
  lemma OneByteStays(m: Markers, n: nat)
    requires m.WellFormed()
    ensures var chunk := Copies(LF, n) + [Filler(m)];
            && AfterChunk(m, INITIAL, chunk) == Outcome([], State([Filler(m)], None)) && !CutsAfter(m, INITIAL, chunk)
  {
    hide Find, Copies, LineStart, AfterChunk, Markers.NeverNests, Markers.LacksStartByte;
    var chunk := Copies(LF, n) + [Filler(m)];
    NoStartInNewlines(m, n, [Filler(m)]);
    assert [] + chunk == chunk;
    NoStartSettles(m, [], chunk);
    LineStartIs(chunk, n + 1, n);
    assert chunk[n..] == [Filler(m)];
  }

  lemma NewlinesSettleNothing(m: Markers, buf: Bytes, d: Detection, n: nat)
    requires m.WellFormed() && FirstHit(m, buf).None?
    ensures AfterChunk(m, State(buf, Some(d)), Copies(LF, n)).state.pending == Some(d)
  {
    hide FirstHit;
    var all := buf + Copies(LF, n);
    FirstHitIsFirst(m, buf);
    FirstHitIsFirst(m, all);
    if FirstHit(m, all).Some? {
      var h := FirstHit(m, all).value;
      assert m.Plain(h.kind);
      if h.pos + |m.Text(h.kind)| <= |buf| {
        OccursAppend(buf, Copies(LF, n), m.Text(h.kind), h.pos);
      } else {
        OccursIndex(all, m.Text(h.kind), h.pos, h.pos + |m.Text(h.kind)| - 1);
      }
      assert false;
    }
    DriveTurn(m, State(all, Some(d)));
  }

  // ---------- Telling a buffer from an empty one ----------

  /** Any unfinished line shows in what some chunk of each length leaves. */
  lemma BufferShows(m: Markers, buf: Bytes, n: nat) returns (chunk: Bytes)
    requires m.WellFormed() && n > 0 && buf != [] && |buf| <= KEEP_TAIL && Unbroken(buf, 0, |buf|) && Find(buf, m.start, 0).None?
    ensures |chunk| == n && AfterChunk(m, State(buf, None), chunk) != AfterChunk(m, INITIAL, chunk)
  {
    hide AfterChunk, Find, Unbroken, Filler, Markers.Plain, Markers.NeverNests, Markers.LacksStartByte;
    if n < |m.start| {
      chunk := Copies(Filler(m), n);
      FillerShows(m, buf, n);
    } else {
      chunk := m.start + Copies(LF, n - |m.start|);
      StartShows(m, buf, n - |m.start|);
    }
  }

  lemma FillerShows(m: Markers, buf: Bytes, n: nat)
    requires m.WellFormed() && 0 < n < |m.start| && buf != [] && Unbroken(buf, 0, |buf|) && Find(buf, m.start, 0).None?
    ensures AfterChunk(m, State(buf, None), Copies(Filler(m), n)) != AfterChunk(m, INITIAL, Copies(Filler(m), n))
  {
    hide Find, KeepTail, LineStart, AfterChunk, Copies, Filler, Markers.Plain, Markers.NeverNests, Markers.LacksStartByte;
    var chunk := Copies(Filler(m), n);
    NoStartBeforeFiller(m, buf, n);
    FindIs(chunk, m.start, 0, None);
    assert [] + chunk == chunk;
    NoStartSettles(m, buf, chunk);
    NoStartSettles(m, [], chunk);
    StartFits(m);
    KeptWhole(chunk);
    FillerUnbroken(m, buf, n);
    KeptLine(buf + chunk);
  }

  lemma StartFits(m: Markers)
    requires m.WellFormed()
    ensures |m.start| <= KEEP_TAIL
  {
    assert m.Plain(Restart);
  }

  lemma FillerUnbroken(m: Markers, buf: Bytes, n: nat)
    requires m.NonEmpty() && Unbroken(buf, 0, |buf|)
    ensures Unbroken(buf + Copies(Filler(m), n), 0, |buf| + n)
  {}

  lemma KeptWhole(line: Bytes)
    ensures |KeepTail(line)| <= |line|
  {}

  lemma KeptLine(line: Bytes)
    requires Unbroken(line, 0, |line|)
    ensures |KeepTail(line)| == if |line| > KEEP_TAIL then KEEP_TAIL else |line|
  {
    LineStartIs(line, |line|, 0);
  }

  lemma NoStartBeforeFiller(m: Markers, buf: Bytes, n: nat)
    requires m.NonEmpty() && Find(buf, m.start, 0).None?
    ensures Find(buf + Copies(Filler(m), n), m.start, 0).None?
  {
    hide Find;
    var all := buf + Copies(Filler(m), n);
    FindIsFirst(buf, m.start, 0);
    forall i | 0 <= i ensures !OccursAt(all, m.start, i) {
      if OccursAt(all, m.start, i) {
        if i + |m.start| <= |buf| {
          OccursAppend(buf, Copies(Filler(m), n), m.start, i);
        } else {
          OccursIndex(all, m.start, i, i + |m.start| - 1);
        }
      }
    }
    FindIs(all, m.start, 0, None);
  }

  /** START behind an unfinished line keeps that line, in the buffer or in the pending dialog. */
  lemma StartShows(m: Markers, buf: Bytes, n: nat)
    requires m.WellFormed() && buf != [] && Unbroken(buf, 0, |buf|) && Find(buf, m.start, 0).None?
    ensures var chunk := m.start + Copies(LF, n); AfterChunk(m, State(buf, None), chunk) != AfterChunk(m, INITIAL, chunk)
  {
    hide Find, AfterChunk, Markers.Plain, Markers.NeverNests, Markers.LacksStartByte;
    var chunk := m.start + Copies(LF, n);
    NothingInNothing(m.start);
    StartIsKept(m, buf, n);
    StartIsKept(m, [], n);
    FindDrop(buf + chunk, m.end, |buf|, |m.start|);
    assert (buf + chunk)[|buf|..] == chunk && [] + chunk == chunk;
  }

  lemma StartIsKept(m: Markers, buf: Bytes, n: nat)
    requires m.WellFormed() && Unbroken(buf, 0, |buf|) && Find(buf, m.start, 0).None?
    ensures var chunk := m.start + Copies(LF, n);
            var t := AfterChunk(m, State(buf, None), chunk).state;
            if Find(buf + chunk, m.end, |buf| + |m.start|).Some?
            then t.pending.Some? && t.pending.value.line == buf
            else t == State(buf + chunk, None)
  {
    hide Find, Drive, Settle, LineStart, AfterChunk, Copies, Markers.Plain, Markers.NeverNests, Markers.LacksStartByte;
    var chunk := m.start + Copies(LF, n);
    var all := buf + chunk;
    StartBehindLine(m, buf, n);
    AfterChunkIs(m, State(buf, None), chunk);
    if Find(all, m.end, |buf| + |m.start|).Some? {
      StartIsTaken(m, all, |buf|);
    } else {
      OpenKeeps(m, all, |buf|);
      assert all[0..] == all;
    }
  }

  lemma StartIsTaken(m: Markers, buf: Bytes, p: nat)
    requires m.WellFormed() && Find(buf, m.start, 0) == Some(p) && Find(buf, m.end, p + |m.start|).Some?
    requires p + |m.start| <= |buf| && forall i | p + |m.start| <= i < |buf| :: buf[i] == LF
    ensures var t := Drive(m, State(buf, None)); t.found == [] && t.state.pending.Some?
    ensures LineStart(buf, p) == 0 ==> Drive(m, State(buf, None)).state.pending.value.line == buf[0..p]
  {
    hide Find, Drive, LineStart, Taken, Markers.Plain, Markers.NeverNests, Markers.LacksStartByte;
    var e := Find(buf, m.end, p + |m.start|).value;
    StartBeforeEnd(m, buf, p, e);
    OpenWaits(m, buf, p, e);
    TakenLine(m, buf, p, e);
  }

  lemma StartBehindLine(m: Markers, buf: Bytes, n: nat)
    requires m.WellFormed() && Unbroken(buf, 0, |buf|) && Find(buf, m.start, 0).None?
    ensures var all := buf + (m.start + Copies(LF, n));
            && Find(all, m.start, 0) == Some(|buf|) && LineStart(all, |buf|) == 0 && all[0..|buf|] == buf
            && forall i | |buf| + |m.start| <= i < |all| :: all[i] == LF
  {
    hide Find, OccursAt, LineStart;
    var all := buf + (m.start + Copies(LF, n));
    FindIsFirst(buf, m.start, 0);
    StartFoundAtEnd(m, buf);
    FindAppend(buf + m.start, Copies(LF, n), m.start, 0);
    assert buf + m.start + Copies(LF, n) == all;
    LineStartIs(all, |buf|, 0);
  }

  lemma TakenLine(m: Markers, buf: Bytes, p: nat, e: nat)
    requires p + |m.start| <= e && e + |m.end| <= |buf|
    ensures Taken(m, buf, p, e).pending.Some? && Taken(m, buf, p, e).pending.value.line == buf[LineStart(buf, p)..p]
  {}

  /** A dialog is complete and only newlines follow: it waits for its result. */
  lemma OpenWaits(m: Markers, buf: Bytes, p: nat, e: nat)
    requires m.WellFormed() && Find(buf, m.start, 0) == Some(p) && Closes(m, buf, p, e)
    requires p + |m.start| <= e && e + |m.end| <= |buf| && forall i | e + |m.end| <= i < |buf| :: buf[i] == LF
    ensures Drive(m, State(buf, None)) == Outcome([], Taken(m, buf, p, e))
  {
    hide Find, Drive, Taken, Closes, Markers.Plain, Markers.NeverNests, Markers.LacksStartByte;
    OpenTurns(m, State(buf, None), p, e);
    TakenRest(m, buf, p, e);
    var t := Taken(m, buf, p, e);
    NewlinesWait(m, t.buf, t.pending.value);
  }

  /** A dialog is not complete: everything from its line on is kept. */
  lemma OpenKeeps(m: Markers, buf: Bytes, p: nat)
    requires m.NonEmpty() && Find(buf, m.start, 0) == Some(p) && Find(buf, m.end, p + |m.start|).None?
    ensures Drive(m, State(buf, None)) == Outcome([], State(buf, None))
    ensures Settle(m, State(buf, None)) == buf[LineStart(buf, p)..]
  {
    hide Find, LineStart;
    DriveTurn(m, State(buf, None));
  }

  lemma NewlinesWait(m: Markers, buf: Bytes, d: Detection)
    requires m.WellFormed() && forall i | 0 <= i < |buf| :: buf[i] == LF
    ensures Drive(m, State(buf, Some(d))) == Outcome([], State(buf, Some(d)))
  {
    hide FirstHit;
    FirstHitIsFirst(m, buf);
    if FirstHit(m, buf).Some? {
      var h := FirstHit(m, buf).value;
      assert m.Plain(h.kind);
      OccursIndex(buf, m.Text(h.kind), h.pos, h.pos);
      assert false;
    }
    DriveTurn(m, State(buf, Some(d)));
  }

  // ---------- Telling a scanner from a fresh one ----------

  /** A resting scanner that is not as new answers some chunk of each length differently. */
  lemma ScannerShows(m: Markers, s: State, n: nat) returns (chunk: Bytes)
    requires m.WellFormed() && Rests(m, s) && s != INITIAL && n > 0
    ensures |chunk| == n && AfterChunk(m, s, chunk) != AfterChunk(m, INITIAL, chunk)
  {
    hide Find, FirstHit, AfterChunk, OccursAt, Markers.Plain, Markers.NeverNests, Markers.LacksStartByte;
    if s.pending.None? && Find(s.buf, m.start, 0).None? {
      chunk := BufferShows(m, s.buf, n);
    } else {
      chunk := Copies(LF, n);
      NewlinesLeaveNothing(m, n);
      if s.pending.Some? {
        NewlinesSettleNothing(m, s.buf, s.pending.value, n);
      } else {
        OpenDialogShows(m, s.buf, n);
      }
    }
  }

  /** An unfinished dialog stays unfinished, or its END is complete and it waits for its result. */
  lemma OpenDialogShows(m: Markers, buf: Bytes, n: nat)
    requires m.WellFormed() && Find(buf, m.start, 0).Some?
    requires Find(buf, m.end, Find(buf, m.start, 0).value + |m.start|).None?
    ensures AfterChunk(m, State(buf, None), Copies(LF, n)).state != INITIAL
  {
    hide Find, Drive, Settle, LineStart, Taken, Markers.Plain, Markers.NeverNests, Markers.LacksStartByte;
    var p := Find(buf, m.start, 0).value;
    var all := buf + Copies(LF, n);
    AfterChunkIs(m, State(buf, None), Copies(LF, n));
    FindAppend(buf, Copies(LF, n), m.start, 0);
    var e := Find(all, m.end, p + |m.start|);
    if e.Some? {
      StartBeforeEnd(m, all, p, e.value);
      EndIsBehind(m, buf, Copies(LF, n), p + |m.start|, e.value);
      OpenWaits(m, all, p, e.value);
      TakenLine(m, all, p, e.value);
    } else {
      OpensAtStart(m, State(all, None), p);
      OpenKeeps(m, all, p);
    }
  }

  lemma EndIsBehind(m: Markers, buf: Bytes, more: Bytes, from: nat, e: nat)
    requires m.NonEmpty() && Find(buf, m.end, from).None? && Find(buf + more, m.end, from) == Some(e)
    ensures |buf| < e + |m.end| <= |buf + more|
  {
    hide Find;
    FindIsFirst(buf, m.end, from);
    FindIsFirst(buf + more, m.end, from);
    if e + |m.end| <= |buf| {
      OccursAppend(buf, more, m.end, e);
    }
  }

  // ---------- Telling a tail from a fresh one ----------

  lemma PolledIs(m: Markers, s: TailState, front: Bytes, chunk: Bytes)
    requires m.NonEmpty() && s.offset == |front| && chunk != []
    ensures Polled(m, s, Present(|front + chunk|, Some(front + chunk))) ==
            (AfterChunk(m, s.scan, chunk).found, TailState(|front + chunk|, AfterChunk(m, s.scan, chunk).state))
  {
    hide AfterChunk;
    assert (front + chunk)[|front|..|front + chunk|] == chunk;
  }

  /** What a fresh tail makes of a file that begins with newlines, or with newlines and one byte more. */
  lemma FreshReadings(m: Markers, n: nat, chunk: Bytes)
    requires m.WellFormed() && n > 0
    ensures var a, b := Copies(LF, n) + chunk, Copies(LF, n - 1) + [Filler(m)] + chunk;
            && AfterChunk(m, INITIAL, a) == AfterChunk(m, INITIAL, chunk)
            && AfterChunk(m, INITIAL, b) == AfterChunk(m, State([Filler(m)], None), chunk)
  {
    hide AfterChunk, CutsAfter, AfterChunks;
    var a, b := Copies(LF, n), Copies(LF, n - 1) + [Filler(m)];
    NewlinesLeaveNothing(m, n);
    OneByteStays(m, n - 1);
    UncutSplitIsExact(m, INITIAL, a, chunk);
    UncutSplitIsExact(m, INITIAL, b, chunk);
    AfterTwo(m, INITIAL, a, chunk);
    AfterTwo(m, INITIAL, b, chunk);
    var x, y := AfterChunk(m, INITIAL, chunk), AfterChunk(m, State([Filler(m)], None), chunk);
    assert [] + x.found == x.found && [] + y.found == y.found;
  }

  /** The poll reads the file as a fresh tail would, whatever it holds. */
  ghost predicate ReadsAfresh(m: Markers, s: TailState, len: nat)
    requires m.NonEmpty()
  {
    forall content: Bytes | |content| >= len ::
      Polled(m, s, Present(len, Some(content))) == Polled(m, FRESH, Present(len, Some(content)))
  }

  /** With nothing new to read, the tail keeps what it has, and a fresh one would not. */
  lemma SameLengthShows(m: Markers, s: TailState)
    requires m.WellFormed() && s != FRESH
    ensures !ReadsAfresh(m, s, s.offset)
  {
    hide AfterChunk;
    if s.offset == 0 {
      var content: Bytes := [];
      assert Polled(m, s, Present(0, Some(content))) != Polled(m, FRESH, Present(0, Some(content)));
    } else {
      var n := s.offset;
      var a, b := Copies(LF, n), Copies(LF, n - 1) + [Filler(m)];
      NewlinesLeaveNothing(m, n);
      OneByteStays(m, n - 1);
      PolledIs(m, FRESH, [], a);
      PolledIs(m, FRESH, [], b);
      assert [] + a == a && [] + b == b;
      assert Polled(m, s, Present(n, Some(a))) == Polled(m, s, Present(n, Some(b)));
    }
  }

  lemma LongerShows(m: Markers, s: TailState, len: nat)
    requires m.WellFormed() && Rests(m, s.scan) && s != FRESH && len > s.offset
    ensures !ReadsAfresh(m, s, len)
  {
    hide AfterChunk, Polled, Rests;
    var n := len - s.offset;
    if s.offset == 0 {
      var chunk := ScannerShows(m, s.scan, n);
      PolledIs(m, s, [], chunk);
      PolledIs(m, FRESH, [], chunk);
    } else {
      FillerRests(m);
      var chunk := ScannerShows(m, State([Filler(m)], None), n);
      var front, front' := Copies(LF, s.offset), Copies(LF, s.offset - 1) + [Filler(m)];
      FreshReadings(m, s.offset, chunk);
      PolledIs(m, s, front, chunk);
      PolledIs(m, s, front', chunk);
      PolledIs(m, FRESH, [], front + chunk);
      PolledIs(m, FRESH, [], front' + chunk);
      assert [] + (front + chunk) == front + chunk && [] + (front' + chunk) == front' + chunk;
    }
  }

  lemma FillerRests(m: Markers)
    requires m.WellFormed()
    ensures Rests(m, State([Filler(m)], None))
  {
    OneByteStays(m, 0);
    AfterChunkRests(m, INITIAL, Copies(LF, 0) + [Filler(m)]);
  }

  /** A poll is sure to read a file as a new session's if and only if the file is shorter than what was read, or
      nothing is known of an old one. From any other state some file of that length is read differently. */
  lemma NoticedIff(m: Markers, s: TailState, len: nat)
    requires m.WellFormed() && Rests(m, s.scan)
    ensures ReadsAfresh(m, s, len) <==> len < s.offset || s == FRESH
  {
    hide AfterChunk, ReadsAfresh, Rests;
    if len < s.offset || s == FRESH {
      ShorterReadsAfresh(m, s, len);
    } else if len == s.offset {
      SameLengthShows(m, s);
    } else {
      LongerShows(m, s, len);
    }
  }

  lemma ShorterReadsAfresh(m: Markers, s: TailState, len: nat)
    requires m.NonEmpty() && (len < s.offset || s == FRESH)
    ensures ReadsAfresh(m, s, len)
  {
    forall content: Bytes | |content| >= len
      ensures Polled(m, s, Present(len, Some(content))) == Polled(m, FRESH, Present(len, Some(content)))
    {
      PolledAfresh(m, s, Present(len, Some(content)));
    }
  }

  lemma PolledAfresh(m: Markers, s: TailState, r: Reading)
    requires m.NonEmpty() && (Resets(s, r) || s == FRESH)
    ensures Polled(m, s, r) == Polled(m, FRESH, r)
  {
    hide AfterChunk, ReadFrom;
  }
}
