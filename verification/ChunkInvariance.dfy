/** The theorems about chunking: what is the same for every chunking, and exactly when everything is. */
module ChunkInvariance {
  import opened Options
  import opened Search
  import opened LogMarkers
  import opened Scan
  import opened Chunking

  // ---------- Trimming drops only what is droppable ----------

  /** The guard of the one branch that cuts inside a line: an unfinished last line outgrew the kept tail. */
  predicate Cuts(m: Markers, s: State) {
    && (s.pending.Some? || Find(s.buf, m.start, 0).None?)
    && |s.buf| - LineStart(s.buf, |s.buf|) > KEEP_TAIL
  }

  /** Whether a call on `chunk` ends in that branch. */
  predicate CutsAfter(m: Markers, s: State, chunk: Bytes)
    requires m.NonEmpty()
  {
    Cuts(m, Drive(m, State(s.buf + chunk, s.pending)).state)
  }

  lemma IdleBreakHasNoHits(m: Markers, buf: Bytes, to: nat)
    requires m.NonEmpty() && (Find(buf, m.start, 0).Some? ==> to <= Find(buf, m.start, 0).value)
    ensures forall i | 0 <= i < to :: !HitAt(m, false, buf, i)
  {
    hide Find, OccursAt;
    FindIsFirst(buf, m.start, 0);
    forall i | 0 <= i < to ensures !HitAt(m, false, buf, i) {
      assert !OccursAt(buf, m.start, i);
    }
  }

  lemma WaitingBreakHasNoHits(m: Markers, buf: Bytes)
    requires m.NonEmpty() && FirstHit(m, buf).None?
    ensures forall i | 0 <= i :: !HitAt(m, true, buf, i)
  {
    hide FirstHit, OccursAt;
    FirstHitIsFirst(m, buf);
  }

  lemma NoStartsLater(m: Markers, buf: Bytes, cut: nat)
    requires forall i | 0 <= i :: !HitAt(m, false, buf, i)
    ensures StartsLater(m, buf, cut)
  {
    forall i | 0 <= i ensures !OccursAt(buf, m.start, i) {
      assert m.start == m.Text(Restart);
      assert !HitAt(m, false, buf, i);
    }
  }

  /** What the breaking turn keeps starts at a line, or is a whole kept tail of a buffer without START. */
  lemma SettleCuts(m: Markers, s: State)
    requires m.NonEmpty() && TurnOf(m, s).Break?
    ensures var cut := |s.buf| - |Settle(m, s)|;
            && 0 <= cut && Settle(m, s) == s.buf[cut..]
            && (!Cuts(m, s) ==> CleanCut(s.buf, cut))
            && (Cuts(m, s) ==> |Settle(m, s)| == KEEP_TAIL && (s.pending.None? ==> Find(s.buf, m.start, 0).None?))
            && (s.pending.None? && Find(s.buf, m.start, 0).Some? ==> cut <= Find(s.buf, m.start, 0).value)
  {
    hide OccursAt, Find, FirstHit;
  }

  lemma SettleMirrors(m: Markers, s: State)
    requires m.NonEmpty() && TurnOf(m, s).Break?
    ensures Mirrors(m, !Cuts(m, s), s, State(Settle(m, s), s.pending))
  {
    hide OccursAt, HitAt, FirstHit, Settle, Cuts, StartsLater, Find, Fits;
    var cut := |s.buf| - |Settle(m, s)|;
    SettleCuts(m, s);
    if s.pending.None? {
      IdleBreakHasNoHits(m, s.buf, cut);
      if Cuts(m, s) {
        IdleBreakNoStart(m, s.buf);
        NoStartsLater(m, s.buf, cut);
      }
    } else {
      WaitingBreakHasNoHits(m, s.buf);
      forall i | 0 <= i ensures !HitAt(m, false, s.buf, i) {
        IdleHitsFewer(m, s.buf, i + 1);
      }
      NoStartsLater(m, s.buf, cut);
    }
  }

  lemma IdleBreakNoStart(m: Markers, buf: Bytes)
    requires m.NonEmpty() && Find(buf, m.start, 0).None?
    ensures forall i | 0 <= i :: !HitAt(m, false, buf, i)
  {
    hide Find, HitAt;
    forall i | 0 <= i ensures !HitAt(m, false, buf, i) {
      IdleBreakHasNoHits(m, buf, i + 1);
    }
  }

  lemma SamePendingTransitive(m: Markers, a: Option<Detection>, b: Option<Detection>, c: Option<Detection>)
    requires SamePending(m, a, b) && SamePending(m, b, c)
    ensures SamePending(m, a, c)
  {}

  /** Dropping twice is dropping more. */
  lemma DroppableTwice(m: Markers, waiting: bool, buf: Bytes, d: nat, e: nat)
    requires d + e <= |buf| && Droppable(m, waiting, buf, d) && Droppable(m, waiting, buf[d..], e)
    ensures Droppable(m, waiting, buf, d + e)
  {
    hide HitAt, StartsLater;
    forall i | 0 <= i < d + e ensures !HitAt(m, waiting, buf, i) {
      if d <= i {
        HitDrop(m, waiting, buf, d, i - d);
      }
    }
    if e > 0 {
      assert buf[d..][e - 1] == buf[d + e - 1];
      if !CleanCut(buf[d..], e) {
        StartsLaterBehind(m, waiting, buf, d, e);
      }
    }
  }

  lemma StartsLaterBehind(m: Markers, waiting: bool, buf: Bytes, d: nat, e: nat)
    requires d + e <= |buf| && (forall i | 0 <= i < d :: !HitAt(m, waiting, buf, i)) && StartsLater(m, buf[d..], e)
    ensures StartsLater(m, buf, d + e)
  {
    forall i | 0 <= i && OccursAt(buf, m.start, i) ensures i + |m.start| > d + e + KEEP_TAIL {
      assert OccursAt(buf, m.Text(Restart), i);
      assert HitAt(m, waiting, buf, i);
      OccursDrop(buf, d, m.start, i - d);
    }
  }

  lemma MirrorsTransitive(m: Markers, exact: bool, a: State, b: State, c: State)
    requires Mirrors(m, exact, a, b) && Mirrors(m, exact, b, c)
    ensures Mirrors(m, exact, a, c)
  {
    hide Droppable, Same;
    var d, e := |a.buf| - |b.buf|, |b.buf| - |c.buf|;
    SliceDrop(a.buf, d, e, |b.buf|);
    DroppableTwice(m, c.pending.Some?, a.buf, d, e);
    SamePendingTransitive(m, a.pending, b.pending, c.pending);
    if e > 0 { assert b.buf[e - 1] == a.buf[d + e - 1]; }
  }

  lemma MirrorsWeaken(m: Markers, exact: bool, whole: State, s: State)
    requires Mirrors(m, exact, whole, s)
    ensures Mirrors(m, false, whole, s)
  {
    hide Droppable, SamePending;
  }

  lemma KeepTailExact(buf: Bytes, cut: nat)
    requires cut <= |buf| && CleanCut(buf, cut)
    ensures KeepTail(buf) == KeepTail(buf[cut..])
  {
    hide LineStart, CleanCut, Unbroken;
    var rest := buf[cut..];
    var lineStart := LineStart(rest, |rest|);
    LineStartShift(buf, cut, |rest|);
    assert KeepFrom(|buf|, cut + lineStart) == cut + KeepFrom(|rest|, lineStart);
    SliceDrop(buf, cut, KeepFrom(|rest|, lineStart), |rest|);
  }

  /** After a clean cut the two buffers settle to the same bytes. */
  lemma SettleExact(m: Markers, whole: State, s: State)
    requires m.NonEmpty() && Mirrors(m, true, whole, s)
    ensures Settle(m, whole) == Settle(m, s)
  {
    hide Find, LineStart, KeepTail, HitAt, StartsLater;
    var cut := |whole.buf| - |s.buf|;
    KeepTailExact(whole.buf, cut);
    if s.pending.None? {
      FindStartShift(m, whole.buf, cut);
      if Find(s.buf, m.start, 0).Some? {
        var p := Find(s.buf, m.start, 0).value;
        LineStartShift(whole.buf, cut, p);
        SliceDrop(whole.buf, cut, LineStart(s.buf, p), |s.buf|);
      }
    }
  }

  // ---------- Any chunking ----------

  lemma ChunkStep(m: Markers, exact: bool, whole: State, s: State, chunk: Bytes)
    requires m.WellFormed() && Mirrors(m, exact, whole, s)
    requires exact ==> !CutsAfter(m, s, chunk)
    ensures var x := Drive(m, State(whole.buf + chunk, whole.pending));
            var y := AfterChunk(m, s, chunk);
            && AllSame(m, x.found, y.found)
            && (exact ==> x.found == y.found)
            && Mirrors(m, exact, x.state, y.state)
  {
    hide Mirrors, Settle, Cuts, AllSame;
    var w, t := State(whole.buf + chunk, whole.pending), State(s.buf + chunk, s.pending);
    MirrorsAppend(m, exact, whole, s, chunk);
    DriveMirrors(m, exact, w, t);
    var y := Drive(m, t).state;
    SettleMirrors(m, y);
    if !exact {
      MirrorsWeaken(m, !Cuts(m, y), y, State(Settle(m, y), y.pending));
    }
    MirrorsTransitive(m, exact, Drive(m, w).state, y, State(Settle(m, y), y.pending));
  }

  /** No call of the run ends in the cutting branch. */
  predicate NeverCuts(m: Markers, s: State, chunks: seq<Bytes>)
    requires m.NonEmpty()
    decreases |chunks|
  {
    chunks == [] || (!CutsAfter(m, s, chunks[0]) && NeverCuts(m, AfterChunk(m, s, chunks[0]).state, chunks[1..]))
  }

  lemma {:induction false} ChunkRun(m: Markers, exact: bool, whole: State, s: State, chunks: seq<Bytes>)
    requires m.WellFormed() && Mirrors(m, exact, whole, s) && TurnOf(m, whole).Break?
    requires exact ==> NeverCuts(m, s, chunks)
    ensures var x := Drive(m, State(whole.buf + Concat(chunks), whole.pending));
            var y := AfterChunks(m, s, chunks);
            && AllSame(m, x.found, y.found)
            && (exact ==> x.found == y.found)
            && Mirrors(m, exact, x.state, y.state)
    decreases |chunks|
  {
    hide Mirrors, CutsAfter, AfterChunk, TurnOf, AllSame;
    NoneAreSame(m);
    if chunks == [] {
      assert whole.buf + [] == whole.buf;
      DriveTurn(m, whole);
    } else {
      var c, rest := chunks[0], chunks[1..];
      ChunkStep(m, exact, whole, s, c);
      var x := Drive(m, State(whole.buf + c, whole.pending));
      var y := AfterChunk(m, s, c);
      ChunkRun(m, exact, x.state, y.state, rest);
      DriveAppend(m, State(whole.buf + c, whole.pending), Concat(rest));
      assert whole.buf + c + Concat(rest) == whole.buf + Concat(chunks);
      AllSameConcat(m, x.found, Drive(m, State(x.state.buf + Concat(rest), x.state.pending)).found,
                    y.found, AfterChunks(m, y.state, rest).found);
    }
  }

  /** Every chunking reports the same dialogs, in the same order, and leaves the same dialog pending; and each
      detection whose line fits is the same, timestamp included. */
  lemma ChunkingAgrees(m: Markers, s: State, chunks: seq<Bytes>)
    requires m.WellFormed() && TurnOf(m, s).Break?
    ensures var run, once := AfterChunks(m, s, chunks), AfterChunk(m, s, Concat(chunks));
            AllSame(m, once.found, run.found) && SamePending(m, once.state.pending, run.state.pending)
  {
    hide Droppable, Settle, AllSame, SamePending;
    SameAsItself(m, s.pending);
    MirrorsItself(m, false, s, s);
    ChunkRun(m, false, s, s, chunks);
  }

  lemma ChunkingKeepsDialogs(m: Markers, s: State, chunks: seq<Bytes>)
    requires m.WellFormed() && TurnOf(m, s).Break?
    ensures var run, once := AfterChunks(m, s, chunks), AfterChunk(m, s, Concat(chunks));
            && Dialogs(run.found) == Dialogs(once.found)
            && PendingDialog(run.state.pending) == PendingDialog(once.state.pending)
  {
    hide AllSame, AfterChunk, AfterChunks, TurnOf;
    ChunkingAgrees(m, s, chunks);
    AllSameMeans(m, AfterChunk(m, s, Concat(chunks)).found, AfterChunks(m, s, chunks).found);
  }

  lemma SameAsItself(m: Markers, p: Option<Detection>)
    ensures SamePending(m, p, p)
  {}

  /** When no call cuts inside a line, every chunking reports what one call reports, timestamps included,
      and leaves the same state. */
  lemma UncutChunkingIsExact(m: Markers, s: State, chunks: seq<Bytes>)
    requires m.WellFormed() && TurnOf(m, s).Break? && chunks != [] && NeverCuts(m, s, chunks)
    ensures AfterChunks(m, s, chunks) == AfterChunk(m, s, Concat(chunks))
  {
    hide OccursAt, Settle, CutsAfter, HitAt, StartsLater, AllSame;
    SameAsItself(m, s.pending);
    MirrorsItself(m, true, s, s);
    ChunkRun(m, true, s, s, chunks);
    var x := Drive(m, State(s.buf + Concat(chunks), s.pending)).state;
    var y := AfterChunks(m, s, chunks).state;
    SettleExact(m, x, y);
    RunIsSettled(m, s, chunks);
  }

  /** Trimming a trimmed buffer changes nothing. */
  lemma SettleTwice(m: Markers, s: State)
    requires m.NonEmpty() && TurnOf(m, s).Break? && !Cuts(m, s)
    ensures Settle(m, State(Settle(m, s), s.pending)) == Settle(m, s)
  {
    hide OccursAt, Settle, HitAt;
    SettleMirrors(m, s);
    SettleExact(m, s, State(Settle(m, s), s.pending));
  }

  lemma {:induction false} RunIsSettled(m: Markers, s: State, chunks: seq<Bytes>)
    requires m.NonEmpty() && chunks != [] && NeverCuts(m, s, chunks)
    ensures var y := AfterChunks(m, s, chunks).state; Settle(m, y) == y.buf
    decreases |chunks|
  {
    hide OccursAt, Settle, Cuts;
    SettleTwice(m, Drive(m, State(s.buf + chunks[0], s.pending)).state);
    if chunks[1..] != [] {
      RunIsSettled(m, AfterChunk(m, s, chunks[0]).state, chunks[1..]);
    }
  }

  /** A state and its cleanly trimmed copy answer every chunk alike. */
  lemma MirrorsAnswerAlike(m: Markers, whole: State, s: State, chunk: Bytes)
    requires m.WellFormed() && Mirrors(m, true, whole, s)
    ensures AfterChunk(m, whole, chunk) == AfterChunk(m, s, chunk)
  {
    hide Settle, Mirrors;
    var w, t := State(whole.buf + chunk, whole.pending), State(s.buf + chunk, s.pending);
    MirrorsAppend(m, true, whole, s, chunk);
    DriveMirrors(m, true, w, t);
    SettleExact(m, Drive(m, w).state, Drive(m, t).state);
    MirrorsPending(m, Drive(m, w).state, Drive(m, t).state);
  }

  lemma MirrorsPending(m: Markers, whole: State, s: State)
    requires Mirrors(m, true, whole, s)
    ensures whole.pending == s.pending
  {}

  /** One call on two chunks, with the buffer left untrimmed in between. */
  lemma AfterBoth(m: Markers, s: State, a: Bytes, b: Bytes)
    requires m.WellFormed()
    ensures var x := Drive(m, State(s.buf + a, s.pending));
            AfterChunk(m, s, a + b) == Outcome(x.found + AfterChunk(m, x.state, b).found, AfterChunk(m, x.state, b).state)
  {
    hide Settle;
    DriveAppend(m, State(s.buf + a, s.pending), b);
    assert s.buf + a + b == s.buf + (a + b);
  }

  lemma AfterTwo(m: Markers, s: State, a: Bytes, b: Bytes)
    requires m.NonEmpty()
    ensures var t := AfterChunk(m, s, a);
            AfterChunks(m, s, [a, b]) == Outcome(t.found + AfterChunk(m, t.state, b).found, AfterChunk(m, t.state, b).state)
  {
    hide AfterChunk;
    var t := AfterChunk(m, s, a).state;
    assert [a, b][1..] == [b];
    assert AfterChunks(m, t, [b]).found == AfterChunk(m, t, b).found + [];
  }

  /** Two calls against one: exact when the first call does not cut inside a line. */
  lemma UncutSplitIsExact(m: Markers, s: State, a: Bytes, b: Bytes)
    requires m.WellFormed() && !CutsAfter(m, s, a)
    ensures AfterChunks(m, s, [a, b]) == AfterChunk(m, s, a + b)
  {
    hide Settle, Mirrors, Cuts;
    var x := Drive(m, State(s.buf + a, s.pending)).state;
    SettleMirrors(m, x);
    MirrorsAnswerAlike(m, x, State(Settle(m, x), x.pending), b);
    AfterBoth(m, s, a, b);
    AfterTwo(m, s, a, b);
  }

  // ---------- The cut shows ----------

  /** The first byte of START is not found further inside any marker. */
  lemma NoStartByteInside(m: Markers, k: Kind, i: nat)
    requires m.WellFormed() && 0 < i < |m.Text(k)|
    ensures m.Text(k)[i] != m.start[0]
  {
    assert m.LacksStartByte(k);
    if k == Restart {
      assert m.start[1..][i - 1] == m.start[i];
    }
  }

  /** START appended to a text without markers is found where it was appended. */
  lemma StartFoundAtEnd(m: Markers, buf: Bytes)
    requires m.WellFormed() && forall i | 0 <= i :: !OccursAt(buf, m.start, i)
    ensures Find(buf + m.start, m.start, 0) == Some(|buf|)
    ensures Find(buf + m.start, m.end, |buf| + |m.start|) == None
  {
    var all := buf + m.start;
    forall j | 0 <= j < |buf| ensures !OccursAt(all, m.start, j) {
      if OccursAt(all, m.start, j) {
        if j + |m.start| <= |buf| {
          OccursAppend(buf, m.start, m.start, j);
        } else {
          NoStartByteInside(m, Restart, |buf| - j);
          OccursIndex(all, m.start, j, |buf|);
        }
      }
    }
    FindIs(all, m.start, 0, Some(|buf|));
    FindIs(all, m.end, |all|, None);
  }

  lemma RestartFoundAtEnd(m: Markers, buf: Bytes)
    requires m.WellFormed() && FirstHit(m, buf).None?
    ensures FirstHit(m, buf + m.start) == Some(Hit(|buf|, Restart))
  {
    FirstHitIsFirst(m, buf);
    var all := buf + m.start;
    assert m.Text(Restart) == m.start;
    forall j, k | 0 <= j < |buf| ensures !OccursAt(all, m.Text(k), j) {
      if OccursAt(all, m.Text(k), j) {
        if j + |m.Text(k)| <= |buf| {
          OccursAppend(buf, m.start, m.Text(k), j);
        } else {
          NoStartByteInside(m, k, |buf| - j);
          OccursIndex(all, m.Text(k), j, |buf|);
        }
      }
    }
    FirstHitIs(m, all, Hit(|buf|, Restart));
  }

  /** Feeding START to a resting scanner keeps the whole unfinished line in front of it. */
  lemma StartKeepsLine(m: Markers, s: State)
    requires m.WellFormed() && TurnOf(m, s).Break? && (s.pending.None? ==> Find(s.buf, m.start, 0).None?)
    ensures AfterChunk(m, s, m.start) == Outcome([], State(s.buf[LineStart(s.buf, |s.buf|)..] + m.start, None))
  {
    hide OccursAt, FirstHit, Find, LineStart;
    var t := State(s.buf + m.start, None);
    if s.pending.Some? {
      RestartFoundAtEnd(m, s.buf);
      FirstHitIsFirst(m, s.buf);
      DriveTurn(m, State(s.buf + m.start, s.pending));
    } else {
      FindIsFirst(s.buf, m.start, 0);
    }
    assert m.start == m.Text(Restart);
    StartFoundAtEnd(m, s.buf);
    DriveTurn(m, t);
    LineStartPrefix(s.buf, m.start, |s.buf|);
    SliceAppend(s.buf, m.start, LineStart(s.buf, |s.buf|), |s.buf|);
  }

  /** After a cut, a START arriving next is kept with less of its line than a single call keeps. */
  lemma CutShows(m: Markers, s: State, a: Bytes)
    requires m.WellFormed() && CutsAfter(m, s, a)
    ensures |AfterChunks(m, s, [a, m.start]).state.buf| < |AfterChunk(m, s, a + m.start).state.buf|
  {
    hide OccursAt, FirstHit, Find, HitAt, LineStart, AfterChunk, Mirrors;
    var x := Drive(m, State(s.buf + a, s.pending)).state;
    var t := State(Settle(m, x), x.pending);
    AfterChunkIs(m, s, a);
    SettleMirrors(m, x);
    TurnMirrors(m, false, x, t);
    CutLeavesNoStart(m, x);
    StartKeepsLine(m, x);
    StartKeepsLine(m, t);
    AfterBoth(m, s, a, m.start);
    AfterTwo(m, s, a, m.start);
  }

  lemma AfterChunkIs(m: Markers, s: State, a: Bytes)
    requires m.NonEmpty()
    ensures var x := Drive(m, State(s.buf + a, s.pending));
            AfterChunk(m, s, a) == Outcome(x.found, State(Settle(m, x.state), x.state.pending))
  {}

  lemma CutLeavesNoStart(m: Markers, s: State)
    requires m.NonEmpty() && Cuts(m, s) && TurnOf(m, s).Break?
    ensures s.pending.None? ==> Find(Settle(m, s), m.start, 0).None?
    ensures |Settle(m, s)| == KEEP_TAIL < |s.buf| - LineStart(s.buf, |s.buf|)
  {
    hide Find, LineStart;
    if s.pending.None? {
      SettleMirrors(m, s);
      FindStartShift(m, s.buf, |s.buf| - KEEP_TAIL);
    }
  }

  /** From any state, a chunk may be split off from whatever follows without any trace exactly when its
      call does not cut inside a line. */
  lemma SplitIsExactIff(m: Markers, s: State, a: Bytes)
    requires m.WellFormed()
    ensures (forall b :: AfterChunks(m, s, [a, b]) == AfterChunk(m, s, a + b)) <==> !CutsAfter(m, s, a)
  {
    if CutsAfter(m, s, a) {
      CutShows(m, s, a);
    } else {
      forall b ensures AfterChunks(m, s, [a, b]) == AfterChunk(m, s, a + b) {
        UncutSplitIsExact(m, s, a, b);
      }
    }
  }

  // ---------- Whole files ----------

  /** However a file is chunked, its scan agrees with scanning it at once: event by event where the line in front
      of START fits, and in the dialog everywhere. */
  lemma ChunkingAgreesWithScanAll(m: Markers, chunks: seq<Bytes>)
    requires m.WellFormed()
    ensures AllSame(m, ScanAll(m, Concat(chunks)), AfterChunks(m, INITIAL, chunks).found)
  {
    hide AllSame;
    NothingToScan(m);
    ChunkingAgrees(m, INITIAL, chunks);
  }

  /** A file whose reported dialogs have lines that fit yields the same events for every chunking, whatever its
      other lines are. */
  lemma ChunkingIsScanAll(m: Markers, chunks: seq<Bytes>)
    requires m.WellFormed() && AllFit(m, ScanAll(m, Concat(chunks)))
    ensures AfterChunks(m, INITIAL, chunks).found == ScanAll(m, Concat(chunks))
  {
    hide AllSame, AllFit;
    ChunkingAgreesWithScanAll(m, chunks);
    AllSameMeans(m, ScanAll(m, Concat(chunks)), AfterChunks(m, INITIAL, chunks).found);
  }

  /** For every file whatsoever, the dialogs reported are those of scanning it at once. */
  lemma ChunkingDialogsAreScanAll(m: Markers, chunks: seq<Bytes>)
    requires m.WellFormed()
    ensures Dialogs(AfterChunks(m, INITIAL, chunks).found) == Dialogs(ScanAll(m, Concat(chunks)))
  {
    hide AllSame;
    ChunkingAgreesWithScanAll(m, chunks);
    AllSameMeans(m, ScanAll(m, Concat(chunks)), AfterChunks(m, INITIAL, chunks).found);
  }

  lemma NothingToScan(m: Markers)
    requires m.NonEmpty()
    ensures TurnOf(m, INITIAL).Break? && AfterChunk(m, INITIAL, []) == Outcome([], INITIAL)
  {
    DriveTurn(m, INITIAL);
  }

  // ---------- What every call leaves ----------

  /** Idle with the START of an unfinished dialog, or with less than a line and no marker it waits for. */
  ghost predicate Rests(m: Markers, t: State)
    requires m.NonEmpty()
  {
    var p := Find(t.buf, m.start, 0);
    && TurnOf(m, t).Break?
    && (if t.pending.None? && p.Some? then Find(t.buf, m.end, p.value + |m.start|).None?
        else p.None? && Unbroken(t.buf, 0, |t.buf|) && |t.buf| <= KEEP_TAIL)
  }

  /** After every call the scanner rests. */
  lemma AfterChunkRests(m: Markers, s: State, chunk: Bytes)
    requires m.WellFormed()
    ensures Rests(m, AfterChunk(m, s, chunk).state)
  {
    hide TurnOf, Settle, Find;
    AfterChunkIs(m, s, chunk);
    SettledRests(m, Drive(m, State(s.buf + chunk, s.pending)).state);
  }

  lemma KeepTailRests(buf: Bytes)
    ensures Unbroken(KeepTail(buf), 0, |KeepTail(buf)|) && |KeepTail(buf)| <= KEEP_TAIL
  {
  }

  lemma SettledRests(m: Markers, x: State)
    requires m.WellFormed() && TurnOf(m, x).Break?
    ensures Rests(m, State(Settle(m, x), x.pending))
  {
    hide OccursAt, HitAt, LineStart, KeepTail, Find, FirstHit, Markers.Plain, Markers.NeverNests, Markers.LacksStartByte;
    var t := State(Settle(m, x), x.pending);
    SettleMirrors(m, x);
    TurnMirrors(m, false, x, t);
    KeepTailRests(x.buf);
    if t.pending.Some? {
      WaitingBreakHasNoHits(m, t.buf);
      IdleHitsFewer(m, t.buf, |t.buf|);
      FindStartShift(m, t.buf, |t.buf|);
      assert t.buf[|t.buf|..] == [];
      NothingInNothing(m.start);
    } else {
      FindStartShift(m, x.buf, |x.buf| - |t.buf|);
    }
  }

  lemma NothingInNothing(needle: Bytes)
    requires needle != []
    ensures Find([], needle, 0).None?
  {
  }

  // ---------- The timestamp a cut loses ----------

  /** END is complete nowhere before the end of `dialog + END`. */
  ghost predicate EndsThere(m: Markers, dialog: Bytes) {
    forall i | 0 <= i < |dialog| :: !OccursAt(dialog + m.end, m.end, i)
  }

  /** One confirmed trade in the log. */
  function TradeLog(m: Markers, line: Bytes, dialog: Bytes): Bytes {
    line + m.start + (dialog + m.end + m.success)
  }

  lemma DialogAfterLine(m: Markers, line: Bytes, dialog: Bytes)
    requires m.WellFormed() && Unbroken(line, 0, |line|) && EndsThere(m, dialog)
    requires forall i | 0 <= i :: !OccursAt(line, m.start, i)
    ensures ScanAll(m, TradeLog(m, line, dialog)) == [Detection(line, dialog)]
  {
    hide FirstHit, IdleTurn, Settle, EndsThere, TradeLog, OccursAt, Markers.Plain, Markers.NeverNests, Markers.LacksStartByte;
    var buf := TradeLog(m, line, dialog);
    TradeLogIs(m, line, dialog);
    assert line[0..] == line;
    DialogIsTaken(m, line, 0, dialog, m.success);
    DriveTurn(m, State(buf, None));
    SuccessReports(m, Detection(line, dialog));
    assert [] + buf == buf;
  }

  lemma SuccessReports(m: Markers, d: Detection)
    requires m.WellFormed()
    ensures Drive(m, State(m.success, Some(d))) == Outcome([d], INITIAL)
  {
    hide FirstHit, Settle, Markers.Plain, Markers.NeverNests, Markers.LacksStartByte;
    var waiting := State(m.success, Some(d));
    SuccessAtHand(m);
    DriveTurn(m, waiting);
    NothingToScan(m);
    DriveTurn(m, INITIAL);
    assert m.success[|m.success|..] == [];
    assert TurnOf(m, waiting) == Continue([d], INITIAL);
  }

  lemma EndFound(m: Markers, front: Bytes, dialog: Bytes, back: Bytes)
    requires m.NonEmpty() && EndsThere(m, dialog)
    ensures Find(front + (dialog + m.end) + back, m.end, |front|) == Some(|front| + |dialog|)
  {
    hide OccursAt;
    var hay, e := dialog + m.end, |front| + |dialog|;
    assert OccursAt(hay, m.end, |dialog|) by { EndIsThere(m, dialog); }
    OccursShift(front, hay, back, m.end, |dialog|);
    forall j | |front| <= j < e ensures !OccursAt(front + hay + back, m.end, j) {
      OccursShift(front, hay, back, m.end, j - |front|);
    }
    FindIs(front + hay + back, m.end, |front|, Some(e));
  }

  lemma EndIsThere(m: Markers, dialog: Bytes)
    ensures OccursAt(dialog + m.end, m.end, |dialog|)
  {
  }

  /** A dialog behind some text, with anything behind it. */
  function DialogLog(m: Markers, text: Bytes, dialog: Bytes, rest: Bytes): Bytes {
    text + m.start + (dialog + m.end + rest)
  }

  lemma TradeLogIs(m: Markers, line: Bytes, dialog: Bytes)
    ensures TradeLog(m, line, dialog) == DialogLog(m, line, dialog, m.success)
  {}

  /** It is taken with the last line of the text, which begins at `at`. */
  lemma DialogIsTaken(m: Markers, text: Bytes, at: nat, dialog: Bytes, rest: Bytes)
    requires m.WellFormed() && EndsThere(m, dialog)
    requires at <= |text| && Unbroken(text, at, |text|) && (at == 0 || text[at - 1] == LF)
    requires forall i | 0 <= i :: !OccursAt(text, m.start, i)
    ensures IdleTurn(m, DialogLog(m, text, dialog, rest)) == Continue([], State(rest, Some(Detection(text[at..], dialog))))
  {
    hide LineStart, Find, OccursAt, EndsThere;
    var buf := DialogLog(m, text, dialog, rest);
    var p, from := |text|, |text| + |m.start|;
    var e := from + |dialog|;
    StartFoundAtEnd(m, text);
    FindAppend(text + m.start, dialog + m.end + rest, m.start, 0);
    EndFound(m, text + m.start, dialog, rest);
    assert text + m.start + (dialog + m.end) + rest == buf;
    LineStartIs(buf, p, at);
    assert buf[at..p] == text[at..] && buf[from..e] == dialog && buf[e + |m.end|..] == rest;
    assert Taken(m, buf, p, e) == State(rest, Some(Detection(text[at..], dialog)));
  }

  lemma SuccessAtHand(m: Markers)
    requires m.WellFormed()
    ensures FirstHit(m, m.success) == Some(Hit(0, Success))
  {
    assert OccursAt(m.success, m.Text(Success), 0);
    FirstHitIs(m, m.success, Hit(0, Success));
  }

  /** The concrete failure: a dialog on a line longer than the kept tail is reported with only the end of
      its line when a chunk ends in front of START, and with all of it when it does not. */
  lemma CutLosesTimestamp(m: Markers, line: Bytes, dialog: Bytes)
    requires m.WellFormed() && Unbroken(line, 0, |line|) && |line| > 65536 && EndsThere(m, dialog)
    requires forall i | 0 <= i :: !OccursAt(line, m.start, i)
    ensures var rest := TradeLog(m, [], dialog);
            && ScanAll(m, line + rest) == [Detection(line, dialog)]
            && AfterChunks(m, INITIAL, [line, rest]).found == [Detection(line[|line| - 65536..], dialog)]
  {
    hide FirstHit, Find, LineStart, EndsThere, OccursAt;
    var rest := TradeLog(m, [], dialog);
    var tail := line[|line| - KEEP_TAIL..];
    assert line + rest == TradeLog(m, line, dialog) && tail + rest == TradeLog(m, tail, dialog);
    DialogAfterLine(m, line, dialog);
    LongLineIsCut(m, line);
    forall i | 0 <= i ensures !OccursAt(tail, m.start, i) {
      OccursDrop(line, |line| - KEEP_TAIL, m.start, i);
    }
    DialogAfterLine(m, tail, dialog);
    assert [] + (tail + rest) == tail + rest;
    AfterTwo(m, INITIAL, line, rest);
  }

  lemma LongLineIsCut(m: Markers, line: Bytes)
    requires m.WellFormed() && Unbroken(line, 0, |line|) && |line| > KEEP_TAIL
    requires forall i | 0 <= i :: !OccursAt(line, m.start, i)
    ensures AfterChunk(m, INITIAL, line) == Outcome([], State(line[|line| - KEEP_TAIL..], None))
  {
    hide FirstHit, Find, LineStart;
    FindIs(line, m.start, 0, None);
    LineStartIs(line, |line|, 0);
    assert [] + line == line;
    DriveTurn(m, State(line, None));
  }
}
