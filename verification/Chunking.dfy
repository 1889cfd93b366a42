/** Feeding a file in chunks against feeding it at once: what the trimming of the buffer can change. */
module Chunking {
  import opened Options
  import opened Search
  import opened LogMarkers
  import opened Scan

  function Dialogs(found: seq<Detection>): (r: seq<Bytes>)
    ensures |r| == |found| && forall i | 0 <= i < |found| :: r[i] == found[i].dialog
  {
    if found == [] then [] else [found[0].dialog] + Dialogs(found[1..])
  }

  /** The line in front of START fits into the kept tail along with all but the last byte of START, the most that
      can have arrived while START is not yet seen. */
  predicate Fits(m: Markers, d: Detection) {
    |d.line| + |m.start| - 1 <= KEEP_TAIL
  }

  ghost predicate AllFit(m: Markers, found: seq<Detection>) {
    forall d <- found :: Fits(m, d)
  }

  /** `b` is `a`, unless `a`'s line does not fit; its dialog is `a`'s in any case. */
  predicate Same(m: Markers, a: Detection, b: Detection) {
    a.dialog == b.dialog && (Fits(m, a) ==> a == b)
  }

  ghost predicate AllSame(m: Markers, a: seq<Detection>, b: seq<Detection>) {
    |a| == |b| && forall i | 0 <= i < |a| :: Same(m, a[i], b[i])
  }

  predicate SamePending(m: Markers, a: Option<Detection>, b: Option<Detection>) {
    if a.None? then b.None? else b.Some? && Same(m, a.value, b.value)
  }

  lemma AllSameConcat(m: Markers, a: seq<Detection>, b: seq<Detection>, c: seq<Detection>, d: seq<Detection>)
    requires AllSame(m, a, c) && AllSame(m, b, d)
    ensures AllSame(m, a + b, c + d)
  {}

  lemma NoneAreSame(m: Markers)
    ensures AllSame(m, [], [])
  {}

  /** Agreeing detections have the same dialogs, and are the same where all lines fit. */
  lemma AllSameMeans(m: Markers, a: seq<Detection>, b: seq<Detection>)
    requires AllSame(m, a, b)
    ensures Dialogs(a) == Dialogs(b)
    ensures AllFit(m, a) ==> a == b
  {}

  function PendingDialog(p: Option<Detection>): Option<Bytes> {
    match p case None => None case Some(d) => Some(d.dialog)
  }

  function Concat(chunks: seq<Bytes>): Bytes {
    if chunks == [] then [] else chunks[0] + Concat(chunks[1..])
  }

  // ---------- Markers seen and missed ----------

  /** A marker that a scanner in this mode acts on stands at `i`. */
  ghost predicate HitAt(m: Markers, waiting: bool, buf: Bytes, i: int) {
    exists k :: (waiting || k == Restart) && OccursAt(buf, m.Text(k), i)
  }

  /** Two markers never share their first byte. */
  lemma FirstHitIs(m: Markers, buf: Bytes, h: Hit)
    requires m.WellFormed()
    requires OccursAt(buf, m.Text(h.kind), h.pos)
    requires forall i | 0 <= i < h.pos :: !HitAt(m, true, buf, i)
    ensures FirstHit(m, buf) == Some(h)
  {
    FirstHitIsFirst(m, buf);
    var f := FirstHit(m, buf);
    assert f.Some? && f.value.pos <= h.pos;
    assert HitAt(m, true, buf, f.value.pos);
    var k, l := f.value.kind, h.kind;
    if k != l {
      assert m.NeverNests(k, l) && m.NeverNests(l, k);
      if |m.Text(k)| <= |m.Text(l)| {
        Nested(buf, m.Text(l), m.Text(k), h.pos, h.pos);
      } else {
        Nested(buf, m.Text(k), m.Text(l), h.pos, h.pos);
      }
    }
  }

  /** Bytes that arrive later never complete a marker in front of one already complete. */
  lemma FirstHitAppend(m: Markers, buf: Bytes, more: Bytes)
    requires m.WellFormed() && FirstHit(m, buf).Some?
    ensures FirstHit(m, buf + more) == FirstHit(m, buf)
  {
    FirstHitIsFirst(m, buf);
    var h := FirstHit(m, buf).value;
    OccursAppend(buf, more, m.Text(h.kind), h.pos);
    forall i | 0 <= i < h.pos ensures !HitAt(m, true, buf + more, i) {
      forall k ensures !OccursAt(buf + more, m.Text(k), i) {
        if OccursAt(buf + more, m.Text(k), i) {
          if i + |m.Text(k)| <= |buf| {
            OccursAppend(buf, more, m.Text(k), i);
          } else {
            assert k != h.kind ==> m.NeverNests(k, h.kind);
            Nested(buf + more, m.Text(k), m.Text(h.kind), i, h.pos);
          }
        }
      }
    }
    FirstHitIs(m, buf + more, h);
  }

  // ---------- Untrimmed scanning is a homomorphism ----------

  lemma LineStartPrefix(buf: Bytes, more: Bytes, at: nat)
    requires at <= |buf|
    ensures LineStart(buf + more, at) == LineStart(buf, at)
  {
    LineStartIs(buf + more, at, LineStart(buf, at));
  }

  lemma TakenAppend(m: Markers, buf: Bytes, more: Bytes, p: nat, e: nat)
    requires p + |m.start| <= e && e + |m.end| <= |buf|
    ensures Taken(m, buf + more, p, e) == State(Taken(m, buf, p, e).buf + more, Taken(m, buf, p, e).pending)
  {
    hide LineStart;
    LineStartPrefix(buf, more, p);
    SliceAppend(buf, more, e + |m.end|, |buf|);
    SliceAppend(buf, more, LineStart(buf, p), p);
    SliceAppend(buf, more, p + |m.start|, e);
  }

  lemma IdleTurnAppend(m: Markers, buf: Bytes, more: Bytes)
    requires m.NonEmpty() && IdleTurn(m, buf).Continue?
    ensures IdleTurn(m, buf + more) == Continue([], State(IdleTurn(m, buf).next.buf + more, IdleTurn(m, buf).next.pending))
  {
    hide Find, Taken;
    var p := Find(buf, m.start, 0).value;
    FindAppend(buf, more, m.start, 0);
    FindAppend(buf, more, m.end, p + |m.start|);
    TakenAppend(m, buf, more, p, Find(buf, m.end, p + |m.start|).value);
  }

  lemma WaitingTurnAppend(m: Markers, buf: Bytes, d: Detection, more: Bytes)
    requires m.WellFormed() && WaitingTurn(m, buf, d).Continue?
    ensures WaitingTurn(m, buf + more, d) ==
            Continue(WaitingTurn(m, buf, d).found, State(WaitingTurn(m, buf, d).next.buf + more, None))
  {
    hide FirstHit;
    FirstHitAppend(m, buf, more);
    var h := FirstHit(m, buf).value;
    SliceAppend(buf, more, h.pos + |m.Text(h.kind)|, |buf|);
  }

  lemma TurnAppend(m: Markers, s: State, more: Bytes)
    requires m.WellFormed() && TurnOf(m, s).Continue?
    ensures TurnOf(m, State(s.buf + more, s.pending)) ==
            Continue(TurnOf(m, s).found, State(TurnOf(m, s).next.buf + more, TurnOf(m, s).next.pending))
  {
    hide IdleTurn, WaitingTurn;
    if s.pending.None? {
      IdleTurnAppend(m, s.buf, more);
      IdleFindsNothing(m, s.buf);
    } else {
      WaitingTurnAppend(m, s.buf, s.pending.value, more);
    }
  }

  lemma IdleFindsNothing(m: Markers, buf: Bytes)
    requires m.NonEmpty()
    ensures IdleTurn(m, buf).Continue? ==> IdleTurn(m, buf).found == []
  {}

  /** Without trimming, scanning a text in two parts is scanning it at once. */
  lemma {:induction false} DriveAppend(m: Markers, s: State, more: Bytes)
    requires m.WellFormed()
    ensures var a := Drive(m, s);
            var b := Drive(m, State(a.state.buf + more, a.state.pending));
            Drive(m, State(s.buf + more, s.pending)) == Outcome(a.found + b.found, b.state)
    decreases |s.buf|, if s.pending.Some? then 1 else 0
  {
    DriveTurn(m, s);
    if TurnOf(m, s).Continue? {
      var t := TurnOf(m, s);
      DriveAppend(m, t.next, more);
      TurnAppend(m, s, more);
      DriveTurn(m, State(s.buf + more, s.pending));
      var a := Drive(m, t.next);
      Associate(t.found, a.found, Drive(m, State(a.state.buf + more, a.state.pending)).found);
    }
  }

  // ---------- What the trimming may drop ----------

  /** A cut at the start of a line. */
  ghost predicate CleanCut(buf: Bytes, cut: nat)
    requires cut <= |buf|
  {
    cut == 0 || buf[cut - 1] == LF
  }

  /** Every START in `buf` was complete only after the kept tail's end had arrived. */
  ghost predicate StartsLater(m: Markers, buf: Bytes, cut: nat) {
    forall i | 0 <= i && OccursAt(buf, m.start, i) :: i + |m.start| > cut + KEEP_TAIL
  }

  /** Nothing before `cut` can be, or become, part of a marker the scanner acts on, nor of a line that fits. */
  ghost predicate Droppable(m: Markers, waiting: bool, buf: Bytes, cut: nat)
    requires cut <= |buf|
  {
    && (forall i | 0 <= i < cut :: !HitAt(m, waiting, buf, i))
    && (CleanCut(buf, cut) || (|buf| - cut >= KEEP_TAIL && StartsLater(m, buf, cut)))
  }

  /** `s` is `whole` after droppable bytes were dropped. Only a cut inside a line lets the pending
      dialogs differ, and then only in a line that does not fit. */
  ghost predicate Mirrors(m: Markers, exact: bool, whole: State, s: State) {
    && |s.buf| <= |whole.buf|
    && var cut := |whole.buf| - |s.buf|;
    && whole.buf[cut..] == s.buf
    && Droppable(m, s.pending.Some?, whole.buf, cut)
    && SamePending(m, whole.pending, s.pending)
    && (exact ==> CleanCut(whole.buf, cut) && whole.pending == s.pending)
  }

  lemma StartsLaterAppend(m: Markers, buf: Bytes, cut: nat, more: Bytes)
    requires cut + KEEP_TAIL <= |buf| && StartsLater(m, buf, cut)
    ensures StartsLater(m, buf + more, cut)
  {
    forall i | 0 <= i && OccursAt(buf + more, m.start, i) ensures i + |m.start| > cut + KEEP_TAIL {
      if i + |m.start| <= |buf| {
        OccursAppend(buf, more, m.start, i);
      }
    }
  }

  lemma NoHitAppend(m: Markers, waiting: bool, buf: Bytes, cut: nat, more: Bytes)
    requires m.WellFormed() && cut <= |buf| && forall i | 0 <= i < cut :: !HitAt(m, waiting, buf, i)
    requires CleanCut(buf, cut) || |buf| - cut >= KEEP_TAIL
    ensures forall i | 0 <= i < cut :: !HitAt(m, waiting, buf + more, i)
  {
    forall i | 0 <= i < cut ensures !HitAt(m, waiting, buf + more, i) {
      forall k | waiting || k == Restart ensures !OccursAt(buf + more, m.Text(k), i) {
        if OccursAt(buf + more, m.Text(k), i) {
          if i + |m.Text(k)| <= |buf| {
            OccursAppend(buf, more, m.Text(k), i);
            assert HitAt(m, waiting, buf, i);
          } else {
            assert m.Plain(k);
            OccursIndex(buf + more, m.Text(k), i, cut - 1);
          }
        }
      }
    }
  }

  lemma DroppableAppend(m: Markers, waiting: bool, buf: Bytes, cut: nat, more: Bytes)
    requires m.WellFormed() && cut <= |buf| && Droppable(m, waiting, buf, cut)
    ensures Droppable(m, waiting, buf + more, cut)
  {
    hide HitAt, StartsLater;
    NoHitAppend(m, waiting, buf, cut, more);
    if !CleanCut(buf, cut) {
      StartsLaterAppend(m, buf, cut, more);
    }
  }

  lemma MirrorsAppend(m: Markers, exact: bool, whole: State, s: State, more: Bytes)
    requires m.WellFormed() && Mirrors(m, exact, whole, s)
    ensures Mirrors(m, exact, State(whole.buf + more, whole.pending), State(s.buf + more, s.pending))
  {
    hide Droppable, SamePending;
    var cut := |whole.buf| - |s.buf|;
    DroppableAppend(m, s.pending.Some?, whole.buf, cut, more);
    assert (whole.buf + more)[cut..] == s.buf + more;
  }

  lemma LineStartShift(buf: Bytes, cut: nat, at: nat)
    requires cut + at <= |buf| && CleanCut(buf, cut)
    ensures LineStart(buf, cut + at) == cut + LineStart(buf[cut..], at)
  {
    LineStartIs(buf, cut + at, cut + LineStart(buf[cut..], at));
  }

  lemma HitDrop(m: Markers, waiting: bool, buf: Bytes, cut: nat, i: nat)
    requires cut <= |buf|
    ensures HitAt(m, waiting, buf[cut..], i) <==> HitAt(m, waiting, buf, cut + i)
  {
    forall k ensures OccursAt(buf[cut..], m.Text(k), i) <==> OccursAt(buf, m.Text(k), cut + i) {
      OccursDrop(buf, cut, m.Text(k), i);
    }
  }

  lemma HitAtFirst(m: Markers, buf: Bytes)
    requires m.NonEmpty()
    ensures var f := FirstHit(m, buf);
            && (f.Some? ==> OccursAt(buf, m.Text(f.value.kind), f.value.pos) && HitAt(m, true, buf, f.value.pos))
            && (forall i: nat | f.Some? ==> i < f.value.pos :: !HitAt(m, true, buf, i))
  {
    hide FirstHit, OccursAt;
    FirstHitIsFirst(m, buf);
  }

  /** A waiting scanner finds the same marker behind dropped bytes. */
  lemma FirstHitShift(m: Markers, buf: Bytes, cut: nat)
    requires m.WellFormed() && cut <= |buf| && forall i | 0 <= i < cut :: !HitAt(m, true, buf, i)
    ensures FirstHit(m, buf[cut..]).None? ==> FirstHit(m, buf).None?
    ensures FirstHit(m, buf[cut..]).Some? ==>
              var h := FirstHit(m, buf[cut..]).value; FirstHit(m, buf) == Some(Hit(cut + h.pos, h.kind))
  {
    hide FirstHit, OccursAt, HitAt;
    HitAtFirst(m, buf[cut..]);
    HitAtFirst(m, buf);
    var f := FirstHit(m, buf[cut..]);
    if f.Some? {
      var h := Hit(cut + f.value.pos, f.value.kind);
      OccursDrop(buf, cut, m.Text(h.kind), f.value.pos);
      forall i | 0 <= i < h.pos ensures !HitAt(m, true, buf, i) {
        if cut <= i { HitDrop(m, true, buf, cut, i - cut); }
      }
      FirstHitIs(m, buf, h);
    } else if FirstHit(m, buf).Some? {
      var h := FirstHit(m, buf).value;
      HitDrop(m, true, buf, cut, if h.pos < cut then 0 else h.pos - cut);
      assert false;
    }
  }

  lemma IdleHitsFewer(m: Markers, buf: Bytes, cut: nat)
    requires forall i | 0 <= i < cut :: !HitAt(m, true, buf, i)
    ensures forall i | 0 <= i < cut :: !HitAt(m, false, buf, i)
  {
    forall i | 0 <= i < cut ensures !HitAt(m, false, buf, i) {
      assert !HitAt(m, true, buf, i);
    }
  }

  lemma NoStartBefore(m: Markers, buf: Bytes, cut: nat)
    requires forall i | 0 <= i < cut :: !HitAt(m, false, buf, i)
    ensures forall i | 0 <= i < cut :: !OccursAt(buf, m.start, i)
  {
    forall i | 0 <= i < cut ensures !OccursAt(buf, m.start, i) {
      assert m.start == m.Text(Restart);
      assert !HitAt(m, false, buf, i);
    }
  }

  /** An idle scanner finds the same START behind dropped bytes. */
  lemma FindStartShift(m: Markers, buf: Bytes, cut: nat)
    requires m.NonEmpty() && cut <= |buf| && forall i | 0 <= i < cut :: !HitAt(m, false, buf, i)
    ensures Find(buf[cut..], m.start, 0).None? ==> Find(buf, m.start, 0).None?
    ensures Find(buf[cut..], m.start, 0).Some? ==> Find(buf, m.start, 0) == Some(cut + Find(buf[cut..], m.start, 0).value)
  {
    hide Find, OccursAt, HitAt;
    FindDrop(buf, m.start, cut, 0);
    NoStartBefore(m, buf, cut);
    FindIsFirst(buf, m.start, cut);
    FindIs(buf, m.start, 0, Find(buf, m.start, cut));
  }

  lemma MirrorsItself(m: Markers, exact: bool, whole: State, s: State)
    requires whole.buf == s.buf && SamePending(m, whole.pending, s.pending)
    requires exact ==> whole.pending == s.pending
    ensures Mirrors(m, exact, whole, s)
  {}

  /** A line that starts behind the cut starts at the same byte there. */
  lemma LineStartBehind(buf: Bytes, cut: nat, at: nat)
    requires cut + at <= |buf| && cut <= LineStart(buf, cut + at)
    ensures LineStart(buf, cut + at) == cut + LineStart(buf[cut..], at)
  {
    LineStartIs(buf[cut..], at, LineStart(buf, cut + at) - cut);
  }

  lemma TakenShift(m: Markers, buf: Bytes, cut: nat, p: nat, e: nat)
    requires cut <= |buf| && p + |m.start| <= e && e + |m.end| <= |buf| - cut
    ensures var a, b := Taken(m, buf, cut + p, cut + e), Taken(m, buf[cut..], p, e);
            && a.buf == b.buf
            && a.pending.value.dialog == b.pending.value.dialog
            && (CleanCut(buf, cut) || cut <= LineStart(buf, cut + p) ==> a == b)
  {
    hide LineStart;
    SliceDrop(buf, cut, e + |m.end|, |buf| - cut);
    SliceDrop(buf, cut, p + |m.start|, e);
    if CleanCut(buf, cut) || cut <= LineStart(buf, cut + p) {
      if CleanCut(buf, cut) { LineStartShift(buf, cut, p); } else { LineStartBehind(buf, cut, p); }
      SliceDrop(buf, cut, LineStart(buf[cut..], p), p);
    }
  }

  /** Behind a cut that no START was complete before, the taken dialogs agree. */
  lemma TakenAgree(m: Markers, buf: Bytes, cut: nat, p: nat, e: nat)
    requires cut <= |buf| && p + |m.start| <= e && e + |m.end| <= |buf| - cut
    requires CleanCut(buf, cut) || cut + p + |m.start| > cut + KEEP_TAIL
    ensures var a, b := Taken(m, buf, cut + p, cut + e), Taken(m, buf[cut..], p, e);
            a.buf == b.buf && SamePending(m, a.pending, b.pending) && (CleanCut(buf, cut) ==> a == b)
  {
    hide LineStart;
    TakenShift(m, buf, cut, p, e);
  }

  /** An idle turn behind dropped bytes. */
  lemma IdleTurnShift(m: Markers, buf: Bytes, cut: nat)
    requires m.NonEmpty() && cut <= |buf| && Droppable(m, false, buf, cut)
    ensures var a, b := IdleTurn(m, buf), IdleTurn(m, buf[cut..]);
            && (a.Break? <==> b.Break?)
            && (a.Continue? ==>
              && a.next.buf == b.next.buf
              && SamePending(m, a.next.pending, b.next.pending)
              && (CleanCut(buf, cut) ==> a.next == b.next))
  {
    hide Find, Taken, HitAt, OccursAt, CleanCut, SamePending;
    FindStartShift(m, buf, cut);
    if Find(buf[cut..], m.start, 0).Some? {
      var p := Find(buf[cut..], m.start, 0).value;
      FindIsFirst(buf, m.start, 0);
      FindDrop(buf, m.end, cut, p + |m.start|);
      if Find(buf[cut..], m.end, p + |m.start|).Some? {
        TakenAgree(m, buf, cut, p, Find(buf[cut..], m.end, p + |m.start|).value);
      }
    }
  }

  lemma IdleTurnMirrors(m: Markers, exact: bool, whole: State, s: State)
    requires m.NonEmpty() && Mirrors(m, exact, whole, s) && s.pending.None?
    ensures IdleTurn(m, whole.buf).Break? <==> IdleTurn(m, s.buf).Break?
    ensures IdleTurn(m, s.buf).Continue? ==>
              Mirrors(m, exact, IdleTurn(m, whole.buf).next, IdleTurn(m, s.buf).next)
  {
    hide IdleTurn, HitAt, StartsLater, SamePending;
    IdleTurnShift(m, whole.buf, |whole.buf| - |s.buf|);
    if IdleTurn(m, s.buf).Continue? {
      MirrorsItself(m, exact, IdleTurn(m, whole.buf).next, IdleTurn(m, s.buf).next);
    }
  }

  lemma WaitingTurnMirrors(m: Markers, exact: bool, whole: State, s: State)
    requires m.WellFormed() && Mirrors(m, exact, whole, s) && s.pending.Some?
    ensures var a, b := WaitingTurn(m, whole.buf, whole.pending.value), WaitingTurn(m, s.buf, s.pending.value);
            && (a.Break? <==> b.Break?)
            && (b.Continue? ==> AllSame(m, a.found, b.found) && Mirrors(m, exact, a.next, b.next))
            && (b.Continue? && exact ==> a.found == b.found)
  {
    hide WaitingTurn, FirstHit, HitAt, StartsLater, Fits, Markers.Plain, Markers.NeverNests, Markers.LacksStartByte;
    var cut := |whole.buf| - |s.buf|;
    WaitingTurnShift(m, whole.buf, cut, whole.pending.value, s.pending.value);
    var a, b := WaitingTurn(m, whole.buf, whole.pending.value), WaitingTurn(m, s.buf, s.pending.value);
    if b.Continue? {
      if a.next == State(whole.buf, None) && b.next == State(s.buf, None) {
        RestartMirrors(m, exact, whole, s);
      } else {
        MirrorsItself(m, exact, a.next, b.next);
      }
    }
  }

  /** A waiting turn behind dropped bytes: only a new dialog leaves the two buffers apart. */
  lemma WaitingTurnShift(m: Markers, buf: Bytes, cut: nat, d: Detection, e: Detection)
    requires m.WellFormed() && cut <= |buf| && forall i | 0 <= i < cut :: !HitAt(m, true, buf, i)
    ensures var a, b := WaitingTurn(m, buf, d), WaitingTurn(m, buf[cut..], e);
            && (a.Break? <==> b.Break?)
            && (b.Continue? ==> a.next == b.next || (a.next == State(buf, None) && b.next == State(buf[cut..], None)))
            && (b.Continue? ==> (a.found == [] && b.found == []) || (a.found == [d] && b.found == [e]))
  {
    hide FirstHit, HitAt, OccursAt, Markers.Plain, Markers.NeverNests, Markers.LacksStartByte;
    FirstHitShift(m, buf, cut);
    if FirstHit(m, buf[cut..]).Some? {
      var h := FirstHit(m, buf[cut..]).value;
      if h.kind != Restart {
        SliceDrop(buf, cut, h.pos + |m.Text(h.kind)|, |buf| - cut);
      }
    }
  }

  lemma RestartMirrors(m: Markers, exact: bool, whole: State, s: State)
    requires Mirrors(m, exact, whole, s) && s.pending.Some?
    ensures Mirrors(m, exact, State(whole.buf, None), State(s.buf, None))
  {
    hide HitAt, StartsLater;
    IdleHitsFewer(m, whole.buf, |whole.buf| - |s.buf|);
  }

  lemma TurnMirrors(m: Markers, exact: bool, whole: State, s: State)
    requires m.WellFormed() && Mirrors(m, exact, whole, s)
    ensures TurnOf(m, whole).Break? <==> TurnOf(m, s).Break?
    ensures TurnOf(m, s).Continue? ==>
              && AllSame(m, TurnOf(m, whole).found, TurnOf(m, s).found)
              && (exact ==> TurnOf(m, whole).found == TurnOf(m, s).found)
              && Mirrors(m, exact, TurnOf(m, whole).next, TurnOf(m, s).next)
  {
    hide IdleTurn, WaitingTurn, Droppable;
    if s.pending.None? {
      IdleFindsNothing(m, whole.buf);
      IdleFindsNothing(m, s.buf);
      IdleTurnMirrors(m, exact, whole, s);
    } else {
      WaitingTurnMirrors(m, exact, whole, s);
    }
  }

  lemma {:induction false} DriveMirrors(m: Markers, exact: bool, whole: State, s: State)
    requires m.WellFormed() && Mirrors(m, exact, whole, s)
    ensures AllSame(m, Drive(m, whole).found, Drive(m, s).found)
    ensures exact ==> Drive(m, whole).found == Drive(m, s).found
    ensures Mirrors(m, exact, Drive(m, whole).state, Drive(m, s).state)
    decreases |s.buf|, if s.pending.Some? then 1 else 0
  {
    hide Mirrors, TurnOf, AllSame;
    NoneAreSame(m);
    TurnMirrors(m, exact, whole, s);
    DriveTurn(m, whole);
    DriveTurn(m, s);
    if TurnOf(m, s).Continue? {
      var a, b := TurnOf(m, whole), TurnOf(m, s);
      DriveMirrors(m, exact, a.next, b.next);
      AllSameConcat(m, a.found, Drive(m, a.next).found, b.found, Drive(m, b.next).found);
    }
  }
}
