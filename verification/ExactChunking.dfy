/** Exactly which files report the same events for every chunking, timestamps included. */
module ExactChunking {
  import opened Options
  import opened Search
  import opened LogMarkers
  import opened Scan
  import opened Chunking
  import opened ChunkInvariance

  /** The next thing a scanner in this state does is open a dialog at `p`. */
  predicate Opens(m: Markers, s: State, p: nat) {
    if s.pending.None? then Find(s.buf, m.start, 0) == Some(p) else FirstHit(m, s.buf) == Some(Hit(p, Restart))
  }

  predicate Closes(m: Markers, buf: Bytes, p: nat, e: nat) {
    Find(buf, m.end, p + |m.start|) == Some(e)
  }

  lemma OpensAtStart(m: Markers, s: State, p: nat)
    requires m.NonEmpty() && Opens(m, s, p)
    ensures Find(s.buf, m.start, 0) == Some(p) && OccursAt(s.buf, m.start, p) && p + |m.start| <= |s.buf|
  {
    hide OccursAt, FirstHit;
    FindIsFirst(s.buf, m.start, 0);
  }

  /** Opening and closing a dialog takes it; a restart drains nothing before. */
  lemma OpenTurns(m: Markers, s: State, p: nat, e: nat)
    requires m.NonEmpty() && Opens(m, s, p) && Closes(m, s.buf, p, e)
    ensures Drive(m, s) == Drive(m, Taken(m, s.buf, p, e))
  {
    hide Find, FirstHit, Taken;
    OpensAtStart(m, s, p);
    DriveTurn(m, s);
    if s.pending.Some? {
      DriveTurn(m, State(s.buf, None));
      assert TurnOf(m, State(s.buf, None)) == Continue([], Taken(m, s.buf, p, e));
    }
    assert [] + Drive(m, Taken(m, s.buf, p, e)).found == Drive(m, Taken(m, s.buf, p, e)).found;
  }

  /** A scanner that opens nothing whole reports nothing. */
  lemma ReportsOpen(m: Markers, s: State) returns (p: nat, e: nat)
    requires m.NonEmpty() && Drive(m, s).found != []
    requires s.pending.Some? ==> exists q :: Opens(m, s, q)
    ensures Opens(m, s, p) && Closes(m, s.buf, p, e)
  {
    hide Find, FirstHit, Taken;
    DriveTurn(m, s);
    if s.pending.Some? {
      p :| Opens(m, s, p);
      OpensAtStart(m, s, p);
      DriveTurn(m, State(s.buf, None));
    } else {
      p := Find(s.buf, m.start, 0).value;
    }
    e := Find(s.buf, m.end, p + |m.start|).value;
  }

  // ---------- A file in two parts ----------

  /** What two calls report, the first on `c` bytes. */
  function InTwo(m: Markers, s: State, c: nat): seq<Detection>
    requires m.NonEmpty() && c <= |s.buf|
  {
    var y := Drive(m, State(s.buf[..c], s.pending));
    y.found + Drive(m, State(Settle(m, y.state) + s.buf[c..], y.state.pending)).found
  }

  lemma InTwoIs(m: Markers, t: Bytes, c: nat)
    requires m.NonEmpty() && c <= |t|
    ensures AfterChunks(m, INITIAL, [t[..c], t[c..]]).found == InTwo(m, State(t, None), c)
    ensures Concat([t[..c], t[c..]]) == t
  {
    hide Settle;
    AfterTwo(m, INITIAL, t[..c], t[c..]);
    assert [] + t[..c] == t[..c];
    assert [t[..c], t[c..]][1..] == [t[c..]];
    assert Concat([t[c..]]) == t[c..] + Concat([]);
  }

  lemma BehindHead(m: Markers, head: State, found: seq<Detection>, pending: Option<Detection>, more: Bytes)
    requires m.WellFormed() && Drive(m, head) == Outcome(found, State([], pending))
    ensures var rest := Drive(m, State(more, pending));
            Drive(m, State(head.buf + more, head.pending)) == Outcome(found + rest.found, rest.state)
  {
    hide Drive, Markers.WellFormed;
    DriveAppend(m, head, more);
    assert [] + more == more;
  }

  /** What a head of the buffer settles whole, both ways of feeding the rest report first. */
  lemma InTwoBehind(m: Markers, s: State, k: nat, found: seq<Detection>, pending: Option<Detection>, c: nat)
    requires m.WellFormed() && k + c <= |s.buf|
    requires Drive(m, State(s.buf[..k], s.pending)) == Outcome(found, State([], pending))
    ensures InTwo(m, s, k + c) == found + InTwo(m, State(s.buf[k..], pending), c)
    ensures Drive(m, s).found == found + Drive(m, State(s.buf[k..], pending)).found
  {
    hide Drive, Settle, Markers.Plain, Markers.NeverNests, Markers.LacksStartByte;
    var head, rest := State(s.buf[..k], s.pending), s.buf[k..];
    BehindHead(m, head, found, pending, rest[..c]);
    BehindHead(m, head, found, pending, rest);
    TakeTwice(s.buf, k, c);
    var y := Drive(m, State(rest[..c], pending));
    Associate(found, y.found, Drive(m, State(Settle(m, y.state) + rest[c..], y.state.pending)).found);
  }

  lemma TakeTwice(buf: Bytes, k: nat, c: nat)
    requires k + c <= |buf|
    ensures buf[..k] + buf[k..] == buf && buf[..k] + buf[k..][..c] == buf[..k + c] && buf[k..][c..] == buf[k + c..]
  {}

  lemma FirstHitInHead(m: Markers, buf: Bytes, k: nat)
    requires m.WellFormed() && k <= |buf|
    ensures FirstHit(m, buf[..k]).Some? ==> FirstHit(m, buf) == FirstHit(m, buf[..k])
    ensures FirstHit(m, buf).Some? && FirstHit(m, buf).value.pos + |m.Text(FirstHit(m, buf).value.kind)| <= k ==>
              FirstHit(m, buf[..k]) == FirstHit(m, buf)
  {
    hide FirstHit;
    assert buf[..k] + buf[k..] == buf;
    if FirstHit(m, buf[..k]).Some? {
      FirstHitAppend(m, buf[..k], buf[k..]);
    } else if FirstHit(m, buf).Some? {
      var h := FirstHit(m, buf).value;
      FirstHitIsFirst(m, buf);
      FirstHitIsFirst(m, buf[..k]);
      if h.pos + |m.Text(h.kind)| <= k {
        OccursAppend(buf[..k], buf[k..], m.Text(h.kind), h.pos);
      }
    }
  }

  lemma FindInHead(buf: Bytes, k: nat, needle: Bytes, from: nat)
    requires k <= |buf| && needle != []
    ensures Find(buf[..k], needle, from).Some? ==> Find(buf, needle, from) == Find(buf[..k], needle, from)
    ensures Find(buf, needle, from).Some? && Find(buf, needle, from).value + |needle| <= k ==>
              Find(buf[..k], needle, from) == Find(buf, needle, from)
  {
    hide Find;
    assert buf[..k] + buf[k..] == buf;
    if Find(buf[..k], needle, from).Some? {
      FindAppend(buf[..k], buf[k..], needle, from);
    } else if Find(buf, needle, from).Some? {
      var p := Find(buf, needle, from).value;
      FindIsFirst(buf, needle, from);
      FindIsFirst(buf[..k], needle, from);
      if p + |needle| <= k {
        OccursAppend(buf[..k], buf[k..], needle, p);
      }
    }
  }

  /** The bytes up to a dialog's END settle to that dialog pending. */
  lemma HeadTaken(m: Markers, s: State, p: nat, e: nat)
    requires m.WellFormed() && Opens(m, s, p) && Closes(m, s.buf, p, e)
    ensures e + |m.end| <= |s.buf|
    ensures Drive(m, State(s.buf[..e + |m.end|], s.pending)) == Outcome([], State([], Taken(m, s.buf, p, e).pending))
  {
    hide Find, FirstHit, Taken;
    OpensAtStart(m, s, p);
    var k := e + |m.end|;
    var head := State(s.buf[..k], s.pending);
    FindInHead(s.buf, k, m.start, 0);
    FindInHead(s.buf, k, m.end, p + |m.start|);
    FirstHitInHead(m, s.buf, k);
    OpenTurns(m, head, p, e);
    assert s.buf[..k] + s.buf[k..] == s.buf;
    TakenAppend(m, head.buf, s.buf[k..], p, e);
    TakenRest(m, head.buf, p, e);
    NothingWaits(m, Taken(m, head.buf, p, e));
  }

  lemma TakenRest(m: Markers, buf: Bytes, p: nat, e: nat)
    requires p + |m.start| <= e && e + |m.end| <= |buf|
    ensures Taken(m, buf, p, e).buf == buf[e + |m.end|..] && Taken(m, buf, p, e).pending.Some?
  {}

  lemma NothingWaits(m: Markers, s: State)
    requires m.NonEmpty() && s.buf == []
    ensures Drive(m, s) == Outcome([], s)
  {
    hide FirstHit;
    FirstHitIsFirst(m, []);
    NothingInNothing(m.start);
    DriveTurn(m, s);
  }

  /** The bytes up to a result settle the dialog it belongs to. */
  lemma ResultTaken(m: Markers, s: State, h: Hit)
    requires m.WellFormed() && s.pending.Some? && FirstHit(m, s.buf) == Some(h) && h.kind != Restart
    ensures h.pos + |m.Text(h.kind)| <= |s.buf|
    ensures Drive(m, State(s.buf[..h.pos + |m.Text(h.kind)|], s.pending)) ==
            Outcome(if h.kind == Success then [s.pending.value] else [], INITIAL)
  {
    hide FirstHit, OccursAt;
    var k := h.pos + |m.Text(h.kind)|;
    FirstHitIsFirst(m, s.buf);
    FirstHitInHead(m, s.buf, k);
    var head := State(s.buf[..k], s.pending);
    DriveTurn(m, head);
    assert head.buf[k..] == [];
    NothingWaits(m, INITIAL);
  }

  // ---------- The line that a split cuts ----------

  /** Split one byte before START is complete: by then the first call has dropped the beginning of a line that does
      not fit, and the second starts behind it. */
  lemma SplitInStart(m: Markers, s: State, p: nat, e: nat)
    requires m.WellFormed() && Opens(m, s, p) && Closes(m, s.buf, p, e)
    requires p + |m.start| <= e && e + |m.end| <= |s.buf| && !Fits(m, Taken(m, s.buf, p, e).pending.value)
    ensures var c := p + |m.start| - 1;
            && KEEP_TAIL <= c < |s.buf|
            && InTwo(m, s, c) == Drive(m, State(s.buf[c - KEEP_TAIL..], s.pending)).found
  {
    hide Drive, Settle, LineStart, Taken, Opens, Closes, Fits, InTwo, OccursAt, Markers.Plain, Markers.NeverNests, Markers.LacksStartByte;
    var c := p + |m.start| - 1;
    OpensAtStart(m, s, p);
    CutLiesInLine(m, s.buf, p, e);
    HeadBreaks(m, s, p);
    HeadSettles(m, s, p);
    InTwoOfBreak(m, s, c, c - KEEP_TAIL);
  }

  lemma InTwoOfBreak(m: Markers, s: State, c: nat, d: nat)
    requires m.NonEmpty() && d <= c <= |s.buf|
    requires var head := State(s.buf[..c], s.pending);
             Drive(m, head) == Outcome([], head) && Settle(m, head) == head.buf[d..]
    ensures InTwo(m, s, c) == Drive(m, State(s.buf[d..], s.pending)).found
  {
    hide Drive, Settle;
    Rejoin(s.buf, c, d);
    var z := Drive(m, State(s.buf[d..], s.pending)).found;
    assert [] + z == z;
  }

  lemma Rejoin(buf: Bytes, c: nat, d: nat)
    requires d <= c <= |buf|
    ensures buf[..c][d..] + buf[c..] == buf[d..]
  {}

  /** While its last byte is missing, START is not seen, and nothing else is. */
  lemma HeadBreaks(m: Markers, s: State, p: nat)
    requires m.WellFormed() && Opens(m, s, p) && p + |m.start| <= |s.buf|
    ensures var head := State(s.buf[..p + |m.start| - 1], s.pending);
            && Drive(m, head) == Outcome([], head)
            && (s.pending.None? ==> Find(head.buf, m.start, 0).None?)
  {
    hide Find, FirstHit, OccursAt;
    var c := p + |m.start| - 1;
    var head := State(s.buf[..c], s.pending);
    FindInHead(s.buf, c, m.start, 0);
    FindIsFirst(head.buf, m.start, 0);
    FirstHitInHead(m, s.buf, c);
    FirstHitIsFirst(m, head.buf);
    DriveTurn(m, head);
  }

  lemma HeadSettles(m: Markers, s: State, p: nat)
    requires m.WellFormed() && OccursAt(s.buf, m.start, p) && p + |m.start| <= |s.buf|
    requires LineStart(s.buf, p) < p + |m.start| - 1 - KEEP_TAIL
    requires s.pending.None? ==> Find(s.buf[..p + |m.start| - 1], m.start, 0).None?
    ensures var c := p + |m.start| - 1;
            Settle(m, State(s.buf[..c], s.pending)) == s.buf[..c][c - KEEP_TAIL..]
  {
    hide Find, LineStart, OccursAt;
    var c := p + |m.start| - 1;
    StartHasNoBreak(m, s.buf, p);
    LineStartIs(s.buf[..c], c, LineStart(s.buf, p));
  }

  lemma StartHasNoBreak(m: Markers, buf: Bytes, p: nat)
    requires m.WellFormed() && OccursAt(buf, m.start, p)
    ensures forall i | p <= i < p + |m.start| :: buf[i] != LF
  {
    assert m.Plain(Restart);
    forall i | p <= i < p + |m.start| ensures buf[i] != LF {
      assert buf[i] == m.start[i - p];
    }
  }

  /** Behind such a cut the same dialog is opened, with less of its line. */
  lemma LineIsShorter(m: Markers, s: State, p: nat, e: nat, cut: nat)
    requires m.WellFormed() && Opens(m, s, p) && Closes(m, s.buf, p, e) && cut <= p
    requires p + |m.start| <= e && e + |m.end| <= |s.buf|
    requires cut > LineStart(s.buf, p)
    ensures var z := State(s.buf[cut..], s.pending);
            && Opens(m, z, p - cut) && Closes(m, z.buf, p - cut, e - cut)
            && Taken(m, z.buf, p - cut, e - cut).buf == s.buf[e + |m.end|..]
            && Taken(m, z.buf, p - cut, e - cut).pending != Taken(m, s.buf, p, e).pending
  {
    hide Find, FirstHit, OccursAt, Opens, Taken, Markers.Plain, Markers.NeverNests, Markers.LacksStartByte;
    OpensAtStart(m, s, p);
    OpensBehind(m, s, p, cut);
    FindDrop(s.buf, m.end, cut, p - cut + |m.start|);
    TakenRest(m, s.buf[cut..], p - cut, e - cut);
    SliceDrop(s.buf, cut, e - cut + |m.end|, |s.buf| - cut);
    LinesDiffer(m, s.buf, p, e, cut);
  }

  lemma OpensBehind(m: Markers, s: State, p: nat, cut: nat)
    requires m.WellFormed() && Opens(m, s, p) && cut <= p <= |s.buf|
    ensures Opens(m, State(s.buf[cut..], s.pending), p - cut)
  {
    hide Find, FirstHit, HitAt, OccursAt;
    if s.pending.None? {
      IdleBreakHasNoHits(m, s.buf, cut);
      FindStartShift(m, s.buf, cut);
    } else {
      HitAtFirst(m, s.buf);
      FirstHitShift(m, s.buf, cut);
    }
  }

  lemma LinesDiffer(m: Markers, buf: Bytes, p: nat, e: nat, cut: nat)
    requires cut <= p && p + |m.start| <= e && e + |m.end| <= |buf| && cut > LineStart(buf, p)
    ensures Taken(m, buf[cut..], p - cut, e - cut).pending != Taken(m, buf, p, e).pending
  {
    hide LineStart;
    var a, b := Taken(m, buf, p, e).pending.value, Taken(m, buf[cut..], p - cut, e - cut).pending.value;
    assert |b.line| <= p - cut < |a.line|;
  }

  lemma PrefixCancels<T>(front: seq<T>, a: seq<T>, b: seq<T>)
    requires a != b
    ensures front + a != front + b
  {
    assert (front + a)[|front|..] == a && (front + b)[|front|..] == b;
  }

  /** A confirmed dialog is reported first; after a split inside its START, with less of a line that does not fit. */
  lemma FirstLineShows(m: Markers, s: State, p: nat, e: nat)
    requires m.WellFormed() && Opens(m, s, p) && Closes(m, s.buf, p, e)
    requires p + |m.start| <= e && e + |m.end| <= |s.buf| && !Fits(m, Taken(m, s.buf, p, e).pending.value)
    requires FirstHit(m, s.buf[e + |m.end|..]).Some? && FirstHit(m, s.buf[e + |m.end|..]).value.kind == Success
    ensures var c := p + |m.start| - 1; 0 < c < |s.buf| && InTwo(m, s, c) != Drive(m, s).found
  {
    hide Find, FirstHit, InTwo, Drive, Taken, Opens, Closes, Fits, LineStart, Markers.Plain, Markers.NeverNests, Markers.LacksStartByte;
    var cut := p + |m.start| - 1 - KEEP_TAIL;
    SplitInStart(m, s, p, e);
    CutLiesInLine(m, s.buf, p, e);
    LineIsShorter(m, s, p, e, cut);
    var z := State(s.buf[cut..], s.pending);
    OpenTurns(m, s, p, e);
    TakenRest(m, s.buf, p, e);
    OpenTurns(m, z, p - cut, e - cut);
    TakenRest(m, z.buf, p - cut, e - cut);
    SuccessIsFirst(m, Taken(m, s.buf, p, e));
    SuccessIsFirst(m, Taken(m, z.buf, p - cut, e - cut));
  }

  lemma CutLiesInLine(m: Markers, buf: Bytes, p: nat, e: nat)
    requires m.WellFormed() && p + |m.start| <= e && e + |m.end| <= |buf| && !Fits(m, Taken(m, buf, p, e).pending.value)
    ensures LineStart(buf, p) < p + |m.start| - 1 - KEEP_TAIL <= p
  {
    assert m.Plain(Restart);
  }

  lemma SuccessIsFirst(m: Markers, s: State)
    requires m.WellFormed() && s.pending.Some? && FirstHit(m, s.buf).Some? && FirstHit(m, s.buf).value.kind == Success
    ensures Drive(m, s).found != [] && Drive(m, s).found[0] == s.pending.value
  {
    hide FirstHit;
    DriveTurn(m, s);
  }

  /** A reported dialog whose line does not fit gives a split after which the reports differ. */
  lemma {:induction false} LongLineShows(m: Markers, s: State, j: nat) returns (c: nat)
    requires m.WellFormed() && j < |Drive(m, s).found| && !Fits(m, Drive(m, s).found[j])
    requires s.pending.Some? ==> exists q :: Opens(m, s, q)
    ensures 0 < c < |s.buf| && InTwo(m, s, c) != Drive(m, s).found
    decreases |s.buf|
  {
    hide Find, FirstHit, Taken, InTwo, Opens, Closes, Fits, Drive, Markers.Plain, Markers.NeverNests, Markers.LacksStartByte;
    var p, e := ReportsOpen(m, s);
    HeadTaken(m, s, p, e);
    StartBeforeEnd(m, s.buf, p, e);
    OpenTurns(m, s, p, e);
    TakenRest(m, s.buf, p, e);
    var k, next := e + |m.end|, Taken(m, s.buf, p, e);
    WaitingReports(m, next);
    var h := FirstHit(m, next.buf).value;
    if h.kind == Restart {
      var rest := LongLineShows(m, next, j);
      c := k + rest;
      InTwoBehind(m, s, k, [], next.pending, rest);
      PrefixCancels([], InTwo(m, next, rest), Drive(m, next).found);
    } else if h.kind == Success && j == 0 {
      SuccessIsFirst(m, next);
      c := p + |m.start| - 1;
      FirstLineShows(m, s, p, e);
    } else {
      var rest := LongLineBehind(m, next, h, j);
      c := k + rest;
      InTwoBehind(m, s, k, [], next.pending, rest);
      PrefixCancels([], InTwo(m, next, rest), Drive(m, next).found);
    }
  }

  lemma WaitingReports(m: Markers, s: State)
    requires m.NonEmpty() && s.pending.Some? && Drive(m, s).found != []
    ensures FirstHit(m, s.buf).Some?
    ensures FirstHit(m, s.buf).value.kind == Restart ==> Opens(m, s, FirstHit(m, s.buf).value.pos)
  {
    hide FirstHit;
    DriveTurn(m, s);
  }

  lemma StartBeforeEnd(m: Markers, buf: Bytes, p: nat, e: nat)
    requires m.NonEmpty() && Closes(m, buf, p, e)
    ensures p + |m.start| <= e && e + |m.end| <= |buf|
  {
    FindIsFirst(buf, m.end, p + |m.start|);
  }

  lemma {:induction false} LongLineBehind(m: Markers, s: State, h: Hit, j: nat) returns (c: nat)
    requires m.WellFormed() && j < |Drive(m, s).found| && !Fits(m, Drive(m, s).found[j])
    requires s.pending.Some? && FirstHit(m, s.buf) == Some(h) && h.kind != Restart && (h.kind == Success ==> j > 0)
    ensures 0 < c < |s.buf| && InTwo(m, s, c) != Drive(m, s).found
    decreases |s.buf|, 0
  {
    hide Find, FirstHit, InTwo, Fits, Drive, Markers.Plain, Markers.NeverNests, Markers.LacksStartByte;
    var k := h.pos + |m.Text(h.kind)|;
    var found := if h.kind == Success then [s.pending.value] else [];
    var next := State(s.buf[k..], None);
    ResultTaken(m, s, h);
    InTwoBehind(m, s, k, found, None, 0);
    var rest := LongLineShows(m, next, j - |found|);
    c := k + rest;
    InTwoBehind(m, s, k, found, None, rest);
    PrefixCancels(found, InTwo(m, next, rest), Drive(m, next).found);
  }

  // ---------- The exact condition ----------

  /** A file reports the same events for every chunking if and only if the line of each event it reports fits into
      the kept tail. */
  lemma ChunkingIsExactIff(m: Markers, t: Bytes)
    requires m.WellFormed()
    ensures (forall chunks | Concat(chunks) == t :: AfterChunks(m, INITIAL, chunks).found == ScanAll(m, t))
            <==> AllFit(m, ScanAll(m, t))
  {
    hide AfterChunks, Fits;
    if AllFit(m, ScanAll(m, t)) {
      forall chunks | Concat(chunks) == t ensures AfterChunks(m, INITIAL, chunks).found == ScanAll(m, t) {
        ChunkingIsScanAll(m, chunks);
      }
    } else {
      var c := SplitShows(m, t);
      InTwoIs(m, t, c);
    }
  }

  /** The split that shows it: inside START. */
  lemma SplitShows(m: Markers, t: Bytes) returns (c: nat)
    requires m.WellFormed() && !AllFit(m, ScanAll(m, t))
    ensures 0 < c < |t| && AfterChunks(m, INITIAL, [t[..c], t[c..]]).found != ScanAll(m, t)
  {
    hide Fits, InTwo, AfterChunks;
    var d :| d in ScanAll(m, t) && !Fits(m, d);
    var j :| 0 <= j < |ScanAll(m, t)| && ScanAll(m, t)[j] == d;
    assert [] + t == t;
    c := LongLineShows(m, State(t, None), j);
    InTwoIs(m, t, c);
  }
}
