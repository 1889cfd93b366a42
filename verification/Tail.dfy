/** Following the growing EE.log (crates/qf-helper/src/ee_log.rs). */
module TailLog {
  import opened Options
  import opened Search
  import opened LogMarkers
  import opened Scan
  import opened Chunking
  import opened ChunkInvariance
  import opened ExactChunking

  /** What one poll sees of the file: nothing at its path, or its length and then its content, which may
      have grown or shrunk since, or could not be read. */
  datatype Reading = Missing | Present(len: nat, content: Option<Bytes>)

  datatype TailState = TailState(offset: nat, scan: State)

  const FRESH := TailState(0, INITIAL)

  /** A new session is noticed when the file is gone or shorter than what was already read. */
  predicate Resets(s: TailState, r: Reading) {
    r.Missing? || r.len < s.offset
  }

  /** The bytes a poll hands to the scanner. */
  function ReadFrom(offset: nat, r: Reading): Bytes {
    if r.Missing? || r.content.None? || r.len <= offset then []
    else
      var c := r.content.value;
      var to := if r.len < |c| then r.len else |c|;
      if to <= offset then [] else c[offset..to]
  }

  /** One poll. */
  function Polled(m: Markers, s: TailState, r: Reading): (o: (seq<Detection>, TailState))
    requires m.NonEmpty()
  {
    if r.Missing? then ([], FRESH)
    else
      var from := if r.len < s.offset then FRESH else s;
      if r.len == from.offset || r.content.None? then ([], from)
      else
        var bytes := ReadFrom(from.offset, r);
        var fed := AfterChunk(m, from.scan, bytes);
        (fed.found, TailState(from.offset + |bytes|, fed.state))
  }

  /** A run of polls. */
  function PolledAll(m: Markers, s: TailState, rs: seq<Reading>): (o: (seq<Detection>, TailState))
    requires m.NonEmpty()
    decreases |rs|
  {
    if rs == [] then ([], s) else
      var first := Polled(m, s, rs[0]);
      var rest := PolledAll(m, first.1, rs[1..]);
      (first.0 + rest.0, rest.1)
  }

  class Tail {
    var offset: nat
    const scanner: Scanner
    var warnedMissing: bool

    function Value(): TailState
      reads this, scanner
    {
      TailState(offset, scanner.Value())
    }

    /** Starts at the file's present end, or at 0 when there is no file yet. */
    constructor StartAtEnd(m: Markers, length: Option<nat>)
      ensures fresh(scanner) && scanner.m == m
      ensures Value() == TailState(if length.Some? then length.value else 0, INITIAL)
    {
      offset := if length.Some? then length.value else 0;
      scanner := new Scanner(m);
      warnedMissing := false;
    }

    method Poll(r: Reading) returns (found: seq<Detection>)
      requires scanner.m.NonEmpty()
      modifies this, scanner
      ensures (found, Value()) == Polled(scanner.m, old(Value()), r)
      ensures warnedMissing == r.Missing?
    {
      hide AfterChunk;
      if r.Missing? {
        if !warnedMissing {
          warnedMissing := true;
        }
        offset := 0;
        scanner.Reset();
        return [];
      }
      warnedMissing := false;
      if r.len < offset {
        offset := 0;
        scanner.Reset();
      }
      if r.len == offset || r.content.None? {
        return [];
      }
      var bytes := ReadFrom(offset, r);
      offset := offset + |bytes|;
      found := scanner.Feed(bytes);
    }
  }

  // ---------- One session ----------

  /** The polls of `rs` see one file growing into `t`, `from` bytes of which were there before. */
  ghost predicate Session(t: Bytes, from: nat, rs: seq<Reading>)
    decreases |rs|
  {
    && from <= |t|
    && (rs != [] ==>
      && rs[0].Present? && from <= rs[0].len <= |t|
      && (rs[0].content.Some? ==> rs[0].len <= |rs[0].content.value| && rs[0].content.value <= t)
      && Session(t, rs[0].len, rs[1..]))
  }

  /** The chunks a run of polls hands to the scanner. A poll that reads nothing makes no call. */
  function ChunksOf(m: Markers, s: TailState, rs: seq<Reading>): seq<Bytes>
    requires m.NonEmpty()
    decreases |rs|
  {
    if rs == [] then [] else
      (if rs[0].Present? && rs[0].len != s.offset && rs[0].content.Some? then [ReadFrom(s.offset, rs[0])] else [])
      + ChunksOf(m, Polled(m, s, rs[0]).1, rs[1..])
  }

  lemma SessionLoosen(t: Bytes, from: nat, to: nat, rs: seq<Reading>)
    requires Session(t, to, rs) && from <= to
    ensures Session(t, from, rs)
  {}

  /** Within a session the scanner is fed exactly the bytes the offset moves over. */
  lemma {:induction false} SessionFeeds(m: Markers, t: Bytes, s: TailState, rs: seq<Reading>)
    requires m.NonEmpty() && Session(t, s.offset, rs)
    ensures var o, fed := PolledAll(m, s, rs), AfterChunks(m, s.scan, ChunksOf(m, s, rs));
            && o.0 == fed.found && o.1.scan == fed.state
            && s.offset <= o.1.offset <= |t|
            && Concat(ChunksOf(m, s, rs)) == t[s.offset..o.1.offset]
    decreases |rs|
  {
    hide AfterChunk;
    if rs != [] {
      var r, next := rs[0], Polled(m, s, rs[0]).1;
      SessionLoosen(t, next.offset, r.len, rs[1..]);
      SessionFeeds(m, t, next, rs[1..]);
      var rest := ChunksOf(m, next, rs[1..]);
      if r.len != s.offset && r.content.Some? {
        var chunk := ReadFrom(s.offset, r);
        SessionChunk(t, s.offset, r);
        assert ChunksOf(m, s, rs) == [chunk] + rest;
        FirstChunk(chunk, rest);
        Adjoin(t, s.offset, next.offset, PolledAll(m, next, rs[1..]).1.offset);
      } else {
        assert ChunksOf(m, s, rs) == rest;
      }
    }
  }

  lemma SessionChunk(t: Bytes, offset: nat, r: Reading)
    requires r.Present? && r.content.Some? && offset <= r.len <= |r.content.value| && r.content.value <= t
    ensures ReadFrom(offset, r) == t[offset..r.len]
  {}

  lemma FirstChunk(chunk: Bytes, rest: seq<Bytes>)
    ensures ([chunk] + rest)[1..] == rest && Concat([chunk] + rest) == chunk + Concat(rest)
  {
    assert ([chunk] + rest)[1..] == rest;
  }

  lemma Adjoin(t: Bytes, i: nat, j: nat, k: nat)
    requires i <= j <= k <= |t|
    ensures t[i..j] + t[j..k] == t[i..k]
  {}

  /** A session's polls report what scanning the bytes read at once reports: event by event where the line in front
      of START fits, and in the dialog everywhere. */
  lemma SessionIsScanAll(m: Markers, t: Bytes, from: nat, rs: seq<Reading>)
    requires m.WellFormed() && Session(t, from, rs)
    ensures var o := PolledAll(m, TailState(from, INITIAL), rs);
            && from <= o.1.offset <= |t|
            && AllSame(m, ScanAll(m, t[from..o.1.offset]), o.0)
            && Dialogs(o.0) == Dialogs(ScanAll(m, t[from..o.1.offset]))
            && (AllFit(m, ScanAll(m, t[from..o.1.offset])) ==> o.0 == ScanAll(m, t[from..o.1.offset]))
  {
    hide AllSame, AllFit;
    var s := TailState(from, INITIAL);
    SessionFeeds(m, t, s, rs);
    ChunkingAgreesWithScanAll(m, ChunksOf(m, s, rs));
    AllSameMeans(m, ScanAll(m, Concat(ChunksOf(m, s, rs))), PolledAll(m, s, rs).0);
  }

  /** Every session that reads a file to its end reports the same events if and only if the lines of the reported
      ones fit. */
  lemma SessionsAreExactIff(m: Markers, t: Bytes, from: nat)
    requires m.WellFormed() && from <= |t|
    ensures (forall rs | Session(t, from, rs) && PolledAll(m, TailState(from, INITIAL), rs).1.offset == |t| ::
              PolledAll(m, TailState(from, INITIAL), rs).0 == ScanAll(m, t[from..]))
            <==> AllFit(m, ScanAll(m, t[from..]))
  {
    hide PolledAll, Session, ScanAll, AllFit, AllSame;
    assert t[from..|t|] == t[from..];
    if AllFit(m, ScanAll(m, t[from..])) {
      forall rs | Session(t, from, rs) && PolledAll(m, TailState(from, INITIAL), rs).1.offset == |t|
        ensures PolledAll(m, TailState(from, INITIAL), rs).0 == ScanAll(m, t[from..])
      {
        SessionIsScanAll(m, t, from, rs);
      }
    } else {
      var c := SplitShows(m, t[from..]);
      TwoPolls(m, t, from, c);
    }
  }

  /** Two polls, the first of which sees the file end behind `c` new bytes. */
  lemma TwoPolls(m: Markers, t: Bytes, from: nat, c: nat)
    requires m.NonEmpty() && 0 < c < |t| - from
    ensures var rs, s := [Present(from + c, Some(t)), Present(|t|, Some(t))], TailState(from, INITIAL);
            && Session(t, from, rs)
            && PolledAll(m, s, rs).0 == AfterChunks(m, INITIAL, [t[from..][..c], t[from..][c..]]).found
            && PolledAll(m, s, rs).1.offset == |t|
  {
    hide PolledAll, Session, ChunksOf, AfterChunks;
    var rs, s := [Present(from + c, Some(t)), Present(|t|, Some(t))], TailState(from, INITIAL);
    TwoReadings(t, from, c);
    SessionFeeds(m, t, s, rs);
    LastPollReadsAll(m, t, s, rs);
    TwoChunks(m, t, from, c);
  }

  lemma TwoReadings(t: Bytes, from: nat, c: nat)
    requires 0 < c < |t| - from
    ensures Session(t, from, [Present(from + c, Some(t)), Present(|t|, Some(t))])
  {
    var rs := [Present(from + c, Some(t)), Present(|t|, Some(t))];
    assert rs[1..] == [rs[1]] && rs[1..][1..] == [];
  }

  lemma TwoChunks(m: Markers, t: Bytes, from: nat, c: nat)
    requires m.NonEmpty() && 0 < c < |t| - from
    ensures ChunksOf(m, TailState(from, INITIAL), [Present(from + c, Some(t)), Present(|t|, Some(t))]) ==
            [t[from..][..c], t[from..][c..]]
  {
    hide AfterChunk;
    var rs, s := [Present(from + c, Some(t)), Present(|t|, Some(t))], TailState(from, INITIAL);
    var next := Polled(m, s, rs[0]).1;
    assert rs[1..] == [rs[1]] && rs[1..][1..] == [];
    assert next.offset == from + c;
    assert ReadFrom(from, rs[0]) == t[from..][..c] && ReadFrom(from + c, rs[1]) == t[from..][c..];
    assert ChunksOf(m, next, rs[1..]) == [ReadFrom(from + c, rs[1])] + ChunksOf(m, Polled(m, next, rs[1]).1, []);
  }

  /** A session read to its end was read whole. */
  lemma {:induction false} LastPollReadsAll(m: Markers, t: Bytes, s: TailState, rs: seq<Reading>)
    requires m.NonEmpty() && Session(t, s.offset, rs) && rs != []
    requires var last := rs[|rs| - 1]; last.Present? && last.content.Some? && last.len == |t|
    ensures PolledAll(m, s, rs).1.offset == |t|
    decreases |rs|
  {
    hide AfterChunk;
    var next := Polled(m, s, rs[0]).1;
    SessionLoosen(t, next.offset, rs[0].len, rs[1..]);
    if rs[1..] != [] {
      LastPollReadsAll(m, t, next, rs[1..]);
    }
  }

  // ---------- Across sessions ----------

  /** A poll that notices a new session acts as a tail that never read anything. */
  lemma ResetForgets(m: Markers, s: TailState, rs: seq<Reading>)
    requires m.NonEmpty() && rs != [] && Resets(s, rs[0])
    ensures PolledAll(m, s, rs) == PolledAll(m, FRESH, rs)
  {
    hide AfterChunk, ReadFrom;
    assert Polled(m, s, rs[0]) == Polled(m, FRESH, rs[0]);
  }

  /** Whatever was read before, from the poll that notices the new file on only that file is reported,
      from its first byte. */
  lemma NewSessionIsScanAll(m: Markers, s: TailState, t: Bytes, rs: seq<Reading>)
    requires m.WellFormed() && rs != [] && Resets(s, rs[0])
    requires Session(t, 0, if rs[0].Missing? then rs[1..] else rs)
    ensures var o := PolledAll(m, s, rs);
            && o.1.offset <= |t|
            && AllSame(m, ScanAll(m, t[..o.1.offset]), o.0)
            && Dialogs(o.0) == Dialogs(ScanAll(m, t[..o.1.offset]))
            && (AllFit(m, ScanAll(m, t[..o.1.offset])) ==> o.0 == ScanAll(m, t[..o.1.offset]))
  {
    hide ScanAll, AllFit, AllSame, Polled, Session;
    ResetForgets(m, s, rs);
    var seen := if rs[0].Missing? then rs[1..] else rs;
    SessionIsScanAll(m, t, 0, seen);
    if rs[0].Missing? {
      MissingFirst(m, rs);
    }
    WholePrefix(t, PolledAll(m, FRESH, seen).1.offset);
  }

  lemma MissingFirst(m: Markers, rs: seq<Reading>)
    requires m.NonEmpty() && rs != [] && rs[0].Missing?
    ensures PolledAll(m, FRESH, rs) == PolledAll(m, FRESH, rs[1..])
  {
    var rest := PolledAll(m, FRESH, rs[1..]);
    assert [] + rest.0 == rest.0;
  }

  lemma WholePrefix(t: Bytes, to: nat)
    requires to <= |t|
    ensures t[0..to] == t[..to]
  {}

  /** What an unnoticed session can do: a new file longer than what was read is read as if it were the old one, and
      its success marker confirms the old file's dialog. `SessionChange` says exactly when one is noticed. */
  lemma UnnoticedSessionPairs(m: Markers, offset: nat, d: Detection, filler: Bytes)
    requires m.WellFormed() && |filler| == offset
    ensures var r := Present(offset + |m.success|, Some(filler + m.success));
            && !Resets(TailState(offset, State([], Some(d))), r)
            && Polled(m, TailState(offset, State([], Some(d))), r).0 == [d]
  {
    hide Find, FirstHit, OccursAt, KeepTail;
    var s := State(m.success, Some(d));
    assert ReadFrom(offset, Present(offset + |m.success|, Some(filler + m.success))) == m.success;
    assert (filler + m.success)[offset..offset + |m.success|] == m.success;
    assert [] + m.success == m.success && m.success[|m.success|..] == [];
    SuccessAtHand(m);
    DriveTurn(m, s);
    NothingToScan(m);
    DriveTurn(m, INITIAL);
    assert TurnOf(m, s) == Continue([d], INITIAL);
  }
}
