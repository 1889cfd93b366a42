/** The EE.log scanner (crates/qf_log_parser/src/scanner.rs): what one call of `feed` does, as functions
    of its buffer and pending dialog, and the class whose loop does it. */
module Scan {
  import opened Options
  import opened Search
  import opened LogMarkers

  /** A complete dialog: the bytes of its line before START, and the bytes between START and END.
      Decoding these slices is left to `Publishing`, where the event is built. */
  datatype Detection = Detection(line: Bytes, dialog: Bytes)

  datatype State = State(buf: Bytes, pending: Option<Detection>)

  /** The detections a call reports, oldest first, and the state it leaves. */
  datatype Outcome = Outcome(found: seq<Detection>, state: State)

  /** The marker that settles a pending dialog, and where it stands. */
  datatype Hit = Hit(pos: nat, kind: Kind)

  const INITIAL := State([], None)

  /** No newline stands in `buf[from..to]`. */
  ghost predicate Unbroken(buf: Bytes, from: nat, to: nat)
    requires to <= |buf|
  {
    forall i | from <= i < to :: buf[i] != LF
  }

  /** Where the line that `at` stands on begins: behind the nearest newline, or at 0. */
  function LineStart(buf: Bytes, at: nat): (r: nat)
    requires at <= |buf|
    ensures r <= at && Unbroken(buf, r, at)
    ensures r == 0 || buf[r - 1] == LF
  {
    if at == 0 || buf[at - 1] == LF then at else LineStart(buf, at - 1)
  }

  /** The contract of `LineStart` pins its result. */
  lemma LineStartIs(buf: Bytes, at: nat, r: nat)
    requires r <= at <= |buf| && Unbroken(buf, r, at)
    requires r == 0 || buf[r - 1] == LF
    ensures LineStart(buf, at) == r
  {
    var l := LineStart(buf, at);
    assert l <= r <= l;
  }

  /** The earlier of two candidates; the first one wins a tie. */
  function Earlier(a: Option<Hit>, b: Option<Hit>): (r: Option<Hit>)
    ensures r == a || r == b
    ensures r.None? <==> a.None? && b.None?
    ensures a.Some? ==> r.value.pos <= a.value.pos
    ensures b.Some? ==> r.value.pos <= b.value.pos
  {
    if a.None? || (b.Some? && b.value.pos < a.value.pos) then b else a
  }

  function Candidate(m: Markers, buf: Bytes, k: Kind): (r: Option<Hit>)
    ensures r.Some? ==> r.value.kind == k && r.value.pos + |m.Text(k)| <= |buf|
  {
    match Find(buf, m.Text(k), 0) case None => None case Some(p) => Some(Hit(p, k))
  }

  /** The first of the five markers that settle a pending dialog. */
  function FirstHit(m: Markers, buf: Bytes): (r: Option<Hit>)
    ensures r.Some? ==> r == Candidate(m, buf, r.value.kind)
    ensures forall k | Candidate(m, buf, k).Some? :: r.Some? && r.value.pos <= Candidate(m, buf, k).value.pos
  {
    var r := Earlier(Candidate(m, buf, Success), Earlier(Candidate(m, buf, Failed),
              Earlier(Candidate(m, buf, Cancelled), Earlier(Candidate(m, buf, AcceptFailed), Candidate(m, buf, Restart)))));
    assert forall k | Candidate(m, buf, k).Some? :: r.Some? && r.value.pos <= Candidate(m, buf, k).value.pos by {
      forall k | Candidate(m, buf, k).Some? ensures r.Some? && r.value.pos <= Candidate(m, buf, k).value.pos {
        assert k == Success || k == Failed || k == Cancelled || k == AcceptFailed || k == Restart;
      }
    }
    r
  }

  /** `FirstHit` returns an occurrence of a marker and passes over none. */
  lemma FirstHitIsFirst(m: Markers, buf: Bytes)
    requires m.NonEmpty()
    ensures var r := FirstHit(m, buf);
            && (r.Some? ==> OccursAt(buf, m.Text(r.value.kind), r.value.pos))
            && (forall k, i: nat | r.Some? ==> i < r.value.pos :: !OccursAt(buf, m.Text(k), i))
  {
    var r := FirstHit(m, buf);
    if r.Some? {
      FindIsFirst(buf, m.Text(r.value.kind), 0);
    }
    forall k, i: nat | r.Some? ==> i < r.value.pos ensures !OccursAt(buf, m.Text(k), i) {
      FindIsFirst(buf, m.Text(k), 0);
      var c := Candidate(m, buf, k);
    }
  }

  /** One turn of `feed`'s loop: it breaks, or goes on from another state having reported `found`. */
  datatype Turn = Break | Continue(found: seq<Detection>, next: State)

  /** The dialog opened at `p` and closed at `e` becomes pending; everything through END is drained. */
  function Taken(m: Markers, buf: Bytes, p: nat, e: nat): State
    requires p + |m.start| <= e && e + |m.end| <= |buf|
  {
    State(buf[e + |m.end|..], Some(Detection(buf[LineStart(buf, p)..p], buf[p + |m.start|..e])))
  }

  /** An idle turn looks for a whole dialog. */
  function IdleTurn(m: Markers, buf: Bytes): (t: Turn)
    requires m.NonEmpty()
    ensures t.Continue? ==> |t.next.buf| < |buf|
  {
    match Find(buf, m.start, 0)
    case None => Break
    case Some(p) =>
      match Find(buf, m.end, p + |m.start|)
      case None => Break
      case Some(e) => Continue([], Taken(m, buf, p, e))
  }

  /** A waiting turn looks for what settles the pending dialog. A new dialog drains nothing. */
  function WaitingTurn(m: Markers, buf: Bytes, d: Detection): (t: Turn)
    requires m.NonEmpty()
    ensures t.Continue? ==> |t.next.buf| <= |buf| && t.next.pending.None?
  {
    match FirstHit(m, buf)
    case None => Break
    case Some(Hit(pos, kind)) =>
      Continue(if kind == Success then [d] else [], State(if kind == Restart then buf else buf[pos + |m.Text(kind)|..], None))
  }

  function TurnOf(m: Markers, s: State): Turn
    requires m.NonEmpty()
  {
    match s.pending case None => IdleTurn(m, s.buf) case Some(d) => WaitingTurn(m, s.buf, d)
  }

  /** All the turns of one call, up to the one that breaks, before the buffer is trimmed. */
  function Drive(m: Markers, s: State): (r: Outcome)
    requires m.NonEmpty()
    ensures TurnOf(m, r.state) == Break
    decreases |s.buf|, if s.pending.Some? then 1 else 0
  {
    match TurnOf(m, s)
    case Break => Outcome([], s)
    case Continue(found, next) =>
      var rest := Drive(m, next);
      Outcome(found + rest.found, rest.state)
  }

  /** `Drive` one turn at a time. */
  lemma DriveTurn(m: Markers, s: State)
    requires m.NonEmpty()
    ensures TurnOf(m, s).Break? ==> Drive(m, s) == Outcome([], s)
    ensures TurnOf(m, s).Continue? ==>
              var next := TurnOf(m, s).next;
              && Drive(m, s) == Outcome(TurnOf(m, s).found + Drive(m, next).found, Drive(m, next).state)
              && (|next.buf| < |s.buf| || (|next.buf| == |s.buf| && s.pending.Some? && next.pending.None?))
  {}

  lemma Associate<T>(a: seq<T>, b: seq<T>, c: seq<T>)
    ensures a + (b + c) == (a + b) + c
  {}

  /** Where the kept tail of a buffer begins, given where its last line does. */
  function KeepFrom(length: nat, lineStart: nat): (keep: nat)
    requires lineStart <= length
    ensures lineStart <= keep <= length && length - keep <= KEEP_TAIL
  {
    if length - lineStart > KEEP_TAIL then length - KEEP_TAIL else lineStart
  }

  /** The unfinished last line, or its last `KEEP_TAIL` bytes. */
  function KeepTail(buf: Bytes): (r: Bytes) {
    buf[KeepFrom(|buf|, LineStart(buf, |buf|))..]
  }

  /** What the breaking turn keeps of the buffer. */
  function Settle(m: Markers, s: State): Bytes {
    match if s.pending.None? then Find(s.buf, m.start, 0) else None
    case Some(p) => s.buf[LineStart(s.buf, p)..]
    case None => KeepTail(s.buf)
  }

  function AfterChunk(m: Markers, s: State, chunk: Bytes): Outcome
    requires m.NonEmpty()
  {
    var r := Drive(m, State(s.buf + chunk, s.pending));
    Outcome(r.found, State(Settle(m, r.state), r.state.pending))
  }

  /** Feeding chunk after chunk. */
  function AfterChunks(m: Markers, s: State, chunks: seq<Bytes>): Outcome
    requires m.NonEmpty()
    decreases |chunks|
  {
    if chunks == [] then Outcome([], s) else
      var first := AfterChunk(m, s, chunks[0]);
      var rest := AfterChunks(m, first.state, chunks[1..]);
      Outcome(first.found + rest.found, rest.state)
  }

  /** A whole file at once. */
  function ScanAll(m: Markers, bytes: Bytes): seq<Detection>
    requires m.NonEmpty()
  {
    AfterChunk(m, INITIAL, bytes).found
  }

  /** The source's object. Its state is the pair the functions above work on. */
  class Scanner {
    const m: Markers
    var buf: Bytes
    var pending: Option<Detection>

    function Value(): State
      reads this
    {
      State(buf, pending)
    }

    constructor (m: Markers)
      ensures this.m == m && Value() == INITIAL
    {
      this.m := m;
      buf, pending := [], None;
    }

    /** Back to a scanner that has seen no byte. */
    method Reset()
      modifies this
      ensures Value() == INITIAL
    {
      buf, pending := [], None;
    }

    /** The loop of `feed`; its two modes are the two methods below. */
    method Feed(chunk: Bytes) returns (found: seq<Detection>)
      requires m.NonEmpty()
      modifies this
      ensures Outcome(found, Value()) == AfterChunk(m, old(Value()), chunk)
    {
      buf := buf + chunk;
      found := [];
      ghost var all := Drive(m, Value());
      ghost var rest := all;
      var more := true;
      while more
        invariant all.found == found + rest.found && all.state == rest.state
        invariant more ==> rest == Drive(m, Value())
        invariant !more ==> rest.found == [] && Value() == State(Settle(m, rest.state), rest.state.pending)
        decreases more, |buf|, if pending.Some? then 1 else 0
      {
        DriveTurn(m, Value());
        var reported := [];
        if pending.None? {
          more := TakeDialog();
        } else {
          more, reported := TakeResult();
        }
        if more {
          rest := Drive(m, Value());
          Associate(found, reported, rest.found);
        }
        found := found + reported;
      }
    }

    /** An idle turn: waits for a whole dialog and makes it pending. */
    method TakeDialog() returns (more: bool)
      requires m.NonEmpty() && pending.None?
      modifies this
      ensures IdleTurn(m, old(buf)) == if more then Continue([], Value()) else Break
      ensures !more ==> Value() == State(Settle(m, old(Value())), None)
    {
      var start := Find(buf, m.start, 0);
      if start.None? {
        KeepTailFromLineStart();
        return false;
      }
      var dialogFrom := start.value + |m.start|;
      var end := Find(buf, m.end, dialogFrom);
      var lineStart := LineStart(buf, start.value);
      if end.None? {
        buf := buf[lineStart..];
        return false;
      }
      pending := Some(Detection(buf[lineStart..start.value], buf[dialogFrom..end.value]));
      buf := buf[end.value + |m.end|..];
      return true;
    }

    /** A waiting turn: needs a marker that settles what is pending. */
    method TakeResult() returns (more: bool, found: seq<Detection>)
      requires m.NonEmpty() && pending.Some?
      modifies this
      ensures WaitingTurn(m, old(buf), old(pending.value)) == if more then Continue(found, Value()) else Break
      ensures !more ==> found == [] && Value() == State(Settle(m, old(Value())), old(pending))
    {
      var first := FirstHit(m, buf);
      if first.None? {
        KeepTailFromLineStart();
        return false, [];
      }
      var dialog := pending.value;
      pending, found := None, [];
      if first.value.kind == Success {
        found := [dialog];
        buf := buf[first.value.pos + |m.success|..];
      } else if first.value.kind != Restart {
        buf := buf[first.value.pos + |m.Text(first.value.kind)|..];
      }
      return true, found;
    }

    method KeepTailFromLineStart()
      modifies this`buf
      ensures buf == KeepTail(old(buf))
    {
      var keep := LineStart(buf, |buf|);
      if |buf| - keep > KEEP_TAIL {
        keep := |buf| - KEEP_TAIL;
      }
      buf := buf[keep..];
    }
  }
}
