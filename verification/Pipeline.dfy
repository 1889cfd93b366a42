/** The whole helper: from the bytes of EE.log to the events it holds for the server
    (crates/qf-helper/src/trade.rs:132-172). */
module Pipeline {
  import opened LogMarkers
  import opened Scan
  import opened Chunking
  import opened Grammar
  import opened TailLog
  import opened Publishing
  import opened TradeQueue
  import opened Delivery
  import opened DeliveryLaws

  /** What one turn of the loop meets: the file, the clock at each event it detects, and the failures around the rest. */
  datatype Round = Round(reading: Reading, detectedAt: nat -> string, pushes: nat -> PushIo, now: nat, attempts: nat -> Attempt)

  function ToQueue(d: Decoding, found: Detection, detectedAt: string): QueuedEvent {
    QueuedEvent(Published(d, found).eventId, detectedAt, Published(d, found).trade)
  }

  function AllToQueue(d: Decoding, found: seq<Detection>, detectedAt: nat -> string): (r: seq<QueuedEvent>)
    ensures |r| == |found| && forall i | 0 <= i < |r| :: r[i] == ToQueue(d, found[i], detectedAt(i))
  {
    seq(|found|, i requires 0 <= i < |found| => ToQueue(d, found[i], detectedAt(i)))
  }

  function TickOf(m: Markers, d: Decoding, s: TailState, r: Round): Tick
    requires m.NonEmpty()
  {
    Tick(AllToQueue(d, Polled(m, s, r.reading).0, r.detectedAt), r.pushes, r.now, r.attempts)
  }

  function TicksOf(m: Markers, d: Decoding, s: TailState, rounds: seq<Round>): seq<Tick>
    requires m.NonEmpty()
    decreases |rounds|
  {
    if rounds == [] then [] else
      [TickOf(m, d, s, rounds[0])] + TicksOf(m, d, Polled(m, s, rounds[0].reading).1, rounds[1..])
  }

  function Readings(rounds: seq<Round>): (r: seq<Reading>)
    ensures |r| == |rounds| && forall i | 0 <= i < |r| :: r[i] == rounds[i].reading
  {
    if rounds == [] then [] else [rounds[0].reading] + Readings(rounds[1..])
  }

  /** One turn: poll, queue what was found, deliver. */
  method Turn(tail: Tail, helper: Helper, d: Decoding, r: Round)
    requires helper.Valid() && tail.scanner.m.NonEmpty()
    modifies tail, tail.scanner, helper, helper.queue
    ensures helper.Valid() && tail.Value() == Polled(tail.scanner.m, old(tail.Value()), r.reading).1
    ensures helper.Value() == Ticked(helper.queue.codec, old(helper.Value()), TickOf(tail.scanner.m, d, old(tail.Value()), r))
  {
    hide Polled, Ticked, Tidy, Entries, Codec.Faithful;
    var found := tail.Poll(r.reading);
    helper.Turn(Tick(AllToQueue(d, found, r.detectedAt), r.pushes, r.now, r.attempts));
  }

  /** The event says what is published for the detection. */
  predicate Tells(d: Decoding, e: QueuedEvent, found: Detection) {
    e.eventId == Published(d, found).eventId && e.trade == Published(d, found).trade
  }

  /** What the rounds detect, in order. */
  function Detected(m: Markers, d: Decoding, s: TailState, rounds: seq<Round>): seq<QueuedEvent>
    requires m.NonEmpty()
  {
    AllFound(TicksOf(m, d, s, rounds))
  }

  lemma FirstFound(m: Markers, d: Decoding, s: TailState, rounds: seq<Round>)
    requires m.NonEmpty() && rounds != []
    ensures Detected(m, d, s, rounds) ==
            TickOf(m, d, s, rounds[0]).found + Detected(m, d, Polled(m, s, rounds[0].reading).1, rounds[1..])
  {
    hide Polled, TickOf;
    var ticks := TicksOf(m, d, s, rounds);
    assert ticks[1..] == TicksOf(m, d, Polled(m, s, rounds[0].reading).1, rounds[1..]);
  }

  ghost predicate TellEach(d: Decoding, events: seq<QueuedEvent>, found: seq<Detection>) {
    |events| == |found| && forall i | 0 <= i < |events| :: Tells(d, events[i], found[i])
  }

  lemma TellEachConcat(d: Decoding, a: seq<QueuedEvent>, b: seq<QueuedEvent>, x: seq<Detection>, y: seq<Detection>)
    requires TellEach(d, a, x) && TellEach(d, b, y)
    ensures TellEach(d, a + b, x + y)
  {
    hide Tells;
  }

  /** A turn makes one event for each detection, in order, each stamped with the clock at its detection. */
  lemma TickTells(m: Markers, d: Decoding, s: TailState, r: Round)
    requires m.NonEmpty()
    ensures TellEach(d, TickOf(m, d, s, r).found, Polled(m, s, r.reading).0)
    ensures forall i | 0 <= i < |TickOf(m, d, s, r).found| :: TickOf(m, d, s, r).found[i].detectedAt == r.detectedAt(i)
  {
    hide Polled, Published;
  }

  lemma {:induction false} EventsAreDetections(m: Markers, d: Decoding, s: TailState, rounds: seq<Round>)
    requires m.NonEmpty()
    ensures TellEach(d, Detected(m, d, s, rounds), PolledAll(m, s, Readings(rounds)).0)
    decreases |rounds|
  {
    if rounds != [] {
      hide Polled, TickOf, TellEach, Detected;
      var next := Polled(m, s, rounds[0].reading);
      EventsAreDetections(m, d, next.1, rounds[1..]);
      assert Readings(rounds)[1..] == Readings(rounds[1..]);
      FirstFound(m, d, s, rounds);
      TickTells(m, d, s, rounds[0]);
      TellEachConcat(d, TickOf(m, d, s, rounds[0]).found, Detected(m, d, next.1, rounds[1..]),
                     next.0, PolledAll(m, next.1, Readings(rounds[1..])).0);
    }
  }

  /** Events with the trades of these detections, one by one; where the line in front of a dialog fits, with the
      timestamp and id of the whole line. */
  ghost predicate TellAll(m: Markers, d: Decoding, events: seq<QueuedEvent>, confirmed: seq<Detection>) {
    && |events| == |confirmed|
    && forall i | 0 <= i < |events| ::
      && Untimed(events[i].trade) == Untimed(Published(d, confirmed[i]).trade)
      && (Fits(m, confirmed[i]) ==> Tells(d, events[i], confirmed[i]))
  }

  lemma TellAllConcat(m: Markers, d: Decoding, a: seq<QueuedEvent>, b: seq<QueuedEvent>, x: seq<Detection>, y: seq<Detection>)
    requires TellAll(m, d, a, x) && TellAll(m, d, b, y)
    ensures TellAll(m, d, a + b, x + y)
  {
    hide Published, Fits;
  }

  /** The dialogs that a text confirms. */
  ghost function ConfirmedIn(m: Markers, bytes: Bytes): seq<Detection>
    requires m.NonEmpty()
  {
    Reported(m, bytes, Spans(m, bytes, 0), 0)
  }

  /** Events that come of detections which agree with a scan tell its dialogs. */
  lemma ScannedAreTold(m: Markers, d: Decoding, s: TailState, rounds: seq<Round>, bytes: Bytes)
    requires m.WellFormed() && AllSame(m, ScanAll(m, bytes), PolledAll(m, s, Readings(rounds)).0)
    ensures TellAll(m, d, AllFound(TicksOf(m, d, s, rounds)), ConfirmedIn(m, bytes))
  {
    hide PolledAll, ScanAll, Spans, Reported, TicksOf, AllFound, AllSame, Published, Fits;
    ScanFollowsGrammar(m, bytes);
    var found := PolledAll(m, s, Readings(rounds)).0;
    SamePublishes(m, d, ScanAll(m, bytes), found);
    assert |PublishedAll(d, ScanAll(m, bytes))| == |PublishedAll(d, found)|;
    EventsAreDetections(m, d, s, rounds);
  }

  /** End to end: of every dialog that a session's bytes confirm there is an event with its trade, at its place in
      the order of detection, and every one of these events is pending, queued or settled, whatever fails. */
  lemma ConfirmedTradesAreHeld(m: Markers, d: Decoding, c: Codec, t: Bytes, from: nat, start: Run, rounds: seq<Round>)
    requires m.WellFormed() && c.Faithful() && Session(t, from, Readings(rounds))
    ensures from <= PolledAll(m, TailState(from, INITIAL), Readings(rounds)).1.offset <= |t|
    ensures var s := TailState(from, INITIAL);
            var ticks := TicksOf(m, d, s, rounds);
            && TellAll(m, d, AllFound(ticks), ConfirmedIn(m, t[from..PolledAll(m, s, Readings(rounds)).1.offset]))
            && multiset(AllFound(ticks)) <= Held(c, TickedAll(c, start, ticks))
  {
    hide PolledAll, Session, ScanAll, Held, TickedAll, TicksOf, AllFound, AllSame, ConfirmedIn, TellAll;
    var s := TailState(from, INITIAL);
    SessionIsScanAll(m, t, from, Readings(rounds));
    ScannedAreTold(m, d, s, rounds, t[from..PolledAll(m, s, Readings(rounds)).1.offset]);
    NoEventIsLost(c, start, TicksOf(m, d, s, rounds));
  }

  // ---------- Over many sessions ----------

  /** The rounds of one game session, and the file its log grew into. */
  datatype Sitting = Sitting(file: Bytes, rounds: seq<Round>)

  /** Each session is noticed by its first round. */
  ghost predicate AreNoticed(m: Markers, s: TailState, sittings: seq<Sitting>)
    requires m.NonEmpty()
    decreases |sittings|
  {
    sittings == [] ||
    var first, readings := sittings[0], Readings(sittings[0].rounds);
    && readings != [] && Resets(s, readings[0])
    && Session(first.file, 0, if readings[0].Missing? then readings[1..] else readings)
    && AreNoticed(m, PolledAll(m, s, readings).1, sittings[1..])
  }

  function RoundsOf(sittings: seq<Sitting>): seq<Round> {
    if sittings == [] then [] else sittings[0].rounds + RoundsOf(sittings[1..])
  }

  /** What the bytes read of each file confirm, file by file. */
  ghost function ConfirmedInAll(m: Markers, s: TailState, sittings: seq<Sitting>): seq<Detection>
    requires m.NonEmpty()
    decreases |sittings|
  {
    if sittings == [] then [] else
      var after := PolledAll(m, s, Readings(sittings[0].rounds)).1;
      var file := sittings[0].file;
      ConfirmedIn(m, file[..if after.offset <= |file| then after.offset else |file|])
        + ConfirmedInAll(m, after, sittings[1..])
  }

  lemma {:induction false} TicksConcat(m: Markers, d: Decoding, s: TailState, a: seq<Round>, b: seq<Round>)
    requires m.NonEmpty()
    ensures Detected(m, d, s, a + b) == Detected(m, d, s, a) + Detected(m, d, PolledAll(m, s, Readings(a)).1, b)
    decreases |a|
  {
    hide Polled, TickOf, Detected;
    if a == [] {
      NothingDetected(m, d, s);
      assert a + b == b;
    } else {
      hide PolledAll;
      var first := TickOf(m, d, s, a[0]).found;
      var next := Polled(m, s, a[0].reading).1;
      assert (a + b)[0] == a[0] && (a + b)[1..] == a[1..] + b;
      TicksConcat(m, d, next, a[1..], b);
      StateBehind(m, s, a);
      FirstFound(m, d, s, a);
      FirstFound(m, d, s, a + b);
      Associate(first, Detected(m, d, next, a[1..]), Detected(m, d, PolledAll(m, s, Readings(a)).1, b));
    }
  }

  lemma NothingDetected(m: Markers, d: Decoding, s: TailState)
    requires m.NonEmpty()
    ensures Detected(m, d, s, []) == []
  {}

  lemma StateBehind(m: Markers, s: TailState, rounds: seq<Round>)
    requires m.NonEmpty() && rounds != []
    ensures PolledAll(m, s, Readings(rounds)).1 == PolledAll(m, Polled(m, s, rounds[0].reading).1, Readings(rounds[1..])).1
  {
    hide Polled;
    assert Readings(rounds)[1..] == Readings(rounds[1..]);
  }

  lemma {:induction false} SittingsAreTold(m: Markers, d: Decoding, s: TailState, sittings: seq<Sitting>)
    requires m.WellFormed() && AreNoticed(m, s, sittings)
    ensures TellAll(m, d, Detected(m, d, s, RoundsOf(sittings)), ConfirmedInAll(m, s, sittings))
    decreases |sittings|
  {
    hide PolledAll, Session, ScanAll, TicksOf, AllSame, ConfirmedIn, TellAll, Resets;
    if sittings == [] {
      NothingTold(m, d, s);
    } else {
      var first, rest := sittings[0], sittings[1..];
      var readings := Readings(first.rounds);
      var after := PolledAll(m, s, readings).1;
      NewSessionIsScanAll(m, s, first.file, readings);
      ScannedAreTold(m, d, s, first.rounds, first.file[..after.offset]);
      SittingsAreTold(m, d, after, rest);
      TicksConcat(m, d, s, first.rounds, RoundsOf(rest));
      TellAllConcat(m, d, Detected(m, d, s, first.rounds), Detected(m, d, after, RoundsOf(rest)),
                    ConfirmedIn(m, first.file[..after.offset]), ConfirmedInAll(m, after, rest));
    }
  }

  lemma NothingTold(m: Markers, d: Decoding, s: TailState)
    requires m.NonEmpty()
    ensures TellAll(m, d, AllFound(TicksOf(m, d, s, [])), [])
  {}

  /** The same over a whole run of the helper: the session it starts in, then one noticed session after another.
      Every dialog confirmed within one of them has its event, in order, and no other event is made; every event is
      pending, queued or settled, whatever fails. */
  lemma AllSessionsAreHeld(m: Markers, d: Decoding, c: Codec, t: Bytes, from: nat, start: Run, rounds: seq<Round>, later: seq<Sitting>)
    requires m.WellFormed() && c.Faithful() && Session(t, from, Readings(rounds))
    requires AreNoticed(m, PolledAll(m, TailState(from, INITIAL), Readings(rounds)).1, later)
    ensures from <= PolledAll(m, TailState(from, INITIAL), Readings(rounds)).1.offset <= |t|
    ensures var s := TailState(from, INITIAL);
            var after := PolledAll(m, s, Readings(rounds)).1;
            var ticks := TicksOf(m, d, s, rounds + RoundsOf(later));
            && TellAll(m, d, AllFound(ticks), ConfirmedIn(m, t[from..after.offset]) + ConfirmedInAll(m, after, later))
            && multiset(AllFound(ticks)) <= Held(c, TickedAll(c, start, ticks))
  {
    hide PolledAll, Session, AreNoticed, ConfirmedIn, ConfirmedInAll, TellAll, TicksOf, AllFound, Held, TickedAll, RoundsOf;
    var s := TailState(from, INITIAL);
    var after := PolledAll(m, s, Readings(rounds)).1;
    ConfirmedTradesAreHeld(m, d, c, t, from, start, rounds);
    SittingsAreTold(m, d, after, later);
    TicksConcat(m, d, s, rounds, RoundsOf(later));
    TellAllConcat(m, d, Detected(m, d, s, rounds), Detected(m, d, after, RoundsOf(later)),
                  ConfirmedIn(m, t[from..after.offset]), ConfirmedInAll(m, after, later));
    NoEventIsLost(c, start, TicksOf(m, d, s, rounds + RoundsOf(later)));
  }
}
