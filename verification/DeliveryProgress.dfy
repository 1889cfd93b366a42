/** What the delivery loop gets done: what ends a drain and after how long the next one begins, and that turns
    without a failure deliver everything. */
module DeliveryProgress {
  import opened Options
  import opened TradeQueue
  import opened Delivery
  import opened DeliveryLaws

  /** One attempt by its cases: the drain goes on exactly behind an event that the server accepted or dropped and
      that was popped; otherwise the next drain waits 60 s when the key was refused, 10 s after any other
      failure, and not at all when the queue is empty. */
  lemma AttemptIs(c: Codec, r: Run, a: Attempt)
    ensures var (peeked, entries) := PeekOf(c, r.entries, a.peek, 0);
            var (more, next) := Attempted(c, r, a);
            && next.pending == r.pending
            && (peeked.PeekFailed? ==> !more && next == r.(entries := entries, waitUntil := Some(a.now + 10)))
            && (peeked.Empty? ==> !more && next == r.(entries := []))
            && (peeked.Oldest? ==>
                  && next.sent == r.sent + [peeked.event]
                  && (a.outcome.Rejected? ==>
                        !more && next.settled == r.settled && next.entries == entries && next.waitUntil == Some(a.now + 60))
                  && (a.outcome.Failed? ==>
                        !more && next.settled == r.settled && next.entries == entries && next.waitUntil == Some(a.now + 10))
                  && (a.outcome.Accepted? || a.outcome.Dropped? ==> next.settled == r.settled + [peeked.event])
                  && ((a.outcome.Accepted? || a.outcome.Dropped?) && a.pop.Popped? ==>
                        more && next.entries == entries[1..] && next.waitUntil == r.waitUntil)
                  && ((a.outcome.Accepted? || a.outcome.Dropped?) && !a.pop.Popped? ==>
                        !more && next.entries == entries && next.waitUntil == Some(a.now + 10)))
  {
    hide PeekOf;
  }

  /** Whether the server took the event for good and the event could be removed. */
  predicate Settles(a: Attempt) {
    (a.outcome.Accepted? || a.outcome.Dropped?) && a.pop.Popped?
  }

  /** What stopped a drain. */
  datatype Ending = RanOut | NoPeek | Refused | NoAnswer | NoPop

  /** The last attempt of a drain, made on a queue with the given events: what it was, how many events it sent and
      settled, what it left behind, and how long it has the next drain wait. */
  ghost predicate EndsAs(e: Ending, a: Attempt, events: seq<QueuedEvent>, sent: nat, settled: nat, left: seq<QueuedEvent>,
                         delay: Option<nat>)
  {
    && left == events
    && match e
       case RanOut => events == [] && sent == 0 && settled == 0 && delay == None
       case NoPeek => (exists k :: a.peek(k).readFails || !a.peek(k).pop.Popped?) && sent == 0 && settled == 0 && delay == Some(10)
       case Refused => events != [] && a.outcome.Rejected? && sent == 1 && settled == 0 && delay == Some(60)
       case NoAnswer => events != [] && a.outcome.Failed? && sent == 1 && settled == 0 && delay == Some(10)
       case NoPop => events != [] && (a.outcome.Accepted? || a.outcome.Dropped?) && !a.pop.Popped? && sent == 1 && settled == 1
                     && delay == Some(10)
  }

  function WaitAfter(before: Option<nat>, now: nat, delay: Option<nat>): Option<nat> {
    match delay case None => before case Some(d) => Some(now + d)
  }

  /** What one attempt does that does not settle the oldest event. */
  lemma AttemptEnds(c: Codec, r: Run, a: Attempt) returns (e: Ending, sent: nat, settled: nat, delay: Option<nat>)
    requires !Attempted(c, r, a).0
    ensures sent <= |Events(c, r.entries)| && settled <= sent
    ensures var next := Attempted(c, r, a).1;
            && EndsAs(e, a, Events(c, r.entries), sent, settled, Events(c, next.entries), delay)
            && next.sent == r.sent + Events(c, r.entries)[..sent]
            && next.settled == r.settled + Events(c, r.entries)[..settled]
            && next.pending == r.pending && next.waitUntil == WaitAfter(r.waitUntil, a.now, delay)
            && (e.RanOut? ==> next.entries == [])
  {
    hide PeekOf, Events;
    AttemptIs(c, r, a);
    PeekKeepsEvents(c, r.entries, a.peek, 0);
    NoEntriesNoEvents(c);
    var (peeked, entries) := PeekOf(c, r.entries, a.peek, 0);
    match peeked
    case PeekFailed =>
      PeekFailureShows(c, r.entries, a.peek, 0);
      e, sent, settled, delay := NoPeek, 0, 0, Some(10);
    case Empty =>
      e, sent, settled, delay := RanOut, 0, 0, None;
    case Oldest(event) =>
      FirstOf(event, Events(c, entries[1..]));
      sent := 1;
      if a.outcome.Rejected? {
        e, settled, delay := Refused, 0, Some(60);
      } else if a.outcome.Failed? {
        e, settled, delay := NoAnswer, 0, Some(10);
      } else {
        e, settled, delay := NoPop, 1, Some(10);
      }
  }

  lemma NoEntriesNoEvents(c: Codec)
    ensures Events(c, []) == []
  {}

  lemma FirstOf<T>(e: T, s: seq<T>)
    ensures ([e] + s)[..1] == [e] && ([e] + s)[1..] == s && ([e] + s)[..0] == []
  {}

  lemma PeekFailureShows(c: Codec, lines: seq<string>, io: nat -> PeekIo, turn: nat)
    requires PeekOf(c, lines, io, turn).0.PeekFailed?
    ensures exists k :: io(k).readFails || !io(k).pop.Popped?
  {
    hide PeekOf;
    var corrupt := FindReadable(c, lines);
    PeekIsExact(c, lines, io, turn, corrupt);
    var k :| turn <= k && TurnFails(io, k, turn + corrupt);
  }

  /** An attempt that settles the oldest event. */
  lemma AttemptGoesOn(c: Codec, r: Run, a: Attempt)
    requires Attempted(c, r, a).0
    ensures var next, events := Attempted(c, r, a).1, Events(c, r.entries);
            && Settles(a) && events != [] && Events(c, next.entries) == events[1..]
            && next.sent == r.sent + [events[0]] && next.settled == r.settled + [events[0]]
            && next.pending == r.pending && next.waitUntil == r.waitUntil
  {
    hide PeekOf, Events;
    AttemptIs(c, r, a);
    PeekKeepsEvents(c, r.entries, a.peek, 0);
    var (peeked, entries) := PeekOf(c, r.entries, a.peek, 0);
    FirstOf(peeked.event, Events(c, entries[1..]));
  }

  lemma Prefixes<T>(base: seq<T>, events: seq<T>, count: nat)
    requires 0 < |events| && count < |events|
    ensures base + [events[0]] + events[1..][..count] == base + events[..count + 1]
  {}

  /** Every drain settles its first `done` events in order, one an attempt, and the next attempt ends it: because
      the queue is empty, or as one of the four failures, each with its own wait. */
  lemma {:induction false} DrainEnds(c: Codec, r: Run, attempts: nat -> Attempt, n: nat)
    returns (done: nat, e: Ending, sent: nat, settled: nat, delay: Option<nat>)
    ensures var events, end := Events(c, r.entries), Drained(c, r, attempts, n);
            && done + sent <= |events| && settled <= sent
            && (forall k | n <= k < n + done :: Settles(attempts(k)))
            && EndsAs(e, attempts(n + done), events[done..], sent, settled, Events(c, end.entries), delay)
            && end.sent == r.sent + events[..done + sent]
            && end.settled == r.settled + events[..done + settled]
            && end.pending == r.pending && end.waitUntil == WaitAfter(r.waitUntil, attempts(n + done).now, delay)
            && (e.RanOut? ==> end.entries == [])
    decreases |r.entries|
  {
    hide Attempted, Events, EndsAs, WaitAfter;
    var events := Events(c, r.entries);
    if Attempted(c, r, attempts(n)).0 {
      var next := Attempted(c, r, attempts(n)).1;
      AttemptGoesOn(c, r, attempts(n));
      var d;
      d, e, sent, settled, delay := DrainEnds(c, next, attempts, n + 1);
      done := d + 1;
      Prefixes(r.sent, events, d + sent);
      Prefixes(r.settled, events, d + settled);
      assert events[1..][d..] == events[done..];
      assert n + 1 + d == n + done;
    } else {
      e, sent, settled, delay := AttemptEnds(c, r, attempts(n));
      done := 0;
      assert events[0..] == events && n + 0 == n;
    }
  }

  // ---------- Everything is delivered ----------

  /** No read or removal fails, and the server accepts or drops what it is sent. */
  ghost predicate Smooth(attempts: nat -> Attempt) {
    forall n :: Settles(attempts(n)) && forall k :: !attempts(n).peek(k).readFails && attempts(n).peek(k).pop.Popped?
  }

  /** Then a drain empties the queue, and sends and settles its readable events in their order. */
  lemma DrainDeliversAll(c: Codec, r: Run, attempts: nat -> Attempt, n: nat)
    requires Smooth(attempts)
    ensures Drained(c, r, attempts, n) ==
            r.(entries := [], sent := r.sent + Events(c, r.entries), settled := r.settled + Events(c, r.entries))
  {
    hide Drained, Events;
    var done, e, sent, settled, delay := DrainEnds(c, r, attempts, n);
    assert Settles(attempts(n + done));
    assert e.RanOut?;
    var events := Events(c, r.entries);
    assert events[done..] == [];
    assert events[..done + 0] == events;
  }

  lemma {:induction false} AllPushed(pending: seq<QueuedEvent>, pushes: nat -> PushIo, n: nat)
    requires forall k :: pushes(k).Pushed?
    ensures Written(pending, pushes, n) == pending && Kept(pending, pushes, n) == []
    decreases |pending|
  {
    if pending != [] {
      AllPushed(pending[1..], pushes, n + 1);
    }
  }

  /** While the loop waits, a turn only queues; otherwise it drains the queue, whatever it had to wait for. */
  lemma TurnWaits(c: Codec, r: Run, t: Tick)
    ensures var events := r.pending + t.found;
            var entries := r.entries + Encoded(c, Written(events, t.pushes, 0));
            var queued := Run(Kept(events, t.pushes, 0), entries, r.waitUntil, r.sent, r.settled);
            Ticked(c, r, t) ==
            if r.waitUntil.Some? && t.now < r.waitUntil.value then queued
            else Drained(c, queued.(waitUntil := None), t.attempts, 0)
  {
    hide Drained, Encoded, Written, Kept;
  }

  ghost predicate SmoothTick(t: Tick) {
    Smooth(t.attempts) && forall k :: t.pushes(k).Pushed?
  }

  ghost predicate WaitIsOver(r: Run, now: nat) {
    r.waitUntil.None? || r.waitUntil.value <= now
  }

  /** A turn without a failure, with no wait left, delivers all there is: what is queued, then what is pending,
      then what it detects. */
  lemma TurnDeliversAll(c: Codec, r: Run, t: Tick)
    requires c.Faithful() && SmoothTick(t) && WaitIsOver(r, t.now)
    ensures var events := Events(c, r.entries) + r.pending + t.found;
            Ticked(c, r, t) == Run([], [], None, r.sent + events, r.settled + events)
  {
    hide Codec.Faithful, Smooth, Drained, Encoded, Written, Kept, Events;
    var events := r.pending + t.found;
    TurnWaits(c, r, t);
    AllPushed(events, t.pushes, 0);
    var queued := Run([], r.entries + Encoded(c, events), None, r.sent, r.settled);
    DrainDeliversAll(c, queued, t.attempts, 0);
    EventsConcat(c, r.entries, Encoded(c, events));
    EventsEncoded(c, events);
    assert Events(c, r.entries) + events == Events(c, r.entries) + r.pending + t.found;
  }

  // ---------- From any run ----------

  /** All waiting that the ticks can cause is over at `now`. */
  ghost predicate AllBefore(ticks: seq<Tick>, now: nat) {
    forall i, k :: 0 <= i < |ticks| && 0 <= k ==> EndsBefore(ticks[i], k, now)
  }

  predicate EndsBefore(t: Tick, k: nat, now: nat) {
    t.attempts(k).now + 60 <= now
  }

  lemma WaitIsShort(c: Codec, r: Run, t: Tick, now: nat)
    requires WaitIsOver(r, now) && forall k :: EndsBefore(t, k, now)
    ensures WaitIsOver(Ticked(c, r, t), now)
  {
    hide Drained, Events, Encoded, Written, Kept;
    TurnWaits(c, r, t);
    if !(r.waitUntil.Some? && t.now < r.waitUntil.value) {
      var events := r.pending + t.found;
      var queued := Run(Kept(events, t.pushes, 0), r.entries + Encoded(c, Written(events, t.pushes, 0)), None, r.sent, r.settled);
      var done, e, sent, settled, delay := DrainEnds(c, queued, t.attempts, 0);
      assert EndsBefore(t, 0 + done, now);
    }
  }

  lemma {:induction false} WaitsAreShort(c: Codec, r: Run, ticks: seq<Tick>, now: nat)
    requires WaitIsOver(r, now) && AllBefore(ticks, now)
    ensures WaitIsOver(TickedAll(c, r, ticks), now)
    decreases |ticks|
  {
    hide Ticked, WaitIsOver, EndsBefore;
    if ticks != [] {
      forall k: nat ensures EndsBefore(ticks[0], k, now) {}
      WaitIsShort(c, r, ticks[0], now);
      assert forall i | 0 <= i < |ticks| - 1 :: ticks[1..][i] == ticks[i + 1];
      WaitsAreShort(c, Ticked(c, r, ticks[0]), ticks[1..], now);
    }
  }

  /** The loop never stalls: after any run with any failures, one turn without a failure, a minute after the
      last attempt, leaves nothing behind, and every event that the run detected or began with is settled. */
  lemma EverythingIsDelivered(c: Codec, r: Run, ticks: seq<Tick>, last: Tick)
    requires c.Faithful() && SmoothTick(last)
    requires WaitIsOver(r, last.now) && AllBefore(ticks, last.now)
    ensures var end := Ticked(c, TickedAll(c, r, ticks), last);
            && end.pending == [] && end.entries == [] && end.waitUntil == None
            && Held(c, r) + multiset(AllFound(ticks)) + multiset(last.found) <= multiset(end.settled)
  {
    hide Codec.Faithful, Ticked, TickedAll, SmoothTick, AllBefore;
    var before := TickedAll(c, r, ticks);
    WaitsAreShort(c, r, ticks, last.now);
    NoEventIsLost(c, r, ticks);
    TickHolds(c, before, last);
    TurnDeliversAll(c, before, last);
    HeldWhenEmpty(c, Ticked(c, before, last));
  }

  lemma HeldWhenEmpty(c: Codec, r: Run)
    requires r.pending == [] && r.entries == []
    ensures Held(c, r) == multiset(r.settled)
  {}
}
