/** Delivering detected trades to the server (crates/qf-helper/src/trade.rs). */
module Delivery {
  import opened Options
  import opened TradeQueue

  /** Seconds to wait after network trouble, and after the device key was refused. */
  const RETRY_EVERY := 10
  const REJECTED_BACKOFF := 60

  datatype TradeOutcome = Accepted(status: string) | Rejected | Dropped(reason: string) | Failed(message: string)
  {
    predicate RemovesFromQueue() {
      Accepted? || Dropped?
    }

    function NextDelay(): Option<nat> {
      match this
      case Rejected => Some(REJECTED_BACKOFF)
      case Failed(_) => Some(RETRY_EVERY)
      case _ => None
    }
  }

  /** What happens around one attempt to send the oldest event: how peeking ends, what the server answers,
      how popping ends, and the time by then. */
  datatype Attempt = Attempt(peek: nat -> PeekIo, outcome: TradeOutcome, pop: PopIo, now: nat)

  /** What happens around one turn of the outer loop. */
  datatype Tick = Tick(found: seq<QueuedEvent>, pushes: nat -> PushIo, now: nat, attempts: nat -> Attempt)

  /** The loop's state, with its history: every event sent, and those the server settled. */
  datatype Run = Run(pending: seq<QueuedEvent>, entries: seq<string>, waitUntil: Option<nat>,
                     sent: seq<QueuedEvent>, settled: seq<QueuedEvent>)

  function Encoded(c: Codec, events: seq<QueuedEvent>): (r: seq<string>)
    ensures |r| == |events| && forall i | 0 <= i < |r| :: r[i] == c.encode(events[i])
  {
    if events == [] then [] else [c.encode(events[0])] + Encoded(c, events[1..])
  }

  /** The pending events that a pass writes, and those it keeps. `n` events of the pass are done already. */
  function Written(pending: seq<QueuedEvent>, pushes: nat -> PushIo, n: nat): seq<QueuedEvent> {
    if pending == [] then [] else
      (if pushes(n).NotWritten? then [] else [pending[0]]) + Written(pending[1..], pushes, n + 1)
  }

  function Kept(pending: seq<QueuedEvent>, pushes: nat -> PushIo, n: nat): seq<QueuedEvent> {
    if pending == [] then [] else
      (if pushes(n).Pushed? then [] else [pending[0]]) + Kept(pending[1..], pushes, n + 1)
  }

  function Persisted(c: Codec, r: Run, pushes: nat -> PushIo): Run {
    r.(pending := Kept(r.pending, pushes, 0), entries := r.entries + Encoded(c, Written(r.pending, pushes, 0)))
  }

  /** One attempt to send the oldest event: whether the loop goes on, and from where. */
  function Attempted(c: Codec, r: Run, a: Attempt): (t: (bool, Run))
    ensures t.0 ==> |t.1.entries| < |r.entries|
  {
    var (peeked, entries) := PeekOf(c, r.entries, a.peek, 0);
    match peeked
    case PeekFailed => (false, r.(entries := entries, waitUntil := Some(a.now + RETRY_EVERY)))
    case Empty => (false, r.(entries := entries))
    case Oldest(e) =>
      var s := r.(entries := entries, sent := r.sent + [e]);
      if !a.outcome.RemovesFromQueue() then
        (false, s.(waitUntil := Some(a.now + a.outcome.NextDelay().value)))
      else if a.pop != Popped then
        (false, s.(settled := r.settled + [e], waitUntil := Some(a.now + RETRY_EVERY)))
      else
        (true, s.(settled := r.settled + [e], entries := entries[1..]))
  }

  function Drained(c: Codec, r: Run, attempts: nat -> Attempt, n: nat): Run
    decreases |r.entries|
  {
    var (more, next) := Attempted(c, r, attempts(n));
    if more then Drained(c, next, attempts, n + 1) else next
  }

  function Ticked(c: Codec, r: Run, t: Tick): Run {
    var p := Persisted(c, r.(pending := r.pending + t.found), t.pushes);
    if p.waitUntil.None? || t.now >= p.waitUntil.value then
      Drained(c, p.(waitUntil := None), t.attempts, 0)
    else p
  }

  function TickedAll(c: Codec, r: Run, ticks: seq<Tick>): Run
    decreases |ticks|
  {
    if ticks == [] then r else TickedAll(c, Ticked(c, r, ticks[0]), ticks[1..])
  }

  /** The source's loop variables. */
  class Helper {
    const queue: Queue
    var pending: seq<QueuedEvent>
    var waitUntil: Option<nat>
    ghost var sent: seq<QueuedEvent>
    ghost var settled: seq<QueuedEvent>

    ghost predicate Valid()
      reads this, queue
    {
      queue.codec.Faithful() && Tidy(queue.file)
    }

    ghost function Value(): Run
      reads this, queue
    {
      Run(pending, Entries(queue.file), waitUntil, sent, settled)
    }

    constructor (queue: Queue)
      requires queue.codec.Faithful() && Tidy(queue.file)
      ensures this.queue == queue && Valid()
      ensures Value() == Run([], Entries(queue.file), None, [], [])
    {
      this.queue := queue;
      pending, waitUntil, sent, settled := [], None, [], [];
    }

    /** One push for each pending event in order; those that fail stay pending. */
    method Persist(pushes: nat -> PushIo)
      requires Valid()
      modifies this`pending, queue
      ensures Valid() && Value() == Persisted(queue.codec, old(Value()), pushes)
    {
      hide Entries, Tidy, Codec.Faithful;
      var kept := [];
      ghost var start := Entries(queue.file);
      ghost var written := [];
      for n := 0 to |pending|
        invariant Valid() && pending == old(pending)
        invariant kept + Kept(pending[n..], pushes, n) == Kept(pending, pushes, 0)
        invariant written + Written(pending[n..], pushes, n) == Written(pending, pushes, 0)
        invariant Entries(queue.file) == start + Encoded(queue.codec, written)
      {
        var event := pending[n];
        PassStep(pending, pushes, n, kept, written);
        var ok := queue.Push(event, pushes(n));
        if !ok {
          kept := kept + [event];
        }
        if !pushes(n).NotWritten? {
          EncodedSnoc(queue.codec, written, event);
          written := written + [event];
        }
      }
      pending := kept;
    }

    /** Sends the queue's events oldest first until it is empty or something fails. */
    method Drain(attempts: nat -> Attempt)
      requires Valid()
      modifies this, queue
      ensures Valid() && Value() == Drained(queue.codec, old(Value()), attempts, 0)
    {
      hide Attempted;
      var n := 0;
      var more := true;
      while more
        invariant Valid()
        invariant more ==> Drained(queue.codec, old(Value()), attempts, 0) == Drained(queue.codec, Value(), attempts, n)
        invariant !more ==> Drained(queue.codec, old(Value()), attempts, 0) == Value()
        decreases more, |Entries(queue.file)|
      {
        more := TryOldest(attempts(n));
        n := n + 1;
      }
    }

    method TryOldest(a: Attempt) returns (more: bool)
      requires Valid()
      modifies this, queue
      ensures Valid() && (more, Value()) == Attempted(queue.codec, old(Value()), a)
    {
      hide Entries, Tidy, Codec.Faithful, PeekOf;
      var next := queue.Peek(a.peek);
      if next.PeekFailed? {
        waitUntil := Some(a.now + RETRY_EVERY);
        return false;
      }
      if next.Empty? {
        return false;
      }
      sent := sent + [next.event];
      if a.outcome.RemovesFromQueue() {
        settled := settled + [next.event];
        var popped := queue.Pop(a.pop);
        if !popped {
          waitUntil := Some(a.now + RETRY_EVERY);
          return false;
        }
      }
      var delay := a.outcome.NextDelay();
      if delay.Some? {
        waitUntil := Some(a.now + delay.value);
        return false;
      }
      return true;
    }

    /** One turn of the outer loop. */
    method Turn(t: Tick)
      requires Valid()
      modifies this, queue
      ensures Valid() && Value() == Ticked(queue.codec, old(Value()), t)
    {
      hide Entries, Tidy, Codec.Faithful, Drained, Persisted;
      pending := pending + t.found;
      Persist(t.pushes);
      if waitUntil.None? || t.now >= waitUntil.value {
        waitUntil := None;
        Drain(t.attempts);
      }
    }
  }

  lemma PassStep(pending: seq<QueuedEvent>, pushes: nat -> PushIo, n: nat, kept: seq<QueuedEvent>, written: seq<QueuedEvent>)
    requires n < |pending|
    ensures kept + Kept(pending[n..], pushes, n) ==
            (if pushes(n).Pushed? then kept else kept + [pending[n]]) + Kept(pending[n + 1..], pushes, n + 1)
    ensures written + Written(pending[n..], pushes, n) ==
            (if pushes(n).NotWritten? then written else written + [pending[n]]) + Written(pending[n + 1..], pushes, n + 1)
  {
    assert pending[n..][0] == pending[n] && pending[n..][1..] == pending[n + 1..];
  }

  lemma EncodedSnoc(c: Codec, events: seq<QueuedEvent>, last: QueuedEvent)
    ensures Encoded(c, events + [last]) == Encoded(c, events) + [c.encode(last)]
  {}
}
