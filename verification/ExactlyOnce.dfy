/** Exactly which runs of the delivery loop hold every event exactly once. */
module ExactlyOnce {
  import opened Options
  import opened TradeQueue
  import opened Delivery
  import opened DeliveryLaws

  /** No push of the pass wrote its event and failed all the same. */
  ghost predicate SyncsHold(pushes: nat -> PushIo, n: nat, count: nat) {
    forall i | n <= i < n + count :: !pushes(i).NotSynced?
  }

  /** Every attempt that settles an event takes it out of the queue. */
  predicate Settles(c: Codec, r: Run, a: Attempt) {
    PeekOf(c, r.entries, a.peek, 0).0.Oldest? && a.outcome.RemovesFromQueue() ==> a.pop == Popped
  }

  predicate PopsHold(c: Codec, r: Run, attempts: nat -> Attempt, n: nat)
    decreases |r.entries|
  {
    && Settles(c, r, attempts(n))
    && var (more, next) := Attempted(c, r, attempts(n)); more ==> PopsHold(c, next, attempts, n + 1)
  }

  predicate Drains(p: Run, t: Tick) {
    p.waitUntil.None? || t.now >= p.waitUntil.value
  }

  ghost predicate TickHoldsOnce(c: Codec, r: Run, t: Tick) {
    var p := Persisted(c, r.(pending := r.pending + t.found), t.pushes);
    && SyncsHold(t.pushes, 0, |r.pending + t.found|)
    && (Drains(p, t) ==> PopsHold(c, p.(waitUntil := None), t.attempts, 0))
  }

  ghost predicate RunHoldsOnce(c: Codec, r: Run, ticks: seq<Tick>)
    decreases |ticks|
  {
    ticks == [] || (TickHoldsOnce(c, r, ticks[0]) && RunHoldsOnce(c, Ticked(c, r, ticks[0]), ticks[1..]))
  }

  // ---------- Counting ----------

  lemma Cancel<T>(a: multiset<T>, b: multiset<T>, c: multiset<T>)
    ensures a + c == b + c <==> a == b
  {
    if a + c == b + c {
      forall x ensures a[x] == b[x] {
        assert (a + c)[x] == a[x] + c[x] && (b + c)[x] == b[x] + c[x];
      }
      assert a == b;
    }
  }

  lemma Between<T>(a: multiset<T>, b: multiset<T>, c: multiset<T>)
    requires a <= b <= c
    ensures a == c <==> a == b && b == c
  {
    if a == c {
      assert forall x :: a[x] <= b[x] <= c[x];
    }
  }

  lemma TwiceIsMore<T>(a: multiset<T>, b: multiset<T>, e: T)
    requires a <= b
    ensures a + multiset{e} != b + multiset{e} + multiset{e}
  {
    assert (a + multiset{e})[e] < (b + multiset{e} + multiset{e})[e];
  }

  lemma FirstCounts<T>(e: T, s: seq<T>)
    ensures multiset([e] + s) == multiset(s) + multiset{e}
  {}

  // ---------- One pass ----------

  /** One event joins what is written, what is kept, or after a failed sync both. */
  lemma PushSplitsIff<T>(w: multiset<T>, k: multiset<T>, rest: multiset<T>, e: T, io: PushIo)
    requires rest <= w + k
    ensures var one, none := multiset{e}, multiset{};
            (w + if io.NotWritten? then none else one) + (k + if io.Pushed? then none else one) == rest + one
            <==> !io.NotSynced? && w + k == rest
  {
    var one := multiset{e};
    Cancel(w + k, rest, one);
    match io
    case Pushed => assert (w + one) + k == w + k + one;
    case NotWritten => assert w + (k + one) == w + k + one;
    case NotSynced =>
      TwiceIsMore(rest, w + k, e);
      assert (w + one) + (k + one) == w + k + one + one;
  }

  lemma FirstOfPass(pending: seq<QueuedEvent>, pushes: nat -> PushIo, n: nat)
    requires pending != []
    ensures var one, none := multiset{pending[0]}, multiset{};
            && multiset(pending) == multiset(pending[1..]) + one
            && multiset(Written(pending, pushes, n)) ==
                 multiset(Written(pending[1..], pushes, n + 1)) + (if pushes(n).NotWritten? then none else one)
            && multiset(Kept(pending, pushes, n)) ==
                 multiset(Kept(pending[1..], pushes, n + 1)) + (if pushes(n).Pushed? then none else one)
  {
    assert pending == [pending[0]] + pending[1..];
    FirstCounts(pending[0], pending[1..]);
    FirstCounts(pending[0], Written(pending[1..], pushes, n + 1));
    FirstCounts(pending[0], Kept(pending[1..], pushes, n + 1));
  }

  /** A pass splits the pending events, except those written and kept both. */
  lemma {:induction false} PassSplitsIff(pending: seq<QueuedEvent>, pushes: nat -> PushIo, n: nat)
    ensures multiset(Written(pending, pushes, n)) + multiset(Kept(pending, pushes, n)) == multiset(pending)
            <==> SyncsHold(pushes, n, |pending|)
    decreases |pending|
  {
    if pending == [] {
      assert Written(pending, pushes, n) == Kept(pending, pushes, n) == [];
    } else {
      hide SyncsHold, Written, Kept;
      var rest := pending[1..];
      PassSplitsIff(rest, pushes, n + 1);
      PassCovers(rest, pushes, n + 1);
      SyncsHoldFirst(pushes, n, |rest|);
      FirstOfPass(pending, pushes, n);
      PushSplitsIff(multiset(Written(rest, pushes, n + 1)), multiset(Kept(rest, pushes, n + 1)), multiset(rest), pending[0], pushes(n));
    }
  }

  lemma SyncsHoldFirst(pushes: nat -> PushIo, n: nat, count: nat)
    ensures SyncsHold(pushes, n, count + 1) <==> !pushes(n).NotSynced? && SyncsHold(pushes, n + 1, count)
  {}

  lemma PersistHoldsIff(c: Codec, r: Run, pushes: nat -> PushIo)
    requires c.Faithful()
    ensures Held(c, Persisted(c, r, pushes)) == Held(c, r) <==> SyncsHold(pushes, 0, |r.pending|)
  {
    hide Codec.Faithful, Events, SyncsHold, Written, Kept, Encoded;
    var w, k := Written(r.pending, pushes, 0), Kept(r.pending, pushes, 0);
    EventsConcat(c, r.entries, Encoded(c, w));
    EventsEncoded(c, w);
    PassSplitsIff(r.pending, pushes, 0);
    var rest := multiset(Events(c, r.entries)) + multiset(r.settled);
    assert Held(c, Persisted(c, r, pushes)) == (multiset(w) + multiset(k)) + rest;
    assert Held(c, r) == multiset(r.pending) + rest;
    Cancel(multiset(w) + multiset(k), multiset(r.pending), rest);
  }

  // ---------- Sending ----------

  lemma AttemptHoldsIff(c: Codec, r: Run, a: Attempt)
    ensures Held(c, Attempted(c, r, a).1) == Held(c, r) <==> Settles(c, r, a)
  {
    hide PeekOf, Events;
    PeekKeepsEvents(c, r.entries, a.peek, 0);
    var (peeked, entries) := PeekOf(c, r.entries, a.peek, 0);
    if peeked.Oldest? {
      var e := peeked.event;
      assert multiset(r.settled + [e]) == multiset(r.settled) + multiset{e};
      assert multiset([e] + Events(c, entries[1..])) == multiset{e} + multiset(Events(c, entries[1..]));
      if a.outcome.RemovesFromQueue() && a.pop != Popped {
        assert Held(c, Attempted(c, r, a).1) == Held(c, r) + multiset{e};
        assert (Held(c, r) + multiset{e})[e] != Held(c, r)[e];
      }
    }
  }

  lemma {:induction false} DrainHoldsIff(c: Codec, r: Run, attempts: nat -> Attempt, n: nat)
    ensures Held(c, Drained(c, r, attempts, n)) == Held(c, r) <==> PopsHold(c, r, attempts, n)
    decreases |r.entries|
  {
    hide Held, Settles, Attempted;
    AttemptHolds(c, r, attempts(n));
    AttemptHoldsIff(c, r, attempts(n));
    var (more, next) := Attempted(c, r, attempts(n));
    if more {
      DrainHolds(c, next, attempts, n + 1);
      DrainHoldsIff(c, next, attempts, n + 1);
      Between(Held(c, r), Held(c, next), Held(c, Drained(c, next, attempts, n + 1)));
    }
  }

  // ---------- Runs ----------

  lemma TickHoldsIff(c: Codec, r: Run, t: Tick)
    requires c.Faithful()
    ensures Held(c, Ticked(c, r, t)) == Held(c, r) + multiset(t.found) <==> TickHoldsOnce(c, r, t)
  {
    hide Events, Persisted, Drained, Codec.Faithful, SyncsHold, PopsHold;
    var with := r.(pending := r.pending + t.found);
    assert Held(c, with) == Held(c, r) + multiset(t.found);
    PersistHolds(c, with, t.pushes);
    PersistHoldsIff(c, with, t.pushes);
    var p := Persisted(c, with, t.pushes);
    assert Held(c, p.(waitUntil := None)) == Held(c, p);
    if Drains(p, t) {
      DrainHolds(c, p.(waitUntil := None), t.attempts, 0);
      DrainHoldsIff(c, p.(waitUntil := None), t.attempts, 0);
      Between(Held(c, with), Held(c, p), Held(c, Ticked(c, r, t)));
    }
  }

  /** Exactly once: after a run, what was there and what was detected is held, each event as often as before, if and
      only if no sync failed behind a written line and no pop failed behind a settled event. */
  lemma {:induction false} ExactlyOnceIff(c: Codec, r: Run, ticks: seq<Tick>)
    requires c.Faithful()
    ensures Held(c, TickedAll(c, r, ticks)) == Held(c, r) + multiset(AllFound(ticks)) <==> RunHoldsOnce(c, r, ticks)
    decreases |ticks|
  {
    hide Held, Ticked, Codec.Faithful, TickHoldsOnce;
    if ticks != [] {
      var t, rest, next := ticks[0], ticks[1..], Ticked(c, r, ticks[0]);
      var found, later := multiset(t.found), multiset(AllFound(rest));
      TickHolds(c, r, t);
      TickHoldsIff(c, r, t);
      NoEventIsLost(c, next, rest);
      ExactlyOnceIff(c, next, rest);
      assert multiset(AllFound(ticks)) == found + later;
      Between(Held(c, r) + found + later, Held(c, next) + later, Held(c, TickedAll(c, next, rest)));
      Cancel(Held(c, next), Held(c, r) + found, later);
    }
  }
}
