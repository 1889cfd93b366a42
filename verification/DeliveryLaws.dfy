/** What every run of the delivery loop keeps, whatever fails: no event is lost, and order is lost only when
    a push succeeds behind one that failed. */
module DeliveryLaws {
  import opened Options
  import opened TradeQueue
  import opened Delivery

  /** What an entry stands for: one event, or nothing when it is unreadable. */
  function EventOf(c: Codec, entry: string): seq<QueuedEvent> {
    match c.decode(entry) case Some(e) => [e] case None => []
  }

  /** The readable events among the queue's entries. */
  function Events(c: Codec, entries: seq<string>): seq<QueuedEvent> {
    if entries == [] then [] else EventOf(c, entries[0]) + Events(c, entries[1..])
  }

  lemma {:induction false} EventsConcat(c: Codec, a: seq<string>, b: seq<string>)
    ensures Events(c, a + b) == Events(c, a) + Events(c, b)
  {
    hide EventOf;
    if a == [] {
      assert a + b == b;
    } else {
      EventsConcat(c, a[1..], b);
      assert (a + b)[1..] == a[1..] + b;
    }
  }

  lemma {:induction false} EventsEncoded(c: Codec, events: seq<QueuedEvent>)
    requires c.Faithful()
    ensures Events(c, Encoded(c, events)) == events
  {
    if events != [] {
      EventsEncoded(c, events[1..]);
      assert Encoded(c, events)[1..] == Encoded(c, events[1..]);
    }
  }

  /** Peeking drops no readable event. */
  lemma {:induction false} PeekKeepsEvents(c: Codec, entries: seq<string>, io: nat -> PeekIo, turn: nat)
    ensures var r := PeekOf(c, entries, io, turn);
            && Events(c, r.1) == Events(c, entries)
            && (r.0.Oldest? ==> r.1 != [] && Events(c, r.1) == [r.0.event] + Events(c, r.1[1..]))
    decreases |entries|
  {
    if !io(turn).readFails && entries != [] && c.decode(entries[0]).None? && io(turn).pop == Popped {
      PeekKeepsEvents(c, entries[1..], io, turn + 1);
      assert PeekOf(c, entries, io, turn) == PeekOf(c, entries[1..], io, turn + 1);
      assert Events(c, entries) == [] + Events(c, entries[1..]) == Events(c, entries[1..]);
    } else {
      assert PeekOf(c, entries, io, turn).1 == entries;
    }
  }

  // ---------- No event is lost ----------

  /** Where events can be: still pending, in the queue file, or settled by the server. */
  ghost function Held(c: Codec, r: Run): multiset<QueuedEvent> {
    multiset(r.pending) + multiset(Events(c, r.entries)) + multiset(r.settled)
  }

  lemma {:induction false} PassCovers(pending: seq<QueuedEvent>, pushes: nat -> PushIo, n: nat)
    ensures multiset(pending) <= multiset(Written(pending, pushes, n)) + multiset(Kept(pending, pushes, n))
    decreases |pending|
  {
    if pending != [] {
      var first, rest := pending[0], pending[1..];
      PassCovers(rest, pushes, n + 1);
      assert pending == [first] + rest;
      assert pushes(n).Pushed? ==> !pushes(n).NotWritten?;
    }
  }

  lemma PersistHolds(c: Codec, r: Run, pushes: nat -> PushIo)
    requires c.Faithful()
    ensures Held(c, r) <= Held(c, Persisted(c, r, pushes))
  {
    hide Codec.Faithful;
    var written := Written(r.pending, pushes, 0);
    PassCovers(r.pending, pushes, 0);
    EventsConcat(c, r.entries, Encoded(c, written));
    EventsEncoded(c, written);
  }

  lemma AttemptHolds(c: Codec, r: Run, a: Attempt)
    ensures Held(c, r) <= Held(c, Attempted(c, r, a).1)
  {
    hide PeekOf, Events;
    PeekKeepsEvents(c, r.entries, a.peek, 0);
    var (peeked, entries) := PeekOf(c, r.entries, a.peek, 0);
    if peeked.Oldest? {
      MovedOver(peeked.event, Events(c, entries[1..]), r.settled);
    }
  }

  lemma MovedOver<T>(e: T, from: seq<T>, to: seq<T>)
    ensures multiset([e] + from) == multiset{e} + multiset(from) && multiset(to + [e]) == multiset(to) + multiset{e}
  {}

  lemma {:induction false} DrainHolds(c: Codec, r: Run, attempts: nat -> Attempt, n: nat)
    ensures Held(c, r) <= Held(c, Drained(c, r, attempts, n))
    decreases |r.entries|
  {
    hide Held;
    AttemptHolds(c, r, attempts(n));
    var (more, next) := Attempted(c, r, attempts(n));
    if more {
      DrainHolds(c, next, attempts, n + 1);
    }
  }

  lemma TickHolds(c: Codec, r: Run, t: Tick)
    requires c.Faithful()
    ensures Held(c, r) + multiset(t.found) <= Held(c, Ticked(c, r, t))
  {
    hide Events, Persisted, Drained, Codec.Faithful;
    var with := r.(pending := r.pending + t.found);
    assert Held(c, with) == Held(c, r) + multiset(t.found);
    PersistHolds(c, with, t.pushes);
    var p := Persisted(c, with, t.pushes);
    assert Held(c, p.(waitUntil := None)) == Held(c, p);
    DrainHolds(c, p.(waitUntil := None), t.attempts, 0);
  }

  function AllFound(ticks: seq<Tick>): seq<QueuedEvent> {
    if ticks == [] then [] else ticks[0].found + AllFound(ticks[1..])
  }

  /** At-least-once: after any run with any failures, every event detected, and every event the queue held
      at the start, is pending, in the queue, or was accepted or dropped by the server, as often as it was
      detected. */
  lemma {:induction false} NoEventIsLost(c: Codec, r: Run, ticks: seq<Tick>)
    requires c.Faithful()
    ensures Held(c, r) + multiset(AllFound(ticks)) <= Held(c, TickedAll(c, r, ticks))
    decreases |ticks|
  {
    hide Held, Ticked, Codec.Faithful;
    if ticks != [] {
      TickHolds(c, r, ticks[0]);
      NoEventIsLost(c, Ticked(c, r, ticks[0]), ticks[1..]);
    }
  }

  /** Only an accepted or dropped event is ever settled, and only such an outcome shortens the queue. */
  lemma OnlyFinalOutcomesRemove(c: Codec, r: Run, a: Attempt)
    requires a.outcome.Rejected? || a.outcome.Failed?
    ensures Attempted(c, r, a).1.settled == r.settled
    ensures Events(c, Attempted(c, r, a).1.entries) == Events(c, r.entries)
  {
    PeekKeepsEvents(c, r.entries, a.peek, 0);
  }

  // ---------- Order ----------

  /** A sequence with its consecutive repeats taken together. */
  function Collapse<T(==)>(s: seq<T>): (r: seq<T>)
    ensures s != [] ==> r != [] && r[0] == s[0]
  {
    if |s| < 2 then s
    else if s[0] == s[1] then Collapse(s[1..])
    else [s[0]] + Collapse(s[1..])
  }

  lemma {:induction false} CollapseRepeat<T>(a: seq<T>, e: T, b: seq<T>)
    ensures Collapse(a + [e] + [e] + b) == Collapse(a + [e] + b)
  {
    if a == [] {
      assert ([] + [e] + [e] + b)[1..] == [] + [e] + b;
    } else {
      CollapseRepeat(a[1..], e, b);
      var x, y := a + [e] + [e] + b, a + [e] + b;
      assert x[1..] == a[1..] + [e] + [e] + b && y[1..] == a[1..] + [e] + b;
      assert x[1] == y[1];
    }
  }

  /** What is appended collapses the same behind sequences that collapse the same. */
  lemma {:induction false} CollapseLeft<T>(a: seq<T>, b: seq<T>)
    ensures Collapse(a + b) == Collapse(Collapse(a) + b)
  {
    if |a| >= 2 {
      CollapseLeft(a[1..], b);
      assert (a + b)[0] == a[0] && (a + b)[1] == a[1] && (a + b)[1..] == a[1..] + b;
      var c := Collapse(a[1..]);
      if a[0] != a[1] {
        assert Collapse(a) + b == [a[0]] + (c + b);
        assert (c + b)[0] == a[1] && ([a[0]] + (c + b))[1..] == c + b;
      }
    }
  }

  lemma {:induction false} CollapsePrefix<T>(a: seq<T>, b: seq<T>)
    ensures Collapse(a) <= Collapse(a + b)
  {
    if |a| >= 2 {
      CollapsePrefix(a[1..], b);
      assert (a + b)[1..] == a[1..] + b;
    } else if |a| == 1 && b != [] {
      assert (a + b)[0] == a[0];
    }
  }

  /** Everything on its way, in the order in which the server meets it. */
  ghost function Line(c: Codec, r: Run): seq<QueuedEvent> {
    r.sent + Events(c, r.entries) + r.pending
  }

  /** No push of the pass writes anything behind one that failed. */
  ghost predicate StopsAtFailure(pushes: nat -> PushIo, n: nat, count: nat) {
    forall i, j | n <= i < j < n + count :: !pushes(i).Pushed? ==> pushes(j).NotWritten?
  }

  lemma {:induction false} NothingWritten(pending: seq<QueuedEvent>, pushes: nat -> PushIo, n: nat)
    requires forall j | n <= j < n + |pending| :: pushes(j).NotWritten?
    ensures Written(pending, pushes, n) == [] && Kept(pending, pushes, n) == pending
    decreases |pending|
  {
    if pending != [] {
      NothingWritten(pending[1..], pushes, n + 1);
    }
  }

  lemma Regroup<T>(a: seq<T>, e: T, b: seq<T>, c: seq<T>)
    ensures a + ([e] + b) + c == a + [e] + b + c
    ensures (a + [e]) + b + c == a + [e] + (b + c)
    ensures (a + [e]) + ([e] + b) + c == a + [e] + [e] + (b + c)
  {}

  lemma {:induction false} PassKeepsOrder(front: seq<QueuedEvent>, pending: seq<QueuedEvent>, pushes: nat -> PushIo, n: nat)
    requires StopsAtFailure(pushes, n, |pending|)
    ensures Collapse(front + Written(pending, pushes, n) + Kept(pending, pushes, n)) == Collapse(front + pending)
    decreases |pending|
  {
    hide Collapse;
    if pending == [] {
      assert front + [] + [] == front + [];
    } else {
      var first, rest := pending[0], pending[1..];
      assert pending == [first] + rest;
      var w, k := Written(rest, pushes, n + 1), Kept(rest, pushes, n + 1);
      if pushes(n).Pushed? {
        PassKeepsOrder(front + [first], rest, pushes, n + 1);
        assert Written(pending, pushes, n) == [first] + w && Kept(pending, pushes, n) == k;
        Regroup(front, first, w, k);
        Regroup(front, first, [], rest);
        assert front + pending == front + [first] + rest;
      } else {
        NothingWritten(rest, pushes, n + 1);
        FailedFirst(front, first, rest, pushes(n).NotSynced?);
        assert Written(pending, pushes, n) == (if pushes(n).NotSynced? then [first] else []);
        assert Kept(pending, pushes, n) == [first] + rest;
      }
    }
  }

  lemma RepeatedFirst<T>(front: seq<T>, first: T, rest: seq<T>)
    ensures Collapse(front + [first] + ([first] + rest)) == Collapse(front + ([first] + rest))
  {
    hide Collapse;
    CollapseRepeat(front, first, rest);
    assert front + [first] + ([first] + rest) == front + [first] + [first] + rest;
    assert front + [first] + rest == front + ([first] + rest);
  }

  lemma FailedFirst<T>(front: seq<T>, first: T, rest: seq<T>, written: bool)
    ensures Collapse(front + (if written then [first] else []) + ([first] + rest)) == Collapse(front + ([first] + rest))
  {
    hide Collapse;
    if written {
      RepeatedFirst(front, first, rest);
    } else {
      assert front + [] == front;
    }
  }

  ghost predicate Distinct<T>(s: seq<T>) {
    forall i, j | 0 <= i < j < |s| :: s[i] != s[j]
  }

  lemma {:induction false} CollapseDistinct<T>(s: seq<T>)
    requires Distinct(s)
    ensures Collapse(s) == s
  {
    if |s| >= 2 {
      assert s[0] != s[1];
      assert forall i, j | 0 <= i < j < |s| - 1 :: s[1..][i] == s[i + 1] && s[1..][j] == s[j + 1];
      CollapseDistinct(s[1..]);
    }
  }

  /** Collapsing moves no element behind one that stood behind it. */
  lemma {:induction false} CollapseKeepsOrder<T>(s: seq<T>, i: nat, j: nat) returns (a: nat, b: nat)
    requires i <= j < |s|
    ensures a <= b < |Collapse(s)| && Collapse(s)[a] == s[i] && Collapse(s)[b] == s[j]
  {
    if |s| < 2 {
      a, b := i, j;
    } else {
      var shift := if s[0] == s[1] then 0 else 1;
      if j == 0 {
        a, b := 0, 0;
      } else if i == 0 {
        var x;
        x, b := CollapseKeepsOrder(s[1..], 0, j - 1);
        a, b := 0, b + shift;
      } else {
        a, b := CollapseKeepsOrder(s[1..], i - 1, j - 1);
        a, b := a + shift, b + shift;
      }
    }
  }

  lemma {:induction false} InWritten(pending: seq<QueuedEvent>, pushes: nat -> PushIo, n: nat, j: nat) returns (x: nat)
    requires j < |pending| && !pushes(n + j).NotWritten?
    ensures x < |Written(pending, pushes, n)| && Written(pending, pushes, n)[x] == pending[j]
    decreases |pending|
  {
    if j == 0 {
      x := 0;
    } else {
      x := InWritten(pending[1..], pushes, n + 1, j - 1);
      x := x + if pushes(n).NotWritten? then 0 else 1;
    }
  }

  lemma {:induction false} InKept(pending: seq<QueuedEvent>, pushes: nat -> PushIo, n: nat, i: nat) returns (y: nat)
    requires i < |pending| && !pushes(n + i).Pushed?
    ensures y < |Kept(pending, pushes, n)| && Kept(pending, pushes, n)[y] == pending[i]
    decreases |pending|
  {
    if i == 0 {
      y := 0;
    } else {
      y := InKept(pending[1..], pushes, n + 1, i - 1);
      y := y + if pushes(n).Pushed? then 0 else 1;
    }
  }

  /** A pass over distinct events, which may stand in the queue already, keeps the order exactly when it writes
      nothing behind a failed push. */
  lemma PassKeepsOrderIff(front: seq<QueuedEvent>, pending: seq<QueuedEvent>, pushes: nat -> PushIo)
    requires Distinct(pending) && Distinct(Collapse(front + pending))
    ensures Collapse(front + Written(pending, pushes, 0) + Kept(pending, pushes, 0)) == Collapse(front + pending)
            <==> StopsAtFailure(pushes, 0, |pending|)
  {
    hide Collapse, Written, Kept;
    var w, k := Written(pending, pushes, 0), Kept(pending, pushes, 0);
    if StopsAtFailure(pushes, 0, |pending|) {
      PassKeepsOrder(front, pending, pushes, 0);
    } else {
      var i, j :| 0 <= i < j < |pending| && !pushes(i).Pushed? && !pushes(j).NotWritten?;
      var x := InWritten(pending, pushes, 0, j);
      var y := InKept(pending, pushes, 0, i);
      var f := |front|;
      assert (front + pending)[f + i] == pending[i] && (front + pending)[f + j] == pending[j];
      assert (front + w + k)[f + x] == w[x] && (front + w + k)[f + |w| + y] == k[y];
      OppositeOrders(front + pending, f + i, f + j, front + w + k, f + x, f + |w| + y);
    }
  }

  /** Two sequences with two different elements in opposite orders do not collapse to the same distinct one. */
  lemma OppositeOrders<T>(s: seq<T>, i: nat, j: nat, t: seq<T>, x: nat, y: nat)
    requires i <= j < |s| && x <= y < |t| && s[i] == t[y] && s[j] == t[x] && s[i] != s[j]
    requires Distinct(Collapse(s))
    ensures Collapse(s) != Collapse(t)
  {
    hide Collapse;
    var a, b := CollapseKeepsOrder(s, i, j);
    var c, d := CollapseKeepsOrder(t, x, y);
  }

  lemma PersistKeepsLine(c: Codec, r: Run, pushes: nat -> PushIo)
    requires c.Faithful() && StopsAtFailure(pushes, 0, |r.pending|)
    ensures Collapse(Line(c, Persisted(c, r, pushes))) == Collapse(Line(c, r))
  {
    hide Codec.Faithful, StopsAtFailure, Collapse, Events;
    var w := Written(r.pending, pushes, 0);
    EventsConcat(c, r.entries, Encoded(c, w));
    EventsEncoded(c, w);
    PassKeepsOrder(r.sent + Events(c, r.entries), r.pending, pushes, 0);
    assert r.sent + (Events(c, r.entries) + w) == r.sent + Events(c, r.entries) + w;
  }

  lemma AttemptKeepsLine(c: Codec, r: Run, a: Attempt)
    ensures Collapse(Line(c, Attempted(c, r, a).1)) == Collapse(Line(c, r))
  {
    hide Collapse, PeekOf;
    PeekKeepsEvents(c, r.entries, a.peek, 0);
    var (peeked, entries) := PeekOf(c, r.entries, a.peek, 0);
    if peeked.Oldest? {
      SentLine(r.sent, peeked.event, Events(c, entries[1..]), r.pending);
    }
  }

  lemma SentLine<T>(sent: seq<T>, e: T, rest: seq<T>, pending: seq<T>)
    ensures sent + ([e] + rest) + pending == (sent + [e]) + rest + pending
    ensures Collapse((sent + [e]) + ([e] + rest) + pending) == Collapse(sent + ([e] + rest) + pending)
  {
    hide Collapse;
    Regroup(sent, e, rest, pending);
    CollapseRepeat(sent, e, rest + pending);
  }

  lemma {:induction false} DrainKeepsLine(c: Codec, r: Run, attempts: nat -> Attempt, n: nat)
    ensures Collapse(Line(c, Drained(c, r, attempts, n))) == Collapse(Line(c, r))
    decreases |r.entries|
  {
    hide Line, Collapse;
    AttemptKeepsLine(c, r, attempts(n));
    var (more, next) := Attempted(c, r, attempts(n));
    if more {
      DrainKeepsLine(c, next, attempts, n + 1);
    }
  }

  lemma TickKeepsLine(c: Codec, r: Run, t: Tick)
    requires c.Faithful() && StopsAtFailure(t.pushes, 0, |r.pending| + |t.found|)
    ensures Collapse(Line(c, Ticked(c, r, t))) == Collapse(Line(c, r) + t.found)
  {
    hide Codec.Faithful, StopsAtFailure, Persisted, Drained, Events, Collapse;
    var with := r.(pending := r.pending + t.found);
    assert Line(c, with) == Line(c, r) + t.found;
    PersistKeepsLine(c, with, t.pushes);
    var p := Persisted(c, with, t.pushes);
    assert Line(c, p.(waitUntil := None)) == Line(c, p);
    DrainKeepsLine(c, p.(waitUntil := None), t.attempts, 0);
  }

  /** In every tick of a run no push writes anything behind one that failed. */
  ghost predicate AllStopAtFailure(c: Codec, r: Run, ticks: seq<Tick>)
    decreases |ticks|
  {
    ticks == [] ||
    (StopsAtFailure(ticks[0].pushes, 0, |r.pending| + |ticks[0].found|)
     && AllStopAtFailure(c, Ticked(c, r, ticks[0]), ticks[1..]))
  }

  lemma {:induction false} RunKeepsLine(c: Codec, r: Run, ticks: seq<Tick>)
    requires c.Faithful() && AllStopAtFailure(c, r, ticks)
    ensures Collapse(Line(c, TickedAll(c, r, ticks))) == Collapse(Line(c, r) + AllFound(ticks))
    decreases |ticks|
  {
    hide Codec.Faithful, StopsAtFailure, Ticked, Line, Collapse;
    if ticks == [] {
      assert Line(c, r) + AllFound(ticks) == Line(c, r);
    } else {
      var t, next, rest := ticks[0], Ticked(c, r, ticks[0]), ticks[1..];
      TickKeepsLine(c, r, t);
      RunKeepsLine(c, next, rest);
      CollapseLeft(Line(c, next), AllFound(rest));
      CollapseLeft(Line(c, r) + t.found, AllFound(rest));
      assert Line(c, r) + t.found + AllFound(rest) == Line(c, r) + AllFound(ticks);
    }
  }

  /** FIFO delivery: with consecutive repeats taken together, what was sent is a prefix of the queue's
      first content followed by the events in the order of their detection. */
  lemma DeliveryIsFifo(c: Codec, entries: seq<string>, ticks: seq<Tick>)
    requires c.Faithful() && AllStopAtFailure(c, Run([], entries, None, [], []), ticks)
    ensures Collapse(TickedAll(c, Run([], entries, None, [], []), ticks).sent)
            <= Collapse(Events(c, entries) + AllFound(ticks))
  {
    hide Codec.Faithful, AllStopAtFailure, TickedAll, Collapse, Line, Events;
    var r := Run([], entries, None, [], []);
    var after := TickedAll(c, r, ticks);
    RunKeepsLine(c, r, ticks);
    LineAtStart(c, entries);
    LineStartsWithSent(c, after);
    CollapsePrefix(after.sent, Events(c, after.entries) + after.pending);
  }

  lemma LineAtStart(c: Codec, entries: seq<string>)
    ensures Line(c, Run([], entries, None, [], [])) == Events(c, entries)
  {
    hide Events;
  }

  lemma LineStartsWithSent(c: Codec, r: Run)
    ensures Line(c, r) == r.sent + (Events(c, r.entries) + r.pending)
  {
    hide Events;
  }
}
