/** Exactly which runs of the delivery loop keep the order of the events. */
module DeliveryOrder {
  import opened Options
  import opened TradeQueue
  import opened Delivery
  import opened DeliveryLaws

  /** What is sent or queued: the part of the line that no pass reorders. */
  ghost function Front(c: Codec, r: Run): seq<QueuedEvent> {
    r.sent + Events(c, r.entries)
  }

  /** `v` is sent or queued, and `u` comes behind it, there or still pending. */
  ghost predicate Overtaken<T>(front: seq<T>, pending: seq<T>, v: T, u: T) {
    exists p | 0 <= p < |front| :: front[p] == v && (u in pending || exists q | p < q < |front| :: front[q] == u)
  }

  lemma OvertakenIn<T>(front: seq<T>, pending: seq<T>, v: T, u: T) returns (x: nat, y: nat)
    requires Overtaken(front, pending, v, u)
    ensures x < y < |front + pending| && (front + pending)[x] == v && (front + pending)[y] == u
  {
    x :| 0 <= x < |front| && front[x] == v && (u in pending || exists q | x < q < |front| :: front[q] == u);
    if q :| x < q < |front| && front[q] == u {
      y := q;
    } else {
      var k :| 0 <= k < |pending| && pending[k] == u;
      y := |front| + k;
    }
  }

  // ---------- No step takes it back ----------

  lemma StaysOvertaken<T>(front: seq<T>, pending: seq<T>, more: seq<T>, kept: seq<T>, v: T, u: T)
    requires Overtaken(front, pending, v, u) && (u in pending ==> u in more || u in kept)
    ensures Overtaken(front + more, kept, v, u)
  {
    var p :| 0 <= p < |front| && front[p] == v && (u in pending || exists q | p < q < |front| :: front[q] == u);
    var all := front + more;
    assert all[p] == v;
    if q :| p < q < |front| && front[q] == u {
      assert all[q] == u;
    } else if u in more {
      var k :| 0 <= k < |more| && more[k] == u;
      assert all[|front| + k] == u;
    }
  }

  lemma RepeatStaysOvertaken<T>(a: seq<T>, e: T, b: seq<T>, pending: seq<T>, v: T, u: T)
    requires Overtaken(a + [e] + b, pending, v, u)
    ensures Overtaken(a + [e] + [e] + b, pending, v, u)
  {
    var s, t := a + [e] + b, a + [e] + [e] + b;
    var p :| 0 <= p < |s| && s[p] == v && (u in pending || exists q | p < q < |s| :: s[q] == u);
    var p' := if p <= |a| then p else p + 1;
    assert t[p'] == v;
    if q :| p < q < |s| && s[q] == u {
      assert t[if q <= |a| then q else q + 1] == u;
    }
  }

  lemma {:induction false} PendingIsCovered(pending: seq<QueuedEvent>, pushes: nat -> PushIo, n: nat, u: QueuedEvent)
    requires u in pending
    ensures u in Written(pending, pushes, n) || u in Kept(pending, pushes, n)
    decreases |pending|
  {
    if u != pending[0] {
      assert pending == [pending[0]] + pending[1..];
      PendingIsCovered(pending[1..], pushes, n + 1, u);
    }
  }

  lemma PersistedFront(c: Codec, r: Run, pushes: nat -> PushIo)
    requires c.Faithful()
    ensures Front(c, Persisted(c, r, pushes)) == Front(c, r) + Written(r.pending, pushes, 0)
  {
    hide Codec.Faithful, Written, Events;
    var w := Written(r.pending, pushes, 0);
    EventsConcat(c, r.entries, Encoded(c, w));
    EventsEncoded(c, w);
    assert r.sent + (Events(c, r.entries) + w) == r.sent + Events(c, r.entries) + w;
  }

  lemma PersistStaysOvertaken(c: Codec, r: Run, pushes: nat -> PushIo, v: QueuedEvent, u: QueuedEvent)
    requires c.Faithful() && Overtaken(Front(c, r), r.pending, v, u)
    ensures var p := Persisted(c, r, pushes); Overtaken(Front(c, p), p.pending, v, u)
  {
    hide Codec.Faithful, Written, Kept, Overtaken, Front, Encoded;
    PersistedFront(c, r, pushes);
    if u in r.pending {
      PendingIsCovered(r.pending, pushes, 0, u);
    }
    StaysOvertaken(Front(c, r), r.pending, Written(r.pending, pushes, 0), Kept(r.pending, pushes, 0), v, u);
  }

  lemma AttemptStaysOvertaken(c: Codec, r: Run, a: Attempt, v: QueuedEvent, u: QueuedEvent)
    requires Overtaken(Front(c, r), r.pending, v, u)
    ensures var t := Attempted(c, r, a).1; Overtaken(Front(c, t), t.pending, v, u)
  {
    hide PeekOf, Overtaken, Events;
    PeekKeepsEvents(c, r.entries, a.peek, 0);
    var (peeked, entries) := PeekOf(c, r.entries, a.peek, 0);
    if peeked.Oldest? {
      var e, rest := peeked.event, Events(c, entries[1..]);
      Regroup(r.sent, e, rest, []);
      assert r.sent + ([e] + rest) == r.sent + [e] + rest;
      assert (r.sent + [e]) + ([e] + rest) == r.sent + [e] + [e] + rest;
      RepeatStaysOvertaken(r.sent, e, rest, r.pending, v, u);
    }
  }

  lemma {:induction false} DrainStaysOvertaken(c: Codec, r: Run, attempts: nat -> Attempt, n: nat, v: QueuedEvent, u: QueuedEvent)
    requires Overtaken(Front(c, r), r.pending, v, u)
    ensures var t := Drained(c, r, attempts, n); Overtaken(Front(c, t), t.pending, v, u)
    decreases |r.entries|
  {
    hide Overtaken, Front;
    AttemptStaysOvertaken(c, r, attempts(n), v, u);
    var (more, next) := Attempted(c, r, attempts(n));
    if more {
      DrainStaysOvertaken(c, next, attempts, n + 1, v, u);
    }
  }

  /** What follows the pass of a tick. */
  lemma RestStaysOvertaken(c: Codec, p: Run, t: Tick, v: QueuedEvent, u: QueuedEvent)
    requires Overtaken(Front(c, p), p.pending, v, u)
    ensures var r := AfterPass(c, p, t); Overtaken(Front(c, r), r.pending, v, u)
  {
    hide Overtaken, Events, Drained;
    assert Front(c, p.(waitUntil := None)) == Front(c, p);
    DrainStaysOvertaken(c, p.(waitUntil := None), t.attempts, 0, v, u);
  }

  function AfterPass(c: Codec, p: Run, t: Tick): Run {
    if p.waitUntil.None? || t.now >= p.waitUntil.value then Drained(c, p.(waitUntil := None), t.attempts, 0) else p
  }

  lemma TickedIs(c: Codec, r: Run, t: Tick)
    ensures Ticked(c, r, t) == AfterPass(c, Persisted(c, r.(pending := r.pending + t.found), t.pushes), t)
  {
    hide Drained, Persisted;
  }

  lemma TickStaysOvertaken(c: Codec, r: Run, t: Tick, v: QueuedEvent, u: QueuedEvent)
    requires c.Faithful() && Overtaken(Front(c, r), r.pending, v, u)
    ensures var next := Ticked(c, r, t); Overtaken(Front(c, next), next.pending, v, u)
  {
    hide Codec.Faithful, Overtaken, Events, Persisted, Ticked, AfterPass;
    var with := r.(pending := r.pending + t.found);
    TickedIs(c, r, t);
    assert Front(c, with) == Front(c, r);
    MorePending(Front(c, r), r.pending, t.found, v, u);
    PersistStaysOvertaken(c, with, t.pushes, v, u);
    RestStaysOvertaken(c, Persisted(c, with, t.pushes), t, v, u);
  }

  lemma MorePending<T>(front: seq<T>, pending: seq<T>, found: seq<T>, v: T, u: T)
    requires Overtaken(front, pending, v, u)
    ensures Overtaken(front, pending + found, v, u)
  {
    assert front + [] == front;
    StaysOvertaken(front, pending, [], pending + found, v, u);
  }

  lemma {:induction false} RunStaysOvertaken(c: Codec, r: Run, ticks: seq<Tick>, v: QueuedEvent, u: QueuedEvent)
    requires c.Faithful() && Overtaken(Front(c, r), r.pending, v, u)
    ensures var after := TickedAll(c, r, ticks); Overtaken(Front(c, after), after.pending, v, u)
    decreases |ticks|
  {
    hide Codec.Faithful, Overtaken, Front, Ticked;
    if ticks != [] {
      TickStaysOvertaken(c, r, ticks[0], v, u);
      RunStaysOvertaken(c, Ticked(c, r, ticks[0]), ticks[1..], v, u);
    }
  }

  // ---------- A pass that writes behind a failure ----------

  /** Such a pass lets the later event overtake the earlier one. */
  lemma PassOvertakes(c: Codec, r: Run, t: Tick) returns (i: nat, j: nat)
    requires c.Faithful() && !StopsAtFailure(t.pushes, 0, |r.pending + t.found|)
    ensures i < j < |r.pending + t.found|
    ensures var all, next := r.pending + t.found, Ticked(c, r, t);
            Overtaken(Front(c, next), next.pending, all[j], all[i])
  {
    hide Codec.Faithful, Overtaken, Front, Ticked, AfterPass, Written, Kept, Encoded;
    var all := r.pending + t.found;
    var with := r.(pending := all);
    i, j :| 0 <= i < j < |all| && !t.pushes(i).Pushed? && !t.pushes(j).NotWritten?;
    var x := InWritten(all, t.pushes, 0, j);
    var y := InKept(all, t.pushes, 0, i);
    PersistedFront(c, with, t.pushes);
    WrittenOvertakes(Front(c, with), Written(all, t.pushes, 0), Kept(all, t.pushes, 0), x, y);
    TickedIs(c, r, t);
    RestStaysOvertaken(c, Persisted(c, with, t.pushes), t, all[j], all[i]);
  }

  lemma WrittenOvertakes<T>(front: seq<T>, written: seq<T>, kept: seq<T>, x: nat, y: nat)
    requires x < |written| && y < |kept|
    ensures Overtaken(front + written, kept, written[x], kept[y])
  {
    assert (front + written)[|front| + x] == written[x];
  }

  /** An event that was overtaken once ends up behind the one that overtook it. */
  lemma OvertakenLineDiffers(c: Codec, r: Run, t: Tick, rest: seq<Tick>)
    requires c.Faithful() && !StopsAtFailure(t.pushes, 0, |r.pending + t.found|)
    requires Distinct(r.pending + t.found) && Distinct(Collapse(Line(c, r) + t.found + AllFound(rest)))
    ensures Collapse(Line(c, TickedAll(c, Ticked(c, r, t), rest))) != Collapse(Line(c, r) + t.found + AllFound(rest))
  {
    hide Codec.Faithful, StopsAtFailure, Ticked, TickedAll, Collapse, Events, Overtaken, AllFound;
    var i, j := PassOvertakes(c, r, t);
    var all, after := r.pending + t.found, TickedAll(c, Ticked(c, r, t), rest);
    RunStaysOvertaken(c, Ticked(c, r, t), rest, all[j], all[i]);
    var x, y := OvertakenIn(Front(c, after), after.pending, all[j], all[i]);
    var f, s := |Front(c, r)|, Line(c, r) + t.found + AllFound(rest);
    assert s == Front(c, r) + all + AllFound(rest);
    assert s[f + i] == all[i] && s[f + j] == all[j];
    OppositeOrders(s, f + i, f + j, Line(c, after), x, y);
  }

  // ---------- Distinct events ----------

  lemma {:induction false} KeptIn(pending: seq<QueuedEvent>, pushes: nat -> PushIo, n: nat, k: nat) returns (i: nat)
    requires k < |Kept(pending, pushes, n)|
    ensures k <= i < |pending| && pending[i] == Kept(pending, pushes, n)[k]
    decreases |pending|
  {
    if !pushes(n).Pushed? && k == 0 {
      i := 0;
    } else {
      i := KeptIn(pending[1..], pushes, n + 1, if pushes(n).Pushed? then k else k - 1);
      i := i + 1;
    }
  }

  lemma {:induction false} KeptIsDistinct(pending: seq<QueuedEvent>, pushes: nat -> PushIo, n: nat)
    requires Distinct(pending)
    ensures Distinct(Kept(pending, pushes, n))
    decreases |pending|
  {
    if pending != [] {
      assert forall i, j | 0 <= i < j < |pending| - 1 :: pending[1..][i] == pending[i + 1] && pending[1..][j] == pending[j + 1];
      KeptIsDistinct(pending[1..], pushes, n + 1);
      var rest := Kept(pending[1..], pushes, n + 1);
      forall k | 0 <= k < |rest| ensures rest[k] != pending[0] {
        var i := KeptIn(pending[1..], pushes, n + 1, k);
        assert pending[i + 1] == rest[k];
      }
    }
  }

  lemma DistinctWithKept(pending: seq<QueuedEvent>, pushes: nat -> PushIo, later: seq<QueuedEvent>)
    requires Distinct(pending + later)
    ensures Distinct(Kept(pending, pushes, 0) + later)
  {
    var k, s := Kept(pending, pushes, 0), pending + later;
    assert Distinct(pending) by {
      assert forall i | 0 <= i < |pending| :: s[i] == pending[i];
    }
    KeptIsDistinct(pending, pushes, 0);
    forall i, j | 0 <= i < j < |k + later| ensures (k + later)[i] != (k + later)[j] {
      if i < |k| <= j {
        var x := KeptIn(pending, pushes, 0, i);
        assert s[x] == k[i] && s[|pending| + (j - |k|)] == later[j - |k|];
      } else if |k| <= i {
        assert s[|pending| + (i - |k|)] == later[i - |k|] && s[|pending| + (j - |k|)] == later[j - |k|];
      }
    }
  }

  lemma AttemptPending(c: Codec, r: Run, a: Attempt)
    ensures Attempted(c, r, a).1.pending == r.pending
  {}

  lemma {:induction false} DrainPending(c: Codec, r: Run, attempts: nat -> Attempt, n: nat)
    ensures Drained(c, r, attempts, n).pending == r.pending
    decreases |r.entries|
  {
    hide Attempted;
    AttemptPending(c, r, attempts(n));
    var (more, next) := Attempted(c, r, attempts(n));
    if more {
      DrainPending(c, next, attempts, n + 1);
    }
  }

  lemma TickPending(c: Codec, r: Run, t: Tick)
    ensures Ticked(c, r, t).pending == Kept(r.pending + t.found, t.pushes, 0)
  {
    hide Kept, Written, Drained;
    var p := Persisted(c, r.(pending := r.pending + t.found), t.pushes);
    DrainPending(c, p.(waitUntil := None), t.attempts, 0);
  }

  // ---------- Runs ----------

  /** The order of everything on its way, detections included, is kept over a run if and only if no pass of it
      writes anything behind a push that failed. The events are distinct, but one whose sync failed may already
      stand in the queue while it is pending. */
  lemma {:induction false} RunKeepsLineIff(c: Codec, r: Run, ticks: seq<Tick>)
    requires c.Faithful() && Distinct(r.pending + AllFound(ticks)) && Distinct(Collapse(Line(c, r) + AllFound(ticks)))
    ensures Collapse(Line(c, TickedAll(c, r, ticks))) == Collapse(Line(c, r) + AllFound(ticks))
            <==> AllStopAtFailure(c, r, ticks)
    decreases |ticks|
  {
    hide Codec.Faithful, StopsAtFailure, Ticked, Line, Collapse, Distinct;
    if ticks == [] {
      assert Line(c, r) + AllFound(ticks) == Line(c, r);
    } else {
      var t, rest := ticks[0], ticks[1..];
      var found, later := t.found, AllFound(rest);
      assert Line(c, r) + found + later == Line(c, r) + AllFound(ticks);
      assert r.pending + found + later == r.pending + AllFound(ticks);
      assert |r.pending + found| == |r.pending| + |found|;
      if StopsAtFailure(t.pushes, 0, |r.pending + found|) {
        TickAndRest(c, r, t, later);
        RunKeepsLineIff(c, Ticked(c, r, t), rest);
      } else {
        DistinctFront(r.pending + found, later);
        OvertakenLineDiffers(c, r, t, rest);
      }
    }
  }

  lemma DistinctFront<T>(a: seq<T>, b: seq<T>)
    requires Distinct(a + b)
    ensures Distinct(a)
  {
    assert forall i | 0 <= i < |a| :: (a + b)[i] == a[i];
  }

  /** Behind a tick that keeps the order, the rest of the run is as before. */
  lemma TickAndRest(c: Codec, r: Run, t: Tick, later: seq<QueuedEvent>)
    requires c.Faithful() && StopsAtFailure(t.pushes, 0, |r.pending + t.found|) && Distinct(r.pending + t.found + later)
    ensures var next := Ticked(c, r, t);
            Collapse(Line(c, next) + later) == Collapse(Line(c, r) + t.found + later) && Distinct(next.pending + later)
  {
    hide Codec.Faithful, StopsAtFailure, Ticked, Line, Collapse, Distinct, Kept;
    TickKeepsLine(c, r, t);
    CollapseLeft(Line(c, Ticked(c, r, t)), later);
    CollapseLeft(Line(c, r) + t.found, later);
    TickPending(c, r, t);
    DistinctWithKept(r.pending + t.found, t.pushes, later);
  }

  /** From a queue of distinct events, and distinct detections: the line stays what it was if and only if no pass
      writes behind a failed push. */
  lemma FifoIff(c: Codec, entries: seq<string>, ticks: seq<Tick>)
    requires c.Faithful() && Distinct(Events(c, entries) + AllFound(ticks))
    ensures var start := Run([], entries, None, [], []);
            Collapse(Line(c, TickedAll(c, start, ticks))) == Events(c, entries) + AllFound(ticks)
            <==> AllStopAtFailure(c, start, ticks)
  {
    hide Codec.Faithful, AllStopAtFailure, TickedAll, Collapse, Events, AllFound, Line;
    var queued, found := Events(c, entries), AllFound(ticks);
    LineAtStart(c, entries);
    CollapseDistinct(queued + found);
    assert Distinct([] + found) by {
      forall i, j | 0 <= i < j < |found| ensures found[i] != found[j] {
        assert (queued + found)[|queued| + i] == found[i] && (queued + found)[|queued| + j] == found[j];
      }
      assert [] + found == found;
    }
    RunKeepsLineIff(c, Run([], entries, None, [], []), ticks);
  }
}
