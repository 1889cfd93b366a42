/** The sliding-window limit on login attempts (crates/qf-server/src/auth.rs). */
module LoginLimits {
  /** How long ago `t` was; zero for a time still to come. */
  function Since(now: nat, t: nat): nat {
    if now >= t then now - t else 0
  }

  /** Drops from the front every attempt older than the window. */
  function Evict(attempts: seq<nat>, now: nat, window: nat): seq<nat> {
    if attempts == [] || Since(now, attempts[0]) <= window then attempts else Evict(attempts[1..], now, window)
  }

  /** Eviction stops at the first attempt that lies in the window or in the future, whatever the clock does: it drops
      those in front of it, all of them older than the window. */
  lemma {:induction false} EvictStops(attempts: seq<nat>, now: nat, window: nat) returns (n: nat)
    ensures n <= |attempts| && Evict(attempts, now, window) == attempts[n..]
    ensures forall i | 0 <= i < n :: attempts[i] + window < now
    ensures n < |attempts| ==> now <= attempts[n] + window
  {
    if attempts == [] || now <= attempts[0] + window {
      n := 0;
    } else {
      n := EvictStops(attempts[1..], now, window);
      n := n + 1;
    }
  }

  class LoginLimiter {
    var attempts: seq<nat>
    const max: nat
    const window: nat

    constructor (max: nat, window: nat)
      ensures attempts == [] && this.max == max && this.window == window
    {
      attempts, this.max, this.window := [], max, window;
    }

    method TryAcquire(now: nat) returns (ok: bool)
      modifies this
      ensures attempts == Try(Limits(max, window), Run(old(attempts), []), now).attempts
      ensures ok <==> |Evict(old(attempts), now, window)| < max
    {
      while attempts != [] && Since(now, attempts[0]) > window
        invariant Evict(attempts, now, window) == Evict(old(attempts), now, window)
        decreases |attempts|
      {
        attempts := attempts[1..];
      }
      if |attempts| >= max {
        return false;
      }
      attempts := attempts + [now];
      return true;
    }
  }

  // ---------- Runs ----------

  datatype Limits = Limits(max: nat, window: nat)

  /** What the limiter remembers, and every attempt it ever let through. */
  datatype Run = Run(attempts: seq<nat>, accepted: seq<nat>)

  function Try(l: Limits, r: Run, now: nat): Run {
    var kept := Evict(r.attempts, now, l.window);
    if |kept| < l.max then Run(kept + [now], r.accepted + [now]) else Run(kept, r.accepted)
  }

  /** The limiter after an attempt at each of `times`. */
  function AfterTries(l: Limits, times: seq<nat>): Run {
    if times == [] then Run([], []) else Try(l, AfterTries(l, times[..|times| - 1]), times[|times| - 1])
  }

  /** How many of `times` lie in the closed interval from `lo` to `hi`. */
  function Within(times: seq<nat>, lo: int, hi: int): nat {
    if times == [] then 0 else Within(times[1..], lo, hi) + if lo <= times[0] <= hi then 1 else 0
  }

  /** Nondecreasing, and none of them after `now`: what a clock that never goes back gives. */
  ghost predicate Sorted(times: seq<nat>, now: nat) {
    && (forall i, j | 0 <= i < j < |times| :: times[i] <= times[j])
    && forall i | 0 <= i < |times| :: times[i] <= now
  }

  lemma {:induction false} WithinAppend(a: seq<nat>, b: seq<nat>, lo: int, hi: int)
    ensures Within(a + b, lo, hi) == Within(a, lo, hi) + Within(b, lo, hi)
  {
    if a == [] {
      assert a + b == b;
    } else {
      WithinAppend(a[1..], b, lo, hi);
      assert (a + b)[1..] == a[1..] + b;
    }
  }

  /** The window that ends now holds all that any interval of its length reaching now does. */
  lemma {:induction false} WithinMore(times: seq<nat>, now: nat, from: int, window: nat)
    requires Sorted(times, now) && from <= now <= from + window
    ensures Within(times, from, from + window) <= Within(times, now - window, now)
  {
    if times != [] {
      WithinMore(times[1..], now, from, window);
    }
  }

  lemma {:induction false} AllWithin(times: seq<nat>, now: nat, window: nat)
    requires Sorted(times, now) && (times == [] || now - window <= times[0])
    ensures Within(times, now - window, now) == |times|
  {
    if times != [] {
      AllWithin(times[1..], now, window);
    }
  }

  /** Eviction loses nothing that a later window could contain, and keeps only what the current one does. */
  lemma {:induction false} EvictKeepsWindow(attempts: seq<nat>, now: nat, later: nat, window: nat)
    requires Sorted(attempts, now) && now <= later
    ensures var kept := Evict(attempts, now, window);
            && Sorted(kept, now)
            && Within(kept, later - window, later) == Within(attempts, later - window, later)
            && |kept| == Within(attempts, now - window, now)
  {
    if attempts == [] {
    } else if Since(now, attempts[0]) <= window {
      AllWithin(attempts, now, window);
    } else {
      EvictKeepsWindow(attempts[1..], now, later, window);
    }
  }

  /** What the limiter remembers stands for everything it accepted, as far as the window ending at `now` can see. */
  ghost predicate Suffices(l: Limits, r: Run, now: nat) {
    Within(r.attempts, now - l.window, now) == Within(r.accepted, now - l.window, now)
  }

  lemma TrySuffices(l: Limits, r: Run, t: nat, now: nat)
    requires Sorted(r.attempts, t) && Sorted(r.accepted, t) && Suffices(l, r, now) && t <= now
    ensures var r' := Try(l, r, t); Sorted(r'.attempts, t) && Sorted(r'.accepted, t) && Suffices(l, r', now)
  {
    hide Within, Evict;
    EvictKeepsWindow(r.attempts, t, now, l.window);
    WithinAppend(Evict(r.attempts, t, l.window), [t], now - l.window, now);
    WithinAppend(r.accepted, [t], now - l.window, now);
  }

  lemma {:induction false} MemorySuffices(l: Limits, times: seq<nat>, now: nat)
    requires Sorted(times, now)
    ensures var r := AfterTries(l, times); Sorted(r.attempts, now) && Sorted(r.accepted, now) && Suffices(l, r, now)
  {
    if times != [] {
      hide Suffices, Try;
      var n := |times| - 1;
      MemorySuffices(l, times[..n], times[n]);
      MemorySuffices(l, times[..n], now);
      TrySuffices(l, AfterTries(l, times[..n]), times[n], now);
    }
  }

  lemma OneMoreTry(l: Limits, times: seq<nat>, now: nat)
    ensures AfterTries(l, times + [now]) == Try(l, AfterTries(l, times), now)
  {
    assert (times + [now])[..|times|] == times;
  }

  /** An attempt goes through if and only if fewer than `max` accepted ones lie in the window before it. */
  lemma AcceptedIff(l: Limits, times: seq<nat>, now: nat)
    requires Sorted(times, now)
    ensures var before, after := AfterTries(l, times), AfterTries(l, times + [now]);
            after.accepted ==
              if Within(before.accepted, now - l.window, now) < l.max then before.accepted + [now] else before.accepted
  {
    hide Within, Evict, AfterTries, Sorted;
    OneMoreTry(l, times, now);
    MemorySuffices(l, times, now);
    EvictKeepsWindow(AfterTries(l, times).attempts, now, now, l.window);
  }

  /** Over any run, no closed interval as long as the window holds more than `max` accepted attempts. */
  lemma {:induction false} WindowHoldsAtMostMax(l: Limits, times: seq<nat>, end: nat, from: int)
    requires Sorted(times, end)
    ensures Within(AfterTries(l, times).accepted, from, from + l.window) <= l.max
  {
    if times != [] {
      var n := |times| - 1;
      var front, now := times[..n], times[n];
      WindowHoldsAtMostMax(l, front, now, from);
      assert times == front + [now];
      OneMoreAccepted(l, front, now, from);
    }
  }

  lemma OneMoreAccepted(l: Limits, times: seq<nat>, now: nat, from: int)
    requires Sorted(times, now) && Within(AfterTries(l, times).accepted, from, from + l.window) <= l.max
    ensures Within(AfterTries(l, times + [now]).accepted, from, from + l.window) <= l.max
  {
    hide AfterTries, Sorted;
    AcceptedIff(l, times, now);
    MemorySuffices(l, times, now);
    var accepted := AfterTries(l, times).accepted;
    WithinAppend(accepted, [now], from, from + l.window);
    if from <= now <= from + l.window {
      WithinMore(accepted, now, from, l.window);
    }
  }
}
