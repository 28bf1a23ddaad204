/** The sliding-window rate limiter, proved against the full history of its acceptances. */
module RateLimit {
  import opened Models

  /** The times within a closed interval. */
  function InWindow(ts: seq<Time>, lo: Time, hi: Time): seq<Time> {
    if ts == [] then []
    else if lo <= ts[0] <= hi then [ts[0]] + InWindow(ts[1..], lo, hi)
    else InWindow(ts[1..], lo, hi)
  }

  predicate Sorted(ts: seq<Time>) {
    forall i, j | 0 <= i < j < |ts| :: ts[i] <= ts[j]
  }

  /** No closed interval as long as the window, or shorter, holds more than the cap. */
  ghost predicate Capped(ts: seq<Time>, cap: int, window: Time) {
    forall a: Time, b: Time | b <= a + window :: |InWindow(ts, a, b)| <= Max(0, cap)
  }

  lemma {:induction false} InWindowConcat(xs: seq<Time>, ys: seq<Time>, lo: Time, hi: Time)
    ensures InWindow(xs + ys, lo, hi) == InWindow(xs, lo, hi) + InWindow(ys, lo, hi)
  {
    if xs == [] {
      assert xs + ys == ys;
    } else {
      var x, rest := xs[0], xs[1..];
      var head := if lo <= x <= hi then [x] else [];
      InWindowConcat(rest, ys, lo, hi);
      InWindowCons(x, rest + ys, lo, hi);
      InWindowCons(x, rest, lo, hi);
      assert xs + ys == [x] + (rest + ys) && xs == [x] + rest;
      Associate(head, InWindow(rest, lo, hi), InWindow(ys, lo, hi));
    }
  }

  lemma InWindowCons(x: Time, rest: seq<Time>, lo: Time, hi: Time)
    ensures InWindow([x] + rest, lo, hi) == (if lo <= x <= hi then [x] else []) + InWindow(rest, lo, hi)
  {
    assert ([x] + rest)[1..] == rest;
  }

  /** A window that covers another one's times holds at least as many. */
  lemma {:induction false} InWindowMonotone(ts: seq<Time>, a: Time, b: Time, lo: Time, hi: Time)
    requires forall i | 0 <= i < |ts| && a <= ts[i] <= b :: lo <= ts[i] <= hi
    ensures |InWindow(ts, a, b)| <= |InWindow(ts, lo, hi)|
  {
    if ts != [] {
      InWindowMonotone(ts[1..], a, b, lo, hi);
    }
  }

  lemma {:induction false} AllInWindow(ts: seq<Time>, lo: Time, hi: Time)
    requires forall i | 0 <= i < |ts| :: lo <= ts[i] <= hi
    ensures InWindow(ts, lo, hi) == ts
  {
    if ts != [] {
      AllInWindow(ts[1..], lo, hi);
    }
  }

  lemma {:induction false} NoneInWindow(ts: seq<Time>, lo: Time, hi: Time)
    requires forall i | 0 <= i < |ts| :: ts[i] < lo || hi < ts[i]
    ensures InWindow(ts, lo, hi) == []
  {
    if ts != [] {
      NoneInWindow(ts[1..], lo, hi);
    }
  }

  /** Accepting one more message while the window that ends now is below the cap keeps every
      window of that length capped, the ones that began earlier and the ones yet to end. */
  lemma AcceptKeepsCap(ts: seq<Time>, now: Time, cap: int, window: Time)
    requires window >= 0.0
    requires forall i | 0 <= i < |ts| :: ts[i] <= now
    requires Capped(ts, cap, window) && |InWindow(ts, now - window, now)| < cap
    ensures Capped(ts + [now], cap, window)
  {
    forall a: Time, b: Time | b <= a + window
      ensures |InWindow(ts + [now], a, b)| <= Max(0, cap)
    {
      InWindowConcat(ts, [now], a, b);
      if a <= now <= b {
        InWindowMonotone(ts, a, b, now - window, now);
      } else {
        assert InWindow([now], a, b) == [];
      }
    }
  }

  /** One acceptance: who, and when. */
  datatype Acceptance = Acceptance(sender: string, at: Time)

  /** One sender's acceptance times, oldest first. */
  function TimesOf(history: seq<Acceptance>, sender: string): seq<Time> {
    if history == [] then []
    else if history[0].sender == sender then [history[0].at] + TimesOf(history[1..], sender)
    else TimesOf(history[1..], sender)
  }

  lemma {:induction false} TimesOfConcat(xs: seq<Acceptance>, ys: seq<Acceptance>, sender: string)
    ensures TimesOf(xs + ys, sender) == TimesOf(xs, sender) + TimesOf(ys, sender)
  {
    if xs == [] {
      assert xs + ys == ys;
    } else {
      TimesOfConcat(xs[1..], ys, sender);
      assert (xs + ys)[1..] == xs[1..] + ys;
    }
  }

  lemma TimesOfExtended(history: seq<Acceptance>, a: Acceptance, sender: string)
    ensures TimesOf(history + [a], sender)
      == if a.sender == sender then TimesOf(history, sender) + [a.at] else TimesOf(history, sender)
  {
    TimesOfConcat(history, [a], sender);
  }

  /** `kept` is the history `all` without a head that is already out of the window. */
  ghost predicate Tracks(all: seq<Time>, kept: seq<Time>, clock: Time, window: Time) {
    && |kept| <= |all| && kept == all[|all| - |kept|..]
    && Sorted(all)
    && (forall i | 0 <= i < |all| :: all[i] <= clock)
    && (forall i | 0 <= i < |all| - |kept| :: clock - all[i] > window)
  }

  /** Senders do not interact: an acceptance leaves every other sender's history alone. */
  lemma OthersUnaffected(history: seq<Acceptance>, a: Acceptance, sender: string)
    requires a.sender != sender
    ensures TimesOf(history + [a], sender) == TimesOf(history, sender)
  {
    TimesOfExtended(history, a, sender);
  }

  /** A sender without a name, or with as many acceptances as the cap in the closed window that
      ends now, is turned away. */
  predicate UsedUp(history: seq<Acceptance>, sender: string, now: Time, cap: int, window: Time) {
    sender == "" || Full(TimesOf(history, sender), now, cap, window)
  }

  predicate Full(times: seq<Time>, now: Time, cap: int, window: Time) {
    |InWindow(times, now - window, now)| >= cap
  }

  ghost predicate InOrder(all: seq<Time>, kept: seq<Time>, clock: Time, cap: int, window: Time) {
    Tracks(all, kept, clock, window) && Capped(all, cap, window)
  }

  function DequeOf(events: map<string, seq<Time>>, sender: string): seq<Time> {
    if sender in events then events[sender] else []
  }

  ghost predicate AllInOrder(events: map<string, seq<Time>>, history: seq<Acceptance>, clock: Time,
                             cap: int, window: Time) {
    forall s {:trigger TimesOf(history, s)} :: InOrder(TimesOf(history, s), DequeOf(events, s), clock, cap, window)
  }

  /** One sender's decision, and the passing of time, leave everybody in order. */
  lemma DecisionKeepsOrder(events: map<string, seq<Time>>, history: seq<Acceptance>, clock: Time,
                           cap: int, window: Time,
                           sender: string, now: Time, ok: bool, times: seq<Time>, kept: seq<Time>)
    requires AllInOrder(events, history, clock, cap, window) && clock <= now
    requires times == if ok then TimesOf(history, sender) + [now] else TimesOf(history, sender)
    requires InOrder(times, kept, now, cap, window)
    ensures var later := if ok then history + [Acceptance(sender, now)] else history;
      AllInOrder(events[sender := kept], later, now, cap, window)
  {
    var later := if ok then history + [Acceptance(sender, now)] else history;
    forall s
      ensures InOrder(TimesOf(later, s), DequeOf(events[sender := kept], s), now, cap, window)
    {
      TimesOfExtended(history, Acceptance(sender, now), s);
      if s != sender {
        TracksLater(TimesOf(history, s), DequeOf(events, s), clock, now, window);
      }
    }
  }

  class RateLimiter {
    const maxCommands: int
    const window: Time
    /** Per sender, the acceptance times still remembered, oldest first. */
    var events: map<string, seq<Time>>
    /** Every acceptance since construction, and the last clock reading. */
    ghost var accepted: seq<Acceptance>
    ghost var clock: Time

    ghost predicate Valid()
      reads this
    {
      window >= 0.0 && AllInOrder(events, accepted, clock, maxCommands, window)
    }

    constructor (maxCommands: int, window: Time, ghost start: Time)
      requires window >= 0.0
      ensures Valid() && accepted == [] && clock == start
      ensures this.maxCommands == maxCommands && this.window == window
    {
      this.maxCommands := maxCommands;
      this.window := window;
      events := map[];
      accepted := [];
      clock := start;
    }

    /** Accepts exactly when a named sender has fewer than the cap of acceptances within the
        closed window that ends now. Rejections leave the history alone. */
    method Allow(sender: string, now: Time) returns (ok: bool)
      requires Valid() && clock <= now
      modifies this
      ensures Valid() && clock == (if sender == "" then old(clock) else now)
      ensures ok <==> !UsedUp(old(accepted), sender, now, maxCommands, window)
      ensures accepted == if ok then old(accepted) + [Acceptance(sender, now)] else old(accepted)
    {
      if sender == "" {
        return false;
      }
      var kept;
      ghost var times := TimesOf(accepted, sender);
      ok, kept, times := Slide(DequeOf(events, sender), now, maxCommands, window, times, clock);
      DecisionKeepsOrder(events, accepted, clock, maxCommands, window, sender, now, ok, times, kept);
      events := events[sender := kept];
      accepted := if ok then accepted + [Acceptance(sender, now)] else accepted;
      clock := now;
    }
  }

  /** One sender's deque at `now`: drop what has left the window, then accept below the cap. */
  method Slide(deque: seq<Time>, now: Time, cap: int, window: Time, ghost all: seq<Time>, ghost clock: Time)
    returns (ok: bool, kept: seq<Time>, ghost times: seq<Time>)
    requires window >= 0.0 && clock <= now
    requires InOrder(all, deque, clock, cap, window)
    ensures ok == !Full(all, now, cap, window)
    ensures times == (if ok then all + [now] else all) && InOrder(times, kept, now, cap, window)
  {
    kept := deque;
    TracksLater(all, kept, clock, now, window);
    while kept != [] && now - kept[0] > window
      invariant Tracks(all, kept, now, window)
    {
      kept := kept[1..];
    }
    WindowIsTail(all, kept, now, window);
    ok := |kept| < cap;
    if ok {
      AcceptKeepsCap(all, now, cap, window);
      TracksAccept(all, kept, now, window);
      kept := kept + [now];
    }
    times := if ok then all + [now] else all;
  }

  lemma TracksLater(all: seq<Time>, kept: seq<Time>, clock: Time, now: Time, window: Time)
    requires Tracks(all, kept, clock, window) && clock <= now
    ensures Tracks(all, kept, now, window)
  {
  }

  lemma TracksAccept(all: seq<Time>, kept: seq<Time>, now: Time, window: Time)
    requires Tracks(all, kept, now, window)
    ensures Tracks(all + [now], kept + [now], now, window)
  {
  }

  /** In a sorted history, what is left after dropping the expired head is the current window. */
  lemma WindowIsTail(all: seq<Time>, kept: seq<Time>, now: Time, window: Time)
    requires Tracks(all, kept, now, window)
    requires kept != [] ==> now - kept[0] <= window
    ensures InWindow(all, now - window, now) == kept
  {
    var n := |all| - |kept|;
    TailIsInside(all, kept, now, window);
    AllInWindow(kept, now - window, now);
    HeadIsOutside(all, n, now, window);
    NoneInWindow(all[..n], now - window, now);
    InWindowSplit(all, n, now - window, now);
  }

  lemma InWindowSplit(ts: seq<Time>, n: nat, lo: Time, hi: Time)
    requires n <= |ts|
    ensures InWindow(ts, lo, hi) == InWindow(ts[..n], lo, hi) + InWindow(ts[n..], lo, hi)
  {
    InWindowConcat(ts[..n], ts[n..], lo, hi);
    assert ts[..n] + ts[n..] == ts;
  }

  lemma TailIsInside(all: seq<Time>, kept: seq<Time>, now: Time, window: Time)
    requires Tracks(all, kept, now, window)
    requires kept != [] ==> now - kept[0] <= window
    ensures forall i | 0 <= i < |kept| :: now - window <= kept[i] <= now
  {
    var n := |all| - |kept|;
    forall i | 0 <= i < |kept|
      ensures now - window <= kept[i] <= now
    {
      assert kept[0] == all[n] && kept[i] == all[n + i];
      assert i > 0 ==> all[n] <= all[n + i];
    }
  }

  lemma HeadIsOutside(all: seq<Time>, n: nat, now: Time, window: Time)
    requires n <= |all|
    requires forall i | 0 <= i < n :: now - all[i] > window
    ensures forall i | 0 <= i < n :: all[..n][i] < now - window
  {
  }
}
