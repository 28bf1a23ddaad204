/** The publisher of health events: changes are coalesced, sends may fail, and no change is lost.
    The loop's awaits divide it into atomic steps, which interleave with the mutators. */
module HealthEvents {
  import opened Models
  import Traces
  import opened BridgeHealth

  datatype Phase =
    | NotStarted
    | Waiting
    | Coalescing
    | Sending(shown: Fingerprint, forced: bool)
    | Stopped

  datatype Published = Published(shown: Fingerprint, forced: bool)

  /** `inFlight` counts mutators that have changed the state and not yet notified; `scheduled` are
      the notifications the event loop has yet to run; `log` is what was published. */
  datatype State = State(
    health: Health,
    inFlight: nat,
    scheduled: seq<bool>,
    changed: bool,
    critical: bool,
    published: Option<Fingerprint>,
    phase: Phase,
    log: seq<Published>
  )

  datatype Event =
    | Start
    | Mutate(m: Mutation)
    | Notify(critical: bool)
    | Mark
    | Wake(coalesces: bool)
    | Heartbeat
    | Coalesced
    | SendOk
    | SendFailed(at: Time)
    | Stop

  predicate Enabled(s: State, e: Event) {
    match e
    case Start => s.phase.NotStarted?
    case Mutate(_) => true
    case Notify(_) => s.inFlight > 0
    case Mark => s.scheduled != []
    case Wake(_) => s.phase.Waiting? && s.changed
    case Heartbeat => s.phase.Waiting?
    case Coalesced => s.phase.Coalescing?
    case SendOk => s.phase.Sending?
    case SendFailed(_) => s.phase.Sending?
    case Stop => true
  }

  /** Take the snapshot: send it if forced or if it differs from the last one published. */
  function Publish(s: State, force: bool): State {
    var shown := PrintOf(s.health);
    if !force && s.published == Some(shown) then s.(phase := Waiting) else s.(phase := Sending(shown, force))
  }

  function Next(s: State, e: Event): State
    requires Enabled(s, e)
  {
    match e
    case Start => s.(phase := Waiting, scheduled := s.scheduled + [true])
    case Mutate(m) => s.(health := Apply(s.health, m), inFlight := s.inFlight + 1)
    case Notify(critical) =>
      var t := s.(inFlight := s.inFlight - 1);
      if s.phase.NotStarted? || s.phase.Stopped? then t else t.(scheduled := s.scheduled + [critical])
    case Mark =>
      var t := s.(scheduled := s.scheduled[1..]);
      if s.phase.Stopped? then t else t.(changed := true, critical := s.critical || s.scheduled[0])
    case Wake(coalesces) =>
      var t := s.(changed := false, critical := false);
      if !s.critical && coalesces then t.(phase := Coalescing) else Publish(t, s.critical)
    case Heartbeat => Publish(s, true)
    case Coalesced => Publish(s.(changed := false), false)
    case SendOk =>
      s.(published := Some(s.phase.shown), phase := Waiting, log := s.log + [Published(s.phase.shown, s.phase.forced)])
    case SendFailed(at) =>
      var failed := Apply(s.health, RecordFailure("transport_error", at));
      s.(health := failed, scheduled := s.scheduled + [Critical(s.health, failed)], phase := Waiting)
    case Stop => s.(phase := Stopped, changed := true)
  }

  class HealthEventPublisher {
    const state: BridgeHealthState
    const coalesces: bool
    var inFlight: nat
    var scheduled: seq<bool>
    var changed: bool
    var critical: bool
    var published: Option<Fingerprint>
    var phase: Phase
    ghost var log: seq<Published>

    ghost function View(): State
      reads this, state
    {
      State(state.health, inFlight, scheduled, changed, critical, published, phase, log)
    }

    constructor (state: BridgeHealthState, coalesces: bool)
      ensures View() == Initial(state.health) && this.state == state && this.coalesces == coalesces
    {
      this.state, this.coalesces := state, coalesces;
      inFlight, scheduled, changed, critical := 0, [], false, false;
      published, phase, log := None, NotStarted, [];
    }

    method StartLoop()
      requires Enabled(View(), Start)
      modifies this
      ensures View() == Next(old(View()), Start)
    {
      phase := Waiting;
      NotifyLoop(true);
    }

    method NotifyLoop(critical: bool)
      modifies this`scheduled
      ensures scheduled == if phase.NotStarted? || phase.Stopped? then old(scheduled) else old(scheduled) + [critical]
    {
      if phase.NotStarted? || phase.Stopped? {
        return;
      }
      scheduled := scheduled + [critical];
    }

    /** A mutator changes the state; its notification comes later. */
    method Change(m: Mutation)
      requires Enabled(View(), Mutate(m))
      modifies this, state
      ensures View() == Next(old(View()), Mutate(m))
    {
      var isCritical := state.Change(m);
      inFlight := inFlight + 1;
    }

    method ChangeNotified(critical: bool)
      requires Enabled(View(), Notify(critical))
      modifies this
      ensures View() == Next(old(View()), Notify(critical))
    {
      inFlight := inFlight - 1;
      NotifyLoop(critical);
    }

    method StopLoop()
      requires Enabled(View(), Stop)
      modifies this
      ensures View() == Next(old(View()), Stop)
    {
      phase := Stopped;
      changed := true;
    }

    method MarkChanged()
      requires Enabled(View(), Mark)
      modifies this
      ensures View() == Next(old(View()), Mark)
    {
      var isCritical := scheduled[0];
      scheduled := scheduled[1..];
      if phase.Stopped? {
        return;
      }
      if isCritical {
        critical := true;
      }
      changed := true;
    }

    /** The wait ended because something changed. */
    method WakeUp()
      requires Enabled(View(), Wake(coalesces))
      modifies this
      ensures View() == Next(old(View()), Wake(coalesces))
    {
      changed := false;
      var isCritical := critical;
      critical := false;
      if !isCritical && coalesces {
        phase := Coalescing;
      } else {
        PublishIfNeeded(isCritical);
      }
    }

    method CoalescingElapsed()
      requires Enabled(View(), Coalesced)
      modifies this
      ensures View() == Next(old(View()), Coalesced)
    {
      changed := false;
      PublishIfNeeded(false);
    }

    /** The wait timed out. */
    method HeartbeatElapsed()
      requires Enabled(View(), Heartbeat)
      modifies this
      ensures View() == Next(old(View()), Heartbeat)
    {
      PublishIfNeeded(true);
    }

    method PublishIfNeeded(force: bool)
      modifies this`phase
      ensures View() == Publish(old(View()), force)
    {
      var shown := PrintOf(state.health);
      if !force && Some(shown) == published {
        phase := Waiting;
        return;
      }
      phase := Sending(shown, force);
    }

    method SendSucceeded()
      requires Enabled(View(), SendOk)
      modifies this
      ensures View() == Next(old(View()), SendOk)
    {
      log := log + [Published(phase.shown, phase.forced)];
      published := Some(phase.shown);
      phase := Waiting;
    }

    method SendFailedAt(at: Time)
      requires Enabled(View(), SendFailed(at))
      modifies this, state
      ensures View() == Next(old(View()), SendFailed(at))
    {
      var isCritical := state.Change(RecordFailure("transport_error", at));
      phase := Waiting;
      NotifyLoop(isCritical);
    }

    /** What other tasks and threads do while the loop awaits; what cannot happen is skipped. */
    method Interleave(others: seq<Event>, ghost before: State, ghost soFar: seq<Event>)
      returns (ghost events: seq<Event>)
      requires Reached(before, soFar, View())
      modifies this, state
      ensures Reached(before, events, View())
      ensures phase == old(phase) || phase.Stopped?
      ensures others == [] ==> View() == old(View())
    {
      events := soFar;
      var i := 0;
      while i < |others|
        invariant i <= |others| && Reached(before, events, View())
        invariant phase == old(phase) || phase.Stopped?
        invariant others == [] ==> View() == old(View())
      {
        var e := others[i];
        if IsOther(e) && (e.Mark? ==> scheduled != []) && (e.Notify? ==> inFlight > 0) {
          events := Traces.Extend(Step, before, events, e, View());
          match e {
            case Mutate(m) => Change(m);
            case Notify(critical) => ChangeNotified(critical);
            case Mark => MarkChanged();
            case Stop => StopLoop();
          }
        }
        i := i + 1;
      }
    }

    /** The loop, turn by turn: wait for a change or the heartbeat, coalesce, publish what has to be
        published. Whatever happens at its awaits, it runs through a trace of the model's steps, and
        so loses nothing and repeats nothing. After a turn in which nobody interferes once the wait
        is over, and the send, if any, succeeds, the current state is the published one. */
    method Run(turns: seq<Turn>) returns (ghost events: seq<Event>)
      requires phase.Waiting? && NothingLost(View()) && NoRepeats(View())
      modifies this, state
      ensures Reached(old(View()), events, View())
      ensures NothingLost(View()) && NoRepeats(View())
      ensures phase.Waiting? && turns != [] && Calm(turns[|turns| - 1]) ==> UpToDate(View())
    {
      ghost var before := View();
      events := [];
      var i := 0;
      while i < |turns| && !phase.Stopped?
        invariant i <= |turns| && (phase.Waiting? || phase.Stopped?)
        invariant phase.Waiting? && i > 0 && Calm(turns[i - 1]) ==> UpToDate(View())
        invariant Reached(before, events, View())
      {
        events := RunTurn(turns[i], before, events);
        i := i + 1;
      }
      RunsLoseNothing(before, events);
    }

    method RunTurn(turn: Turn, ghost before: State, ghost soFar: seq<Event>) returns (ghost events: seq<Event>)
      requires phase.Waiting? && Reached(before, soFar, View())
      modifies this, state
      ensures Reached(before, events, View())
      ensures phase.Waiting? || phase.Stopped?
      ensures phase.Waiting? && Calm(turn) ==> UpToDate(View())
    {
      events := Interleave(turn.waiting, before, soFar);
      if phase.Stopped? {
        return;
      }
      if changed && !turn.timesOut {
        events := Traces.Extend(Step, before, events, Wake(coalesces), View());
        WakeUp();
      } else {
        events := Traces.Extend(Step, before, events, Heartbeat, View());
        HeartbeatElapsed();
      }
      events := FinishTurn(turn, before, events);
    }

    /** What is left of a turn once the wait is over. */
    method FinishTurn(turn: Turn, ghost before: State, ghost soFar: seq<Event>) returns (ghost events: seq<Event>)
      requires Reached(before, soFar, View()) && Woken()
      modifies this, state
      ensures Reached(before, events, View())
      ensures phase.Waiting? || phase.Stopped?
      ensures phase.Waiting? && Calm(turn) ==> UpToDate(View())
    {
      events := soFar;
      if phase.Coalescing? {
        events := Interleave(turn.pausing, before, events);
        if phase.Stopped? {
          return;
        }
        events := Traces.Extend(Step, before, events, Coalesced, View());
        CoalescingElapsed();
      }
      if phase.Sending? {
        events := AwaitSend(turn, before, events);
      }
    }

    /** The wait is over: the loop coalesces, or sends the current state, or has no need to. */
    ghost predicate Woken()
      reads this, state
    {
      match phase
      case Waiting => published == Some(PrintOf(state.health))
      case Coalescing => true
      case Sending(shown, _) => shown == PrintOf(state.health)
      case _ => false
    }

    method AwaitSend(turn: Turn, ghost before: State, ghost soFar: seq<Event>) returns (ghost events: seq<Event>)
      requires phase.Sending? && Reached(before, soFar, View())
      modifies this, state
      ensures Reached(before, events, View())
      ensures phase.Waiting? || phase.Stopped?
      ensures phase.Waiting? && Calm(turn) && old(phase).shown == PrintOf(old(state.health)) ==> UpToDate(View())
    {
      events := Interleave(turn.sending, before, soFar);
      if phase.Stopped? {
        return;
      }
      events := Traces.Extend(Step, before, events, if turn.sent then SendOk else SendFailed(turn.at), View());
      if turn.sent {
        SendSucceeded();
      } else {
        SendFailedAt(turn.at);
      }
    }
  }

  /** One turn of the loop: what others do at each of its awaits, whether the wait times out, and how
      a send ends. */
  datatype Turn = Turn(
    waiting: seq<Event>, timesOut: bool, pausing: seq<Event>, sending: seq<Event>, sent: bool, at: Time)

  /** Nobody interferes after the wait, and a send succeeds. */
  predicate Calm(turn: Turn) {
    turn.pausing == [] && turn.sending == [] && turn.sent
  }

  predicate IsOther(e: Event) {
    e.Mutate? || e.Notify? || e.Mark? || e.Stop?
  }

  function Initial(h: Health): State {
    State(h, 0, [], false, false, None, NotStarted, [])
  }

  function Step(s: State, e: Event): Option<State> {
    if Enabled(s, e) then Some(Next(s, e)) else None
  }

  ghost predicate Trace(s: State, events: seq<Event>) {
    Traces.Trace(Step, s, events)
  }

  function End(s: State, events: seq<Event>): State
    requires Trace(s, events)
  {
    Traces.End(Step, s, events)
  }

  ghost predicate Reached(before: State, events: seq<Event>, s: State) {
    Traces.Reached(Step, before, events, s)
  }

  /** Something will still make the loop look at the state again. */
  predicate Outstanding(s: State) {
    s.changed || s.scheduled != [] || s.inFlight > 0
  }

  /** No update is lost: the loop waits or sends only with the current state published or being
      sent, or with a wake-up outstanding. */
  predicate NothingLost(s: State) {
    match s.phase
    case Waiting => s.published == Some(PrintOf(s.health)) || Outstanding(s)
    case Sending(shown, _) => shown == PrintOf(s.health) || Outstanding(s)
    case _ => true
  }

  /** The last success is remembered, and whatever was published unforced differs from what was
      published before it. */
  predicate NoRepeats(s: State) {
    && s.published == (if s.log == [] then None else Some(s.log[|s.log| - 1].shown))
    && (s.phase.Sending? && !s.phase.forced ==> s.published != Some(s.phase.shown))
    && forall i | 0 < i < |s.log| && !s.log[i].forced :: s.log[i].shown != s.log[i - 1].shown
  }

  lemma StepLosesNothing(s: State, e: Event)
    requires NothingLost(s) && Enabled(s, e)
    ensures NothingLost(Next(s, e))
  {
  }

  lemma StepRepeatsNothing(s: State, e: Event)
    requires NoRepeats(s) && Enabled(s, e)
    ensures NoRepeats(Next(s, e))
  {
    if !e.SendOk? {
      assert Next(s, e).log == s.log && Next(s, e).published == s.published;
    }
  }

  /** In every interleaving of mutators, notifications, marks, coalescing, heartbeats and failed
      sends, no update is lost and no unforced publication repeats the one before. */
  lemma {:induction false} RunsLoseNothing(s: State, events: seq<Event>)
    requires NothingLost(s) && NoRepeats(s) && Trace(s, events)
    ensures NothingLost(End(s, events)) && NoRepeats(End(s, events))
    decreases |events|
  {
    if events != [] {
      StepLosesNothing(s, events[0]);
      StepRepeatsNothing(s, events[0]);
      RunsLoseNothing(Next(s, events[0]), events[1..]);
    }
  }

  /** In every run from the start nothing is lost and no unforced publication repeats the last. */
  lemma RunsFromStartLoseNothing(h: Health, events: seq<Event>)
    requires Trace(Initial(h), events)
    ensures NothingLost(End(Initial(h), events)) && NoRepeats(End(Initial(h), events))
  {
    RunsLoseNothing(Initial(h), events);
  }

  // Left alone, the loop catches up

  /** What the publisher does by itself when its sends succeed. */
  predicate IsOwn(e: Event) {
    e.Mark? || e.Wake? || e.Heartbeat? || e.Coalesced? || e.SendOk?
  }

  predicate Live(s: State) {
    !s.phase.NotStarted? && !s.phase.Stopped?
  }

  /** The current state has been published, and no older one is being sent. */
  predicate UpToDate(s: State) {
    s.published == Some(PrintOf(s.health)) && (s.phase.Sending? ==> s.phase.shown == PrintOf(s.health))
  }

  /** How many of its own steps a live publisher takes at most until it is up to date. */
  function Rank(s: State): nat {
    |s.scheduled| +
    match s.phase
    case Sending(shown, _) => if shown == PrintOf(s.health) then 1 else 4
    case Coalescing => 2
    case _ => 3
  }

  lemma OwnStepCatchesUp(s: State, e: Event)
    requires Live(s) && IsOwn(e) && Enabled(s, e)
    ensures Live(Next(s, e)) && Next(s, e).health == s.health
    ensures UpToDate(Next(s, e)) || (!UpToDate(s) && Rank(Next(s, e)) < Rank(s))
  {
  }

  /** Some step of its own is always possible. */
  lemma LiveIsNeverStuck(s: State) returns (e: Event)
    requires Live(s)
    ensures IsOwn(e) && Enabled(s, e)
  {
    e := match s.phase
      case Coalescing => Coalesced
      case Sending(_, _) => SendOk
      case _ => Heartbeat;
  }

  /** Left alone with sends that succeed, the publisher has published the current state after at
      most `Rank` steps, in whatever order it takes them, and it stays published. */
  lemma {:induction false} QuietLoopCatchesUp(s: State, events: seq<Event>)
    requires Live(s) && Trace(s, events)
    requires forall i | 0 <= i < |events| :: IsOwn(events[i])
    requires UpToDate(s) || Rank(s) <= |events|
    ensures End(s, events).health == s.health && UpToDate(End(s, events))
    decreases |events|
  {
    if events != [] {
      OwnStepCatchesUp(s, events[0]);
      QuietLoopCatchesUp(Next(s, events[0]), events[1..]);
    }
  }
}
