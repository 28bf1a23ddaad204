/** Polling Telegram: updates are classified as new or seen, acted on, and only then is the offset
    persisted; the process may stop between any two of these steps and restart. */
module UpdatePolling {
  import opened Models
  import opened TelegramStore
  import Migration
  import Traces

  /** Where the poll loop stands. Everything here is lost when the process stops. */
  datatype Phase =
    | Idle
    | Batch(queue: seq<int>)
    | Accepted(id: int, acceptedAt: Time, queue: seq<int>)
    | Handled(id: int, queue: seq<int>)

  datatype Stamp = Stamp(id: int, at: Time)

  /** A side effect: of which update, when that update was accepted as new, and when it happened. */
  datatype Effect = Effect(id: int, acceptedAt: Time, at: Time)

  /** The store survives a crash; `accepted` and `effects` are the history of the world. */
  datatype State = State(store: Tables, clock: Time, phase: Phase, accepted: seq<Stamp>, effects: seq<Effect>)

  datatype Event =
    | Deliver(ids: seq<int>)
    | Check(now: Time, fails: bool)
    | Act(now: Time)
    | Quiet
    | Persist(fails: bool)
    | EndBatch
    | Abort
    | Crash(source: Tables)

  function LastId(t: Tables): Option<int> {
    if "last_update_id" in t.state then Some(t.state["last_update_id"]) else None
  }

  predicate Enabled(s: State, e: Event) {
    match e
    case Deliver(_) => s.phase.Idle?
    case Check(now, _) => s.phase.Batch? && s.phase.queue != [] && s.clock <= now
    case Act(now) => s.phase.Accepted? && s.clock <= now
    case Quiet => s.phase.Accepted?
    case Persist(_) => s.phase.Handled?
    case EndBatch => s.phase == Batch([])
    case Abort => true
    case Crash(_) => true
  }

  /** What the store answers when asked about an update. */
  function SeenAnswer(t: Tables, u: int, now: Time, fails: bool): Answer {
    if fails then StorageError else Seen(u in LiveUpdates(t.updates, now))
  }

  function Next(s: State, e: Event): State
    requires Enabled(s, e)
  {
    match e
    case Deliver(ids) => s.(phase := Batch(ids))
    case Check(now, fails) =>
      var u, rest := s.phase.queue[0], s.phase.queue[1..];
      var answer := SeenAnswer(s.store, u, now, fails);
      var t := s.(store := After(s.store, now, SeenUpdate(u), answer), clock := now);
      if answer == Seen(false) then t.(phase := Accepted(u, now, rest), accepted := s.accepted + [Stamp(u, now)])
      else t.(phase := Handled(u, rest))
    case Act(now) =>
      s.(clock := now, phase := Handled(s.phase.id, s.phase.queue),
         effects := s.effects + [Effect(s.phase.id, s.phase.acceptedAt, now)])
    case Quiet => s.(phase := Handled(s.phase.id, s.phase.queue))
    case Persist(fails) =>
      var t := s.(phase := Batch(s.phase.queue));
      if fails then t else t.(store := s.store.(state := s.store.state["last_update_id" := s.phase.id]))
    case EndBatch => s.(phase := Idle)
    case Abort => s.(phase := Idle)
    case Crash(source) => s.(phase := Idle, store := Migration.Replay(source, s.store))
  }

  function Step(s: State, e: Event): Option<State> {
    if Enabled(s, e) then Some(Next(s, e)) else None
  }

  ghost predicate Trace(s: State, events: seq<Event>) {
    Traces.Trace(Step, s, events)
  }

  function End(s: State, events: seq<Event>): State
    requires Trace(s, events)
  {
    Traces.End(Step, s, events)
  }

  ghost predicate Reached(before: State, events: seq<Event>, s: State) {
    Traces.Reached(Step, before, events, s)
  }

  function Start(store: Tables, clock: Time): State {
    State(store, clock, Idle, [], [])
  }

  class UpdatePoller {
    const store: TelegramStore
    var phase: Phase
    ghost var clock: Time
    ghost var accepted: seq<Stamp>
    ghost var effects: seq<Effect>

    ghost function View(): State
      reads this, store
    {
      State(store.Contents(), clock, phase, accepted, effects)
    }

    constructor (store: TelegramStore, ghost start: Time)
      ensures View() == Start(store.Contents(), start) && this.store == store
    {
      this.store := store;
      phase := Idle;
      clock, accepted, effects := start, [], [];
    }

    method CheckUpdate(now: Time, fails: bool)
      requires Enabled(View(), Check(now, fails))
      modifies this, store
      ensures View() == Next(old(View()), Check(now, fails))
    {
      var updateId, rest := phase.queue[0], phase.queue[1..];
      var answer := store.SeenOrStoreUpdate(updateId, now, fails);
      clock := now;
      if answer.StorageError? || answer.seen {
        phase := Handled(updateId, rest);
      } else {
        phase := Accepted(updateId, now, rest);
        accepted := accepted + [Stamp(updateId, now)];
      }
    }

    /** The side effect of an accepted update, when it has one. */
    method ActOnUpdate(acts: bool, now: Time)
      requires Enabled(View(), Act(now))
      modifies this
      ensures View() == Next(old(View()), if acts then Act(now) else Quiet)
    {
      if acts {
        effects := effects + [Effect(phase.id, phase.acceptedAt, now)];
        clock := now;
      }
      phase := Handled(phase.id, phase.queue);
    }

    method PersistOffset(fails: bool)
      requires Enabled(View(), Persist(fails))
      modifies this, store
      ensures View() == Next(old(View()), Persist(fails))
    {
      var answer := store.PersistLastUpdateId(phase.id, fails);
      phase := Batch(phase.queue);
    }

    /** One poll. It asks the server for what follows the stored offset, and every delivered update
        in turn is checked, acted on if it is new, and has the offset persisted, until an error that
        is not caught ends the poll between two of these steps. Storage errors skip one step and
        nothing else. The offset is then the last id whose persist was reached and did not fail;
        after a poll without errors it is the last id delivered. With a server that honours the
        request the poll is a well-served trace, and does not lower the offset. */
    method PollOnce(server: Option<int> -> seq<int>, world: nat -> World) returns (ghost events: seq<Event>)
      requires phase == Idle
      requires ClockAdvances(world, clock)
      modifies this, store
      ensures Reached(old(View()), events, View()) && phase == Idle && ClockWithin(world, old(clock), clock)
      ensures LastId(store.Contents()) == PolledOffset(server, world, LastId(old(store.Contents())))
      ensures Honours(server) ==> WellServed(old(View()), events)
      ensures Honours(server) ==> NotLowered(LastId(old(store.Contents())), LastId(store.Contents()))
    {
      ghost var before := View();
      var ids := GetUpdates(server);
      Delivered(before, ids);
      phase := Batch(ids);
      var broken;
      broken, events := ProcessBatch(ids, world, before, [Deliver(ids)]);
      if !broken {
        events := Extend(before, events, EndBatch, View());
        phase := Idle;
      }
      if Honours(server) {
        OffsetNeverDecreases(before, events);
      }
    }

    method GetUpdates(server: Option<int> -> seq<int>) returns (ids: seq<int>)
      ensures ids == server(Following(LastId(store.Contents())))
    {
      var last := store.LastUpdateId();
      ids := server(if last.Some? then Some(last.value + 1) else None);
    }

    method ProcessBatch(ids: seq<int>, world: nat -> World, ghost before: State, ghost soFar: seq<Event>)
      returns (broken: bool, ghost events: seq<Event>)
      requires phase == Batch(ids) && ClockAdvances(world, clock)
      requires Reached(before, soFar, View())
      modifies this, store
      ensures phase == (if broken then Idle else Batch([])) && ClockWithin(world, old(clock), clock)
      ensures LastId(store.Contents())
        == Offset(ids, world, Finished(|ids|, world, 0), LastId(old(store.Contents())))
      ensures Reached(before, events, View())
      ensures WellServed(before, soFar) ==> WellServed(before, events)
    {
      broken, events := false, soFar;
      var i := 0;
      while i < |ids| && !broken
        invariant i <= |ids| && phase == if broken then Idle else Batch(ids[i..])
        invariant Reached(before, events, View())
        invariant WellServed(before, soFar) ==> WellServed(before, events)
        invariant clock == old(clock) || (i > 0 && clock <= world(i - 1).actedAt)
        invariant broken ==> i > 0 && Finished(|ids|, world, 0) == i - 1
        invariant !broken ==> Finished(|ids|, world, 0) == Finished(|ids|, world, i)
        invariant LastId(store.Contents())
          == Offset(ids, world, if broken then i - 1 else i, LastId(old(store.Contents())))
      {
        broken, events := ProcessUpdate(world(i), before, events);
        i := i + 1;
      }
    }

    /** One delivered update: check, act, persist. It is accepted exactly if the check does not fail
        and no live row of it is stored, and then acts if the poll gets that far; in the end the
        offset is this id if the poll got there and the write did not fail. */
    method ProcessUpdate(w: World, ghost before: State, ghost soFar: seq<Event>)
      returns (broken: bool, ghost events: seq<Event>)
      requires phase.Batch? && phase.queue != [] && clock <= w.checkedAt <= w.actedAt
      requires Reached(before, soFar, View())
      modifies this, store
      ensures phase == (if broken then Idle else Batch(old(phase.queue)[1..])) && clock <= w.actedAt
      ensures broken == !w.breaks.Never?
      ensures var id := old(phase.queue)[0];
        var isNew := !w.checkFails && id !in LiveUpdates(old(store.updates), w.checkedAt);
        && accepted == old(accepted) + (if isNew then [Stamp(id, w.checkedAt)] else [])
        && effects == old(effects)
          + (if isNew && w.acts && !w.breaks.AfterCheck? then [Effect(id, w.checkedAt, w.actedAt)] else [])
        && LastId(store.Contents())
          == if w.breaks.Never? && !w.persistFails then Some(id) else LastId(old(store.Contents()))
      ensures Reached(before, events, View())
      ensures WellServed(before, soFar) ==> WellServed(before, events)
    {
      events := Extend(before, soFar, Check(w.checkedAt, w.checkFails), View());
      CheckUpdate(w.checkedAt, w.checkFails);
      broken := w.breaks.AfterCheck?;
      if !broken && phase.Accepted? {
        events := Extend(before, events, if w.acts then Act(w.actedAt) else Quiet, View());
        ActOnUpdate(w.acts, w.actedAt);
      }
      broken := !w.breaks.Never?;
      if broken {
        events := Extend(before, events, Abort, View());
        phase := Idle;
      } else {
        events := Extend(before, events, Persist(w.persistFails), View());
        PersistOffset(w.persistFails);
      }
    }

    /** The process stops and starts again, with its start-up migration. */
    method Restart(source: Tables)
      modifies this, store
      ensures View() == Next(old(View()), Crash(source))
    {
      phase := Idle;
      Migration.MigrateTelegramTables(source, store, false);
    }

    /** Poll after poll, with restarts between some of them: one trace, to which the theorems about
        runs apply. With servers that honour their requests it is well served, and the offset is
        never lowered. */
    method Run(polls: seq<Poll>) returns (ghost events: seq<Event>)
      requires phase == Idle && InTime(polls, clock)
      modifies this, store
      ensures Reached(old(View()), events, View()) && phase == Idle
      ensures LastId(store.Contents()) == OffsetAfter(polls, |polls|, LastId(old(store.Contents())))
      ensures AllHonour(polls) ==> WellServed(old(View()), events)
      ensures AllHonour(polls) ==> NotLowered(LastId(old(store.Contents())), LastId(store.Contents()))
    {
      ghost var before := View();
      events := [];
      var i := 0;
      while i < |polls|
        invariant i <= |polls| && phase == Idle
        invariant Reached(before, events, View())
        invariant LastId(store.Contents()) == OffsetAfter(polls, i, LastId(before.store))
        invariant AllHonour(polls) ==> WellServed(before, events)
        invariant forall k | i <= k < |polls| :: ClockAdvances(polls[k].world, clock)
      {
        events := PollNext(polls, i, before, events);
        i := i + 1;
      }
      if AllHonour(polls) {
        OffsetNeverDecreases(before, events);
      }
    }

    method PollNext(polls: seq<Poll>, i: nat, ghost before: State, ghost soFar: seq<Event>)
      returns (ghost events: seq<Event>)
      requires phase == Idle && InTime(polls, before.clock) && i < |polls|
      requires forall k | i <= k < |polls| :: ClockAdvances(polls[k].world, clock)
      requires Reached(before, soFar, View())
      requires LastId(store.Contents()) == OffsetAfter(polls, i, LastId(before.store))
      modifies this, store
      ensures phase == Idle && forall k | i < k < |polls| :: ClockAdvances(polls[k].world, clock)
      ensures Reached(before, events, View())
      ensures LastId(store.Contents()) == OffsetAfter(polls, i + 1, LastId(before.store))
      ensures AllHonour(polls) && WellServed(before, soFar) ==> WellServed(before, events)
    {
      ghost var was := clock;
      events := PollAndRestart(polls[i], before, soFar);
      ClockStaysBehind(polls, before.clock, i, was, clock);
    }

    method PollAndRestart(poll: Poll, ghost before: State, ghost soFar: seq<Event>) returns (ghost events: seq<Event>)
      requires phase == Idle && ClockAdvances(poll.world, clock) && Reached(before, soFar, View())
      modifies this, store
      ensures phase == Idle && ClockWithin(poll.world, old(clock), clock)
      ensures LastId(store.Contents()) == PollOffset(poll, LastId(old(store.Contents())))
      ensures Reached(before, events, View())
      ensures Honours(poll.server) && WellServed(before, soFar) ==> WellServed(before, events)
    {
      ghost var between := View();
      ghost var more := PollOnce(poll.server, poll.world);
      Traces.Join(Step, before, soFar, between, more, View());
      events := soFar + more;
      if Honours(poll.server) && WellServed(before, soFar) {
        ServedJoin(before, soFar, between, more);
      }
      if poll.restart.Some? {
        events := Extend(before, events, Crash(poll.restart.value), View());
        Restart(poll.restart.value);
      }
    }
  }

  /** One poll: the server, the world, and the source of the migration if the process restarts after
      it. */
  datatype Poll = Poll(server: Option<int> -> seq<int>, world: nat -> World, restart: Option<Tables>)

  // What becomes of the offset, told from what is delivered and what fails

  /** What a poll asks for: everything, or what follows the stored offset. */
  function Following(last: Option<int>): Option<int> {
    if last.Some? then Some(last.value + 1) else None
  }

  /** How many updates get through all their steps: all, or those before the first break. */
  function Finished(count: nat, world: nat -> World, i: nat): nat
    requires i <= count
    decreases count - i
  {
    if i == count || !world(i).breaks.Never? then i else Finished(count, world, i + 1)
  }

  /** The last of the first `n` ids whose persist does not fail, or else the offset before. */
  function Offset(ids: seq<int>, world: nat -> World, n: nat, last: Option<int>): Option<int> {
    if n == 0 || n > |ids| then last
    else if !world(n - 1).persistFails then Some(ids[n - 1])
    else Offset(ids, world, n - 1, last)
  }

  function PolledOffset(server: Option<int> -> seq<int>, world: nat -> World, last: Option<int>): Option<int> {
    var ids := server(Following(last));
    Offset(ids, world, Finished(|ids|, world, 0), last)
  }

  /** The persist of this update is reached: neither it nor any update before it breaks off. */
  predicate PersistReached(world: nat -> World, j: nat) {
    forall i: nat | i <= j :: world(i).breaks.Never?
  }

  lemma {:induction false} FinishedIs(count: nat, world: nat -> World, i: nat)
    requires i <= count && forall j: nat | j < i :: world(j).breaks.Never?
    ensures i <= Finished(count, world, i) <= count
    ensures forall j: nat :: j < Finished(count, world, i) <==> j < count && PersistReached(world, j)
    decreases count - i
  {
    if i < count && world(i).breaks.Never? {
      FinishedIs(count, world, i + 1);
    }
  }

  lemma {:induction false} OffsetIs(ids: seq<int>, world: nat -> World, n: nat, last: Option<int>, j: nat)
    requires n <= |ids| && j < n && !world(j).persistFails
    requires forall k: nat | j < k < n :: world(k).persistFails
    ensures Offset(ids, world, n, last) == Some(ids[j])
  {
    if j < n - 1 {
      OffsetIs(ids, world, n - 1, last, j);
    }
  }

  lemma {:induction false} OffsetStays(ids: seq<int>, world: nat -> World, n: nat, last: Option<int>)
    requires n <= |ids| && forall k: nat | k < n :: world(k).persistFails
    ensures Offset(ids, world, n, last) == last
  {
    if n > 0 {
      OffsetStays(ids, world, n - 1, last);
    }
  }

  /** The offset after a poll is the last delivered id whose persist is reached and does not fail,
      and the offset before if there is none. */
  lemma PolledOffsetIsLastPersisted(server: Option<int> -> seq<int>, world: nat -> World, last: Option<int>)
    ensures var ids := server(Following(last));
      && (forall j: nat | LastPersisted(|ids|, world, j) :: PolledOffset(server, world, last) == Some(ids[j]))
      && ((forall j: nat | j < |ids| && PersistReached(world, j) :: world(j).persistFails) ==>
            PolledOffset(server, world, last) == last)
  {
    var ids := server(Following(last));
    var n := Finished(|ids|, world, 0);
    FinishedIs(|ids|, world, 0);
    forall j: nat | LastPersisted(|ids|, world, j)
      ensures PolledOffset(server, world, last) == Some(ids[j])
    {
      OffsetIs(ids, world, n, last, j);
    }
    if forall j: nat | j < |ids| && PersistReached(world, j) :: world(j).persistFails {
      OffsetStays(ids, world, n, last);
    }
  }

  predicate LastPersisted(count: nat, world: nat -> World, j: nat) {
    && j < count && PersistReached(world, j) && !world(j).persistFails
    && forall k: nat | j < k < count && PersistReached(world, k) :: world(k).persistFails
  }

  /** After a poll in which nothing breaks off and no persist fails, the offset is the last id that
      was delivered, and the next poll asks for the one after it. */
  lemma SmoothPollMovesOn(server: Option<int> -> seq<int>, world: nat -> World, last: Option<int>)
    requires var ids := server(Following(last));
      ids != [] && forall i: nat | i < |ids| :: world(i).breaks.Never? && !world(i).persistFails
    ensures var ids := server(Following(last));
      && PolledOffset(server, world, last) == Some(ids[|ids| - 1])
      && Following(PolledOffset(server, world, last)) == Some(ids[|ids| - 1] + 1)
  {
    var ids := server(Following(last));
    assert PersistReached(world, |ids| - 1);
    assert LastPersisted(|ids|, world, |ids| - 1);
    PolledOffsetIsLastPersisted(server, world, last);
  }

  /** The offset after one poll and the restart that may follow it. */
  function PollOffset(poll: Poll, last: Option<int>): Option<int> {
    var after := PolledOffset(poll.server, poll.world, last);
    if after.None? && poll.restart.Some? then LastId(poll.restart.value) else after
  }

  function OffsetAfter(polls: seq<Poll>, n: nat, last: Option<int>): Option<int>
    requires n <= |polls|
  {
    if n == 0 then last else PollOffset(polls[n - 1], OffsetAfter(polls, n - 1, last))
  }

  ghost predicate AllHonour(polls: seq<Poll>) {
    forall i | 0 <= i < |polls| :: Honours(polls[i].server)
  }

  /** The polls come one after the other, none before the clock. */
  ghost predicate InTime(polls: seq<Poll>, clock: Time) {
    && (forall i | 0 <= i < |polls| :: ClockAdvances(polls[i].world, clock))
    && (forall i, j | 0 <= i < j < |polls| :: Before(polls[i].world, polls[j].world))
  }

  ghost predicate Before(first: nat -> World, second: nat -> World) {
    forall m: nat, n: nat :: first(m).actedAt <= second(n).checkedAt
  }

  lemma ClockStaysBehind(polls: seq<Poll>, start: Time, i: nat, before: Time, after: Time)
    requires InTime(polls, start) && i < |polls| && ClockWithin(polls[i].world, before, after)
    requires forall k | i <= k < |polls| :: ClockAdvances(polls[k].world, before)
    ensures forall k | i < k < |polls| :: ClockAdvances(polls[k].world, after)
  {
    forall k | i < k < |polls|
      ensures ClockAdvances(polls[k].world, after)
    {
      assert ClockAdvances(polls[k].world, before) && Before(polls[i].world, polls[k].world);
    }
  }

  /** The clock stands where it stood, or at some moment of this world. */
  ghost predicate ClockWithin(world: nat -> World, before: Time, after: Time) {
    after == before || exists i: nat :: after <= world(i).actedAt
  }

  /** Where an error ends the poll. */
  datatype Break = Never | AfterCheck | AfterAct

  /** What the world does while one update is processed. */
  datatype World = World(
    checkedAt: Time, checkFails: bool, acts: bool, actedAt: Time, breaks: Break, persistFails: bool)

  ghost predicate ClockAdvances(world: nat -> World, clock: Time) {
    && (forall i: nat :: clock <= world(i).checkedAt <= world(i).actedAt)
    && (forall i: nat, j: nat | i < j :: world(i).actedAt <= world(j).checkedAt)
  }

  /** A run goes on; unless it is a delivery, the next event leaves it as well served as it was. */
  lemma Extend(before: State, events: seq<Event>, e: Event, s: State) returns (longer: seq<Event>)
    requires Reached(before, events, s) && Enabled(s, e)
    ensures longer == events + [e] && Reached(before, longer, Next(s, e))
    ensures WellServed(before, events) && !e.Deliver? ==> WellServed(before, longer)
  {
    longer := Traces.Extend(Step, before, events, e, s);
    if !e.Deliver? && WellServed(before, events) {
      Traces.Single(Step, s, e);
      assert [e][1..] == [];
      ServedJoin(before, events, s, [e]);
    }
  }

  lemma {:induction false} ServedJoin(before: State, first: seq<Event>, between: State, second: seq<Event>)
    requires Reached(before, first, between) && WellServed(before, first)
    requires Trace(between, second) && WellServed(between, second)
    ensures Trace(before, first + second) && WellServed(before, first + second)
    decreases |first|
  {
    Traces.Join(Step, before, first, between, second, End(between, second));
    if first == [] {
      assert first + second == second;
    } else {
      ServedJoin(Next(before, first[0]), first[1..], between, second);
      assert (first + second)[0] == first[0] && (first + second)[1..] == first[1..] + second;
    }
  }

  // At most one effect per update and window, whatever the server, the storage and the crashes do

  ghost predicate AcceptedOnce(s: State) {
    && (forall i | 0 <= i < |s.accepted| :: s.accepted[i].at <= s.clock)
    && (forall i | 0 <= i < |s.accepted| && s.clock < s.accepted[i].at + UPDATE_WINDOW ::
          s.accepted[i].id in s.store.updates && s.accepted[i].at + UPDATE_WINDOW <= s.store.updates[s.accepted[i].id])
    && (forall i, j | 0 <= i < j < |s.accepted| && s.accepted[i].id == s.accepted[j].id ::
          s.accepted[i].at + UPDATE_WINDOW <= s.accepted[j].at)
  }

  ghost predicate EffectsOnce(s: State) {
    && (forall i | 0 <= i < |s.effects| ::
          Stamp(s.effects[i].id, s.effects[i].acceptedAt) in s.accepted
          && s.effects[i].acceptedAt <= s.effects[i].at <= s.clock)
    && (forall i, j | 0 <= i < j < |s.effects| && s.effects[i].id == s.effects[j].id ::
          s.effects[i].acceptedAt + UPDATE_WINDOW <= s.effects[j].acceptedAt)
    && (s.phase.Accepted? ==>
          && Stamp(s.phase.id, s.phase.acceptedAt) in s.accepted
          && forall i | 0 <= i < |s.effects| && s.effects[i].id == s.phase.id ::
               s.effects[i].acceptedAt + UPDATE_WINDOW <= s.phase.acceptedAt)
  }

  lemma StepKeepsAcceptedOnce(s: State, e: Event)
    requires AcceptedOnce(s) && Enabled(s, e)
    ensures AcceptedOnce(Next(s, e))
  {
  }

  lemma StepKeepsEffectsOnce(s: State, e: Event)
    requires AcceptedOnce(s) && EffectsOnce(s) && Enabled(s, e)
    ensures EffectsOnce(Next(s, e))
  {
    if e.Act? {
      ActKeepsEffectsOnce(s, e);
    } else {
      assert Next(s, e).effects == s.effects;
    }
  }

  lemma ActKeepsEffectsOnce(s: State, e: Event)
    requires AcceptedOnce(s) && EffectsOnce(s) && e.Act? && Enabled(s, e)
    ensures EffectsOnce(Next(s, e))
  {
  }

  lemma {:induction false} TraceKeepsOnce(s: State, events: seq<Event>)
    requires Trace(s, events) && AcceptedOnce(s) && EffectsOnce(s)
    ensures AcceptedOnce(End(s, events)) && EffectsOnce(End(s, events))
    decreases |events|
  {
    if events != [] {
      StepKeepsAcceptedOnce(s, events[0]);
      StepKeepsEffectsOnce(s, events[0]);
      TraceKeepsOnce(Next(s, events[0]), events[1..]);
    }
  }

  /** In every run, with crashes, restarts, aborted polls and storage errors anywhere, and whatever
      ids the server delivers, one update is accepted at most once per window: of two of its
      effects the later one follows the acceptance behind the earlier one by 3600 s or more. */
  lemma EffectsAreSpaced(store: Tables, clock: Time, events: seq<Event>, i: nat, j: nat)
    requires Trace(Start(store, clock), events)
    requires i < j < |End(Start(store, clock), events).effects|
    requires End(Start(store, clock), events).effects[i].id == End(Start(store, clock), events).effects[j].id
    ensures var effects := End(Start(store, clock), events).effects;
      && effects[i].acceptedAt + UPDATE_WINDOW <= effects[j].acceptedAt <= effects[j].at
      && effects[j].at - effects[i].at >= UPDATE_WINDOW - (effects[i].at - effects[i].acceptedAt)
  {
    TraceKeepsOnce(Start(store, clock), events);
  }

  /** The bound counts from the acceptance, and cannot count from the effect: for every delay up to
      the window, an effect that lags its acceptance by that much and a crash before the offset is
      persisted let a second effect follow the first by that much less than 3600 s. */
  lemma LagIsLost(delay: Time) returns (events: seq<Event>)
    requires 0.0 <= delay <= UPDATE_WINDOW
    ensures Trace(Start(EMPTY, 0.0), events)
    ensures var effects := End(Start(EMPTY, 0.0), events).effects;
      |effects| == 2 && effects[0].id == effects[1].id && effects[1].at - effects[0].at == UPDATE_WINDOW - delay
    ensures Prompt(End(Start(EMPTY, 0.0), events).effects, delay)
  {
    var t := Tables(map[], map[7 := UPDATE_WINDOW], map[]);
    var s0 := Start(EMPTY, 0.0);
    var s1 := s0.(phase := Batch([7]));
    var s2 := State(t, 0.0, Accepted(7, 0.0, []), [Stamp(7, 0.0)], []);
    var s3 := State(t, delay, Handled(7, []), [Stamp(7, 0.0)], [Effect(7, 0.0, delay)]);
    var s4 := s3.(phase := Idle);
    var s5 := s3.(phase := Batch([7]));
    assert LiveUpdates(EMPTY.updates, 0.0) == map[];
    assert After(EMPTY, 0.0, SeenUpdate(7), Seen(false)) == t;
    assert s1.phase.queue[1..] == [] && s0.accepted + [Stamp(7, 0.0)] == [Stamp(7, 0.0)];
    assert Next(s1, Check(0.0, false)) == s2;
    assert Migration.Replay(EMPTY, t) == t;
    assert Next(s3, Crash(EMPTY)) == s4;
    assert LiveUpdates(t.updates, UPDATE_WINDOW) == map[];
    var s6 := Next(s5, Check(UPDATE_WINDOW, false));
    assert s6.phase == Accepted(7, UPDATE_WINDOW, []);
    events := [];
    events := Extend(s0, events, Deliver([7]), s0);
    events := Extend(s0, events, Check(0.0, false), s1);
    events := Extend(s0, events, Act(delay), s2);
    events := Extend(s0, events, Crash(EMPTY), s3);
    events := Extend(s0, events, Deliver([7]), s4);
    events := Extend(s0, events, Check(UPDATE_WINDOW, false), s5);
    events := Extend(s0, events, Act(UPDATE_WINDOW), s6);
  }

  /** No effect comes later after its acceptance than this. */
  predicate Prompt(effects: seq<Effect>, lag: Time) {
    forall i | 0 <= i < |effects| :: effects[i].at - effects[i].acceptedAt <= lag
  }

  predicate Apart(effects: seq<Effect>, gap: Time) {
    forall i, j | 0 <= i < j < |effects| && effects[i].id == effects[j].id :: effects[j].at - effects[i].at >= gap
  }

  ghost predicate KeepsApart(store: Tables, clock: Time, events: seq<Event>, lag: Time, gap: Time) {
    Trace(Start(store, clock), events) && Prompt(End(Start(store, clock), events).effects, lag) ==>
      Apart(End(Start(store, clock), events).effects, gap)
  }

  /** When effects come at most `lag` seconds after their acceptance, effects of one update are
      guaranteed to be `gap` seconds apart exactly for gaps up to 3600 s less that lag; so 3600 s
      exactly when they come at once. */
  lemma SpacingExactly(lag: Time, gap: Time)
    requires 0.0 <= lag <= UPDATE_WINDOW
    ensures (forall store, clock, events :: KeepsApart(store, clock, events, lag, gap)) <==> gap <= UPDATE_WINDOW - lag
  {
    if gap <= UPDATE_WINDOW - lag {
      forall store, clock, events
        ensures KeepsApart(store, clock, events, lag, gap)
      {
        if Trace(Start(store, clock), events) {
          TraceKeepsOnce(Start(store, clock), events);
          LagBoundsGap(End(Start(store, clock), events), lag, gap);
        }
      }
    } else {
      var events := LagIsLost(lag);
      var effects := End(Start(EMPTY, 0.0), events).effects;
      assert effects[1].at - effects[0].at < gap && !Apart(effects, gap);
      assert !KeepsApart(EMPTY, 0.0, events, lag, gap);
    }
  }

  lemma LagBoundsGap(s: State, lag: Time, gap: Time)
    requires EffectsOnce(s) && gap <= UPDATE_WINDOW - lag
    ensures Prompt(s.effects, lag) ==> Apart(s.effects, gap)
  {
  }

  // The offset: with a server that delivers ascending ids from the requested offset on

  predicate Ascending(ids: seq<int>) {
    forall i, j | 0 <= i < j < |ids| :: ids[i] < ids[j]
  }

  predicate AllAbove(ids: seq<int>, bound: Option<int>) {
    bound.Some? ==> forall i | 0 <= i < |ids| :: bound.value < ids[i]
  }

  /** The ids still to be handled in this poll, the current one first. */
  function Open(phase: Phase): seq<int> {
    match phase
    case Idle => []
    case Batch(queue) => queue
    case Accepted(id, _, queue) => [id] + queue
    case Handled(id, queue) => [id] + queue
  }

  ghost predicate WellServed(s: State, events: seq<Event>)
    requires Trace(s, events)
    decreases |events|
  {
    events != [] ==>
      && (events[0].Deliver? ==> Ascending(events[0].ids) && AllAbove(events[0].ids, LastId(s.store)))
      && WellServed(Next(s, events[0]), events[1..])
  }

  /** The server delivers ascending ids, none below the one requested. */
  ghost predicate Honours(server: Option<int> -> seq<int>) {
    forall offset: Option<int> ::
      && Ascending(server(offset))
      && (offset.Some? ==> forall i | 0 <= i < |server(offset)| :: offset.value <= server(offset)[i])
  }

  lemma Delivered(s: State, ids: seq<int>)
    requires s.phase.Idle?
    ensures Trace(s, [Deliver(ids)]) && End(s, [Deliver(ids)]) == s.(phase := Batch(ids))
    ensures Ascending(ids) && AllAbove(ids, LastId(s.store)) ==> WellServed(s, [Deliver(ids)])
  {
    var events := [Deliver(ids)];
    Traces.Single(Step, s, Deliver(ids));
    assert events[1..] == [];
  }

  ghost predicate OffsetBelow(s: State) {
    Ascending(Open(s.phase)) && AllAbove(Open(s.phase), LastId(s.store))
  }

  /** An offset, once there, is never lowered. */
  predicate NotLowered(before: Option<int>, after: Option<int>) {
    before.Some? ==> after.Some? && before.value <= after.value
  }

  lemma StepKeepsOffset(s: State, e: Event)
    requires OffsetBelow(s) && Enabled(s, e)
    requires e.Deliver? ==> Ascending(e.ids) && AllAbove(e.ids, LastId(s.store))
    ensures OffsetBelow(Next(s, e)) && NotLowered(LastId(s.store), LastId(Next(s, e).store))
    ensures e.Act? && LastId(s.store).Some? ==> LastId(s.store).value < s.phase.id
  {
    var open, open' := Open(s.phase), Open(Next(s, e).phase);
    if s.phase.Accepted? || s.phase.Handled? {
      assert open[0] == s.phase.id;
    }
    if e.Check? {
      assert open' == open;
    } else if e.Persist? {
      assert open == [s.phase.id] + open';
      forall i | 0 <= i < |open'|
        ensures open[0] < open'[i]
      {
        assert open'[i] == open[i + 1];
      }
      assert forall i | 0 <= i < |open'| :: open'[i] == open[i + 1];
    } else if !e.Deliver? {
      assert open' == [] || open' == open;
    }
  }

  /** With such a server the stored offset never decreases, over any run and across crashes. */
  lemma {:induction false} OffsetNeverDecreases(s: State, events: seq<Event>)
    requires Trace(s, events) && WellServed(s, events) && OffsetBelow(s)
    ensures OffsetBelow(End(s, events)) && NotLowered(LastId(s.store), LastId(End(s, events).store))
    decreases |events|
  {
    if events != [] {
      StepKeepsOffset(s, events[0]);
      OffsetNeverDecreases(Next(s, events[0]), events[1..]);
    }
  }

  /** And no id at or below an offset that was ever stored takes effect after that. */
  lemma {:induction false} PersistedNeverActsAgain(s: State, events: seq<Event>, offset: int, k: nat)
    requires Trace(s, events) && WellServed(s, events) && OffsetBelow(s)
    requires LastId(s.store).Some? && offset <= LastId(s.store).value
    requires |s.effects| <= k < |End(s, events).effects|
    ensures offset < End(s, events).effects[k].id
    decreases |events|
  {
    var t := Next(s, events[0]);
    StepKeepsOffset(s, events[0]);
    if |t.effects| <= k {
      PersistedNeverActsAgain(t, events[1..], offset, k);
    } else {
      EffectsStay(t, events[1..], k);
    }
  }

  lemma {:induction false} EffectsStay(s: State, events: seq<Event>, k: nat)
    requires Trace(s, events) && k < |s.effects|
    ensures k < |End(s, events).effects| && End(s, events).effects[k] == s.effects[k]
    decreases |events|
  {
    if events != [] {
      EffectsStay(Next(s, events[0]), events[1..], k);
    }
  }
}
