/** When replaying the start-up migration changes an answer: a source row matters only if it can
    still show in one, so rows that no echo may take do not. */
module MigrationAnswers {
  import opened Models
  import opened TelegramStore
  import opened StoreRuns
  import opened Migration

  /** The records that an echo may take. */
  function Consumable(pending: map<nat, Record>, now: Time): map<nat, Record> {
    map k | k in pending && now < pending[k].expiresAt && pending[k].status == AcceptedByMeshcore :: pending[k]
  }

  /** The same state, the same unexpired updates and the same records for an echo to take. */
  ghost predicate SameShown(a: Tables, b: Tables, clock: Time) {
    && a.state == b.state
    && LiveUpdates(a.updates, clock) == LiveUpdates(b.updates, clock)
    && Consumable(a.pending, clock) == Consumable(b.pending, clock)
  }

  /** No source row can still show in an answer: as for Covered, but among the records only those
      that an echo may take count. */
  ghost predicate AnswersCovered(source: Tables, target: Tables, clock: Time) {
    && RowsCovered(source, target, clock)
    && (forall k | k in Consumable(source.pending, clock) ::
          k in target.pending && source.pending[k].expiresAt <= target.pending[k].expiresAt)
  }

  /** The steps use no identifier twice, and none of these. */
  ghost predicate Fresh(ids: set<nat>, steps: seq<Step>) {
    && FreshIds(steps)
    && forall i | 0 <= i < |steps| && steps[i].op.CreateRecord? :: steps[i].op.id !in ids
  }

  /** This run has the same possible answers with the restarts and without them, and then ends with
      the same state rows. */
  ghost predicate Alike(source: Tables, t: Tables, clock: Time, events: seq<Event>) {
    && (EventRun(source, t, clock, events) <==> Run(t, clock, Steps(events), true))
    && (EventRun(source, t, clock, events) ==>
          EventsFinal(source, t, events).state == Final(t, Steps(events), true).state)
  }

  /** No restart ever changes an answer or a state row, as long as new identifiers are fresh. */
  ghost predicate AnswersInvisible(source: Tables, t: Tables, clock: Time) {
    forall events ::
      Fresh(source.pending.Keys + t.pending.Keys, Steps(events)) ==> Alike(source, t, clock, events)
  }

  // Covered answers are kept

  lemma ConsumableLater(pending: map<nat, Record>, clock: Time, now: Time)
    requires clock <= now
    ensures Consumable(Consumable(pending, clock), now) == Consumable(pending, now)
    ensures Consumable(LivePending(pending, now), now) == Consumable(pending, now)
  {
  }

  lemma ShownLater(a: Tables, b: Tables, clock: Time, now: Time)
    requires SameShown(a, b, clock) && clock <= now
    ensures SameShown(a, b, now)
  {
    LiveLater(a, clock, now);
    LiveLater(b, clock, now);
    ConsumableLater(a.pending, clock, now);
    ConsumableLater(b.pending, clock, now);
  }

  /** Which record an echo takes depends on the consumable ones alone. */
  lemma TakingShows(a: map<nat, Record>, b: map<nat, Record>, now: Time, key: EchoKey, id: nat)
    requires Consumable(a, now) == Consumable(b, now)
    ensures IsOldest(LivePending(a, now), key, id) ==> IsOldest(LivePending(b, now), key, id)
    ensures NoMatch(LivePending(a, now), key) ==> NoMatch(LivePending(b, now), key)
  {
    forall k | k in LivePending(b, now) && Matches(b[k], key)
      ensures k in LivePending(a, now) && a[k] == b[k]
    {
      assert k in Consumable(b, now);
    }
    if IsOldest(LivePending(a, now), key, id) {
      assert id in Consumable(a, now);
      assert id in LivePending(b, now) && b[id] == a[id];
    }
  }

  lemma AllowedShows(a: Tables, b: Tables, now: Time, op: Op, answer: Answer)
    requires SameShown(a, b, now)
    requires op.CreateRecord? ==> op.id !in a.pending && op.id !in b.pending
    ensures Allowed(a, now, op, answer) <==> Allowed(b, now, op, answer)
  {
    if op.ConsumeEcho? && answer.Consumed? {
      var id := if answer.id.Some? then answer.id.value else 0;
      TakingShows(a.pending, b.pending, now, op.key, id);
      TakingShows(b.pending, a.pending, now, op.key, id);
    }
  }

  /** What an operation does to the consumable records. */
  function Taken(consumable: map<nat, Record>, now: Time, op: Op, answer: Answer): map<nat, Record> {
    match op
    case CreateRecord(id, _, status) =>
      if answer == Stored && status == AcceptedByMeshcore then consumable[id := NewRecord(op, now)] else consumable
    case ConsumeEcho(_) =>
      if answer.Consumed? && answer.id.Some? then consumable - {answer.id.value} else consumable
    case _ => consumable
  }

  lemma ConsumableAfter(t: Tables, now: Time, op: Op, answer: Answer)
    requires Allowed(t, now, op, answer) && (op.CreateRecord? ==> op.id !in t.pending)
    ensures Consumable(After(t, now, op, answer).pending, now) == Taken(Consumable(t.pending, now), now, op, answer)
  {
    ConsumableLater(t.pending, now, now);
  }

  lemma UpdatesAfter(a: Tables, b: Tables, now: Time, op: Op, answer: Answer)
    requires a.state == b.state && LiveUpdates(a.updates, now) == LiveUpdates(b.updates, now)
    ensures After(a, now, op, answer).state == After(b, now, op, answer).state
    ensures LiveUpdates(After(a, now, op, answer).updates, now) == LiveUpdates(After(b, now, op, answer).updates, now)
  {
    LiveLater(a, now, now);
    LiveLater(b, now, now);
  }

  /** Stores that show the same allow the same answers and go on showing the same. */
  lemma ShownStep(a: Tables, b: Tables, clock: Time, now: Time, op: Op, answer: Answer)
    requires SameShown(a, b, clock) && clock <= now
    requires op.CreateRecord? ==> op.id !in a.pending && op.id !in b.pending
    ensures Allowed(a, now, op, answer) <==> Allowed(b, now, op, answer)
    ensures Allowed(a, now, op, answer) ==> SameShown(After(a, now, op, answer), After(b, now, op, answer), now)
  {
    ShownLater(a, b, clock, now);
    AllowedShows(a, b, now, op, answer);
    if Allowed(a, now, op, answer) {
      UpdatesAfter(a, b, now, op, answer);
      ConsumableAfter(a, now, op, answer);
      ConsumableAfter(b, now, op, answer);
    }
  }

  lemma ReplayShowsNothing(source: Tables, target: Tables, clock: Time)
    requires AnswersCovered(source, target, clock)
    ensures SameShown(Replay(source, target), target, clock)
    ensures AnswersCovered(source, Replay(source, target), clock)
  {
    ReplayedRowsAreInvisible(source, target, clock);
    var ps := source.pending + target.pending;
    forall k: nat
      ensures k in Consumable(ps, clock) <==> k in Consumable(target.pending, clock)
    {
      if k in ps && k !in target.pending {
        assert ps[k] == source.pending[k] && k !in Consumable(source.pending, clock);
      }
    }
    assert Consumable(ps, clock) == Consumable(target.pending, clock);
  }

  lemma AnswersCoveredLater(source: Tables, t: Tables, clock: Time, now: Time, op: Op, answer: Answer)
    requires AnswersCovered(source, t, clock) && clock <= now && Allowed(t, now, op, answer)
    requires op.CreateRecord? ==> op.id !in source.pending
    ensures AnswersCovered(source, After(t, now, op, answer), now)
  {
    RowsCoveredLater(source, t, clock, now, op, answer);
    var after := After(t, now, op, answer);
    forall k | k in Consumable(source.pending, now)
      ensures k in after.pending && source.pending[k].expiresAt <= after.pending[k].expiresAt
    {
      assert k in Consumable(source.pending, clock);
    }
  }

  lemma FreshTail(ids: set<nat>, steps: seq<Step>)
    requires Fresh(ids, steps) && steps != []
    ensures Fresh(if steps[0].op.CreateRecord? then ids + {steps[0].op.id} else ids, steps[1..])
  {
    forall i | 0 <= i < |steps[1..]|
      ensures steps[1..][i] == steps[i + 1]
    {
    }
  }

  lemma FreshFewer(ids: set<nat>, fewer: set<nat>, steps: seq<Step>)
    requires Fresh(ids, steps) && fewer <= ids
    ensures Fresh(fewer, steps)
  {
  }

  lemma KeysAfter(t: Tables, now: Time, op: Op, answer: Answer)
    ensures After(t, now, op, answer).pending.Keys <= t.pending.Keys + if op.CreateRecord? then {op.id} else {}
  {
  }

  /** From stores that show the same, covered restarts change neither answers nor state rows. */
  lemma {:induction false} RestartsAnswerAlike(source: Tables, a: Tables, b: Tables, clock: Time, events: seq<Event>)
    requires AnswersCovered(source, a, clock) && SameShown(a, b, clock)
    requires Fresh(source.pending.Keys + a.pending.Keys + b.pending.Keys, Steps(events))
    ensures EventRun(source, a, clock, events) <==> Run(b, clock, Steps(events), true)
    ensures EventRun(source, a, clock, events) ==>
      EventsFinal(source, a, events).state == Final(b, Steps(events), true).state
    decreases |events|
  {
    if events != [] {
      match events[0]
      case Restart =>
        ReplayShowsNothing(source, a, clock);
        var after := Replay(source, a);
        assert after.pending.Keys == source.pending.Keys + a.pending.Keys;
        FreshFewer(source.pending.Keys + a.pending.Keys + b.pending.Keys,
          source.pending.Keys + after.pending.Keys + b.pending.Keys, Steps(events));
        RestartsAnswerAlike(source, after, b, clock, events[1..]);
      case Did(s) =>
        if clock <= s.now {
          StepAnswersAlike(source, a, b, clock, s, Steps(events[1..]));
          if Allowed(a, s.now, s.op, s.answer) {
            var a', b' := After(a, s.now, s.op, s.answer), After(b, s.now, s.op, s.answer);
            RestartsAnswerAlike(source, a', b', s.now, events[1..]);
          }
        }
    }
  }

  lemma StepAnswersAlike(source: Tables, a: Tables, b: Tables, clock: Time, s: Step, rest: seq<Step>)
    requires AnswersCovered(source, a, clock) && SameShown(a, b, clock) && clock <= s.now
    requires Fresh(source.pending.Keys + a.pending.Keys + b.pending.Keys, [s] + rest)
    ensures Allowed(a, s.now, s.op, s.answer) <==> Allowed(b, s.now, s.op, s.answer)
    ensures Allowed(a, s.now, s.op, s.answer) ==>
      var a', b' := After(a, s.now, s.op, s.answer), After(b, s.now, s.op, s.answer);
      && AnswersCovered(source, a', s.now) && SameShown(a', b', s.now)
      && Fresh(source.pending.Keys + a'.pending.Keys + b'.pending.Keys, rest)
  {
    var ids := source.pending.Keys + a.pending.Keys + b.pending.Keys;
    assert ([s] + rest)[0] == s && ([s] + rest)[1..] == rest;
    FreshTail(ids, [s] + rest);
    ShownStep(a, b, clock, s.now, s.op, s.answer);
    if Allowed(a, s.now, s.op, s.answer) {
      AnswersCoveredLater(source, a, clock, s.now, s.op, s.answer);
    }
    KeysAfter(a, s.now, s.op, s.answer);
    KeysAfter(b, s.now, s.op, s.answer);
    var a', b' := After(a, s.now, s.op, s.answer), After(b, s.now, s.op, s.answer);
    FreshFewer(if s.op.CreateRecord? then ids + {s.op.id} else ids,
      source.pending.Keys + a'.pending.Keys + b'.pending.Keys, rest);
  }

  // Every uncovered row shows

  function Dids(steps: seq<Step>): seq<Event> {
    if steps == [] then [] else [Did(steps[0])] + Dids(steps[1..])
  }

  lemma {:induction false} DidsRun(source: Tables, t: Tables, clock: Time, steps: seq<Step>)
    ensures Steps(Dids(steps)) == steps
    ensures EventRun(source, t, clock, Dids(steps)) <==> Run(t, clock, steps, true)
    decreases |steps|
  {
    if steps != [] {
      var s := steps[0];
      assert Dids(steps)[0] == Did(s) && Dids(steps)[1..] == Dids(steps[1..]);
      DidsRun(source, After(t, s.now, s.op, s.answer), s.now, steps[1..]);
    }
  }

  /** Echoes of one text take its records one by one, and so each of them. */
  lemma {:induction false} Drain(t: Tables, now: Time, k: nat) returns (steps: seq<Step>)
    requires k in Consumable(t.pending, now)
    ensures Run(t, now, steps, true) && (exists i :: 0 <= i < |steps| && Takes(steps[i], k))
    ensures forall i | 0 <= i < |steps| :: !steps[i].op.CreateRecord?
    decreases |Consumable(t.pending, now)|
  {
    var key := t.pending[k].key;
    var live := LivePending(t.pending, now);
    var matching := set j | j in live && Matches(live[j], key);
    assert k in matching;
    var oldest := OldestExists(live, matching);
    assert IsOldest(live, key, oldest);
    var s := Step(now, ConsumeEcho(key), Consumed(Some(oldest)));
    if oldest == k {
      steps := [s];
      assert steps[1..] == [] && Takes(steps[0], k);
    } else {
      var after := After(t, now, s.op, s.answer);
      ConsumableAfter(t, now, s.op, s.answer);
      assert oldest in Consumable(t.pending, now);
      var rest := Drain(after, now, k);
      steps := [s] + rest;
      assert steps[1..] == rest;
      var i :| 0 <= i < |rest| && Takes(rest[i], k);
      assert Takes(steps[i + 1], k);
    }
  }

  /** What cannot be taken and is not created is never taken. */
  lemma {:induction false} NeverTakes(t: Tables, clock: Time, steps: seq<Step>, k: nat, i: nat)
    requires Run(t, clock, steps, true) && k !in Consumable(t.pending, clock)
    requires forall j | 0 <= j < |steps| && steps[j].op.CreateRecord? :: steps[j].op.id != k
    requires i < |steps|
    ensures !Takes(steps[i], k)
    decreases |steps|
  {
    var s := steps[0];
    var after := After(t, s.now, s.op, s.answer);
    assert k !in Consumable(t.pending, s.now);
    assert k !in Consumable(after.pending, s.now);
    if i > 0 {
      NeverTakes(after, s.now, steps[1..], k, i - 1);
    }
  }

  lemma MissingStateShows(source: Tables, t: Tables, clock: Time) returns (events: seq<Event>)
    requires !(source.state.Keys <= t.state.Keys)
    ensures Steps(events) == [] && !Alike(source, t, clock, events)
  {
    events := [Restart];
    var after := Replay(source, t);
    assert events[1..] == [] && EventRun(source, after, clock, []);
    var name :| name in source.state && name !in t.state;
    assert name in after.state;
  }

  lemma UpdateShows(source: Tables, t: Tables, clock: Time, u: int) returns (events: seq<Event>)
    requires u in source.updates && clock < source.updates[u]
    requires u in t.updates ==> t.updates[u] < source.updates[u]
    ensures !Alike(source, t, clock, events)
    ensures forall i | 0 <= i < |Steps(events)| :: !Steps(events)[i].op.CreateRecord?
  {
    if u in t.updates {
      var now, earlier := UncoveredRestartShows(source, t, clock, u);
      events := earlier + [Did(Step(now, SeenUpdate(u), Seen(true)))];
    } else {
      var ask := Step(clock, SeenUpdate(u), Seen(true));
      events := [Restart, Did(ask)];
      assert events[1..] == [Did(ask)] && [Did(ask)][1..] == [];
      var after := Replay(source, t);
      assert u in LiveUpdates(after.updates, clock);
      assert EventRun(source, After(after, clock, ask.op, ask.answer), clock, []);
      assert EventRun(source, after, clock, [Did(ask)]);
      assert Steps([Did(ask)]) == [ask];
    }
  }

  /** A restart brings a record that only the source holds, and some echo can take it. */
  lemma MissingRecordShows(source: Tables, t: Tables, clock: Time, k: nat) returns (events: seq<Event>)
    requires k in Consumable(source.pending, clock) && k !in t.pending
    ensures !Alike(source, t, clock, events)
    ensures forall i | 0 <= i < |Steps(events)| :: !Steps(events)[i].op.CreateRecord?
  {
    var after := Replay(source, t);
    assert k in Consumable(after.pending, clock);
    var steps := Drain(after, clock, k);
    events := [Restart] + Dids(steps);
    assert events[1..] == Dids(steps);
    DidsRun(source, after, clock, steps);
    if Run(t, clock, steps, true) {
      var i :| 0 <= i < |steps| && Takes(steps[i], k);
      NeverTakes(t, clock, steps, k, i);
    }
  }

  /** So does one that the target purges before the source's expires. */
  lemma PurgedRecordShows(source: Tables, t: Tables, clock: Time, k: nat) returns (events: seq<Event>)
    requires k in Consumable(source.pending, clock)
    requires k in t.pending && t.pending[k].expiresAt < source.pending[k].expiresAt
    ensures !Alike(source, t, clock, events)
    ensures Fresh(source.pending.Keys + t.pending.Keys, Steps(events))
  {
    var now := if clock < t.pending[k].expiresAt then t.pending[k].expiresAt else clock;
    var id := Unused(source.pending.Keys + t.pending.Keys);
    var s := Step(now, CreateRecord(id, t.pending[k].key, Dropped), Stored);
    var after := After(t, now, s.op, s.answer);
    assert k !in after.pending && k in Consumable(source.pending, now);
    var more := MissingRecordShows(source, after, now, k);
    events := [Did(s)] + more;
    assert events[1..] == more && Steps(events) == [s] + Steps(more);
    assert ([s] + Steps(more))[1..] == Steps(more);
    AlikeOn(source, t, clock, s, more);
  }

  lemma AlikeOn(source: Tables, t: Tables, clock: Time, s: Step, more: seq<Event>)
    requires clock <= s.now && Allowed(t, s.now, s.op, s.answer)
    ensures Alike(source, t, clock, [Did(s)] + more) <==> Alike(source, After(t, s.now, s.op, s.answer), s.now, more)
  {
    var events := [Did(s)] + more;
    assert events[1..] == more && Steps(events) == [s] + Steps(more);
    assert ([s] + Steps(more))[1..] == Steps(more);
  }

  /** Restarts change no answer and no state row, whatever happens, exactly when every source row
      that could show in one is covered. */
  lemma AnswersInvisibleExactly(source: Tables, t: Tables, clock: Time)
    ensures AnswersInvisible(source, t, clock) <==> AnswersCovered(source, t, clock)
  {
    if AnswersCovered(source, t, clock) {
      forall events | Fresh(source.pending.Keys + t.pending.Keys, Steps(events))
        ensures Alike(source, t, clock, events)
      {
        var ids := source.pending.Keys + t.pending.Keys;
        FreshFewer(ids, ids + t.pending.Keys, Steps(events));
        RestartsAnswerAlike(source, t, t, clock, events);
      }
    } else {
      var events := UncoveredShows(source, t, clock);
      assert !Alike(source, t, clock, events);
    }
  }

  lemma UncoveredShows(source: Tables, t: Tables, clock: Time) returns (events: seq<Event>)
    requires !AnswersCovered(source, t, clock)
    ensures !Alike(source, t, clock, events) && Fresh(source.pending.Keys + t.pending.Keys, Steps(events))
  {
    if !(source.state.Keys <= t.state.Keys) {
      events := MissingStateShows(source, t, clock);
    } else if !RowsCovered(source, t, clock) {
      var u :| u in source.updates && clock < source.updates[u]
        && !(u in t.updates && source.updates[u] <= t.updates[u]);
      events := UpdateShows(source, t, clock, u);
    } else {
      var k :| k in Consumable(source.pending, clock)
        && !(k in t.pending && source.pending[k].expiresAt <= t.pending[k].expiresAt);
      if k in t.pending {
        events := PurgedRecordShows(source, t, clock, k);
      } else {
        events := MissingRecordShows(source, t, clock, k);
      }
    }
  }

  /** What a first migration needs of the target it finds, for no later restart to change an answer. */
  ghost predicate AnswersCompatible(source: Tables, target: Tables, clock: Time) {
    && (forall u | u in source.updates && u in target.updates && clock < source.updates[u] ::
          source.updates[u] <= target.updates[u])
    && (forall k | k in Consumable(source.pending, clock) && k in target.pending ::
          source.pending[k].expiresAt <= target.pending[k].expiresAt)
  }

  /** From the first migration on, restarts change no answer and no state row, activation and offset
      included, exactly when the target it found was compatible; a fresh one always is. */
  lemma MigrationAnswersInvisible(source: Tables, target: Tables, clock: Time)
    ensures AnswersInvisible(source, Replay(source, target), clock) <==> AnswersCompatible(source, target, clock)
    ensures AnswersCompatible(source, EMPTY, clock)
  {
    var after := Replay(source, target);
    AnswersInvisibleExactly(source, after, clock);
    if AnswersCovered(source, after, clock) {
      forall u | u in source.updates && u in target.updates && clock < source.updates[u]
        ensures source.updates[u] <= target.updates[u]
      {
        assert after.updates[u] == target.updates[u];
      }
      forall k | k in Consumable(source.pending, clock) && k in target.pending
        ensures source.pending[k].expiresAt <= target.pending[k].expiresAt
      {
        assert after.pending[k] == target.pending[k];
      }
    }
  }
}
