/** The start-up migration, which copies the legacy tables' rows into the Telegram store at every
    start and leaves rows that are already there alone. */
module Migration {
  import opened Models
  import opened TelegramStore
  import opened StoreRuns

  /** INSERT OR IGNORE of every source row: rows the target has win. */
  function Replay(source: Tables, target: Tables): Tables {
    Tables(source.state + target.state, source.updates + target.updates, source.pending + target.pending)
  }

  /** One table's INSERT OR IGNORE, row by row. */
  method InsertOrIgnore<K(==), V>(rows: map<K, V>, table: map<K, V>) returns (r: map<K, V>)
    ensures r == rows + table
  {
    r := table;
    var todo := rows.Keys;
    while todo != {}
      invariant todo <= rows.Keys && r.Keys == table.Keys + (rows.Keys - todo)
      invariant forall k | k in r :: r[k] == if k in table then table[k] else rows[k]
      decreases |todo|
    {
      var k :| k in todo;
      if k !in r {
        r := r[k := rows[k]];
      }
      todo := todo - {k};
    }
  }

  method MigrateTelegramTables(source: Tables, target: TelegramStore, fails: bool)
    modifies target
    ensures target.Contents() == if fails then old(target.Contents()) else Replay(source, old(target.Contents()))
  {
    if fails {
      return;
    }
    target.state := InsertOrIgnore(source.state, target.state);
    target.updates := InsertOrIgnore(source.updates, target.updates);
    target.pending := InsertOrIgnore(source.pending, target.pending);
  }

  /** A source row can no longer show: it has expired, or the target has a row in its place that
      lasts at least as long. State rows are in place once they have been copied. */
  ghost predicate Covered(source: Tables, target: Tables, clock: Time) {
    && RowsCovered(source, target, clock)
    && (forall k | k in source.pending && clock < source.pending[k].expiresAt ::
          k in target.pending && source.pending[k].expiresAt <= target.pending[k].expiresAt)
  }

  /** The same of state and update rows. */
  ghost predicate RowsCovered(source: Tables, target: Tables, clock: Time) {
    && source.state.Keys <= target.state.Keys
    && (forall u | u in source.updates && clock < source.updates[u] ::
          u in target.updates && source.updates[u] <= target.updates[u])
  }

  lemma ReplayedRowsAreInvisible(source: Tables, target: Tables, clock: Time)
    requires RowsCovered(source, target, clock)
    ensures var after := Replay(source, target);
      && after.state == target.state && LiveUpdates(after.updates, clock) == LiveUpdates(target.updates, clock)
      && RowsCovered(source, after, clock)
  {
    var merged := source.state + target.state;
    assert merged.Keys == source.state.Keys + target.state.Keys == target.state.Keys;
    assert merged == target.state;
    var us := source.updates + target.updates;
    forall u: int
      ensures u in LiveUpdates(us, clock) <==> u in LiveUpdates(target.updates, clock)
    {
      assert u in us ==> us[u] == if u in target.updates then target.updates[u] else source.updates[u];
    }
    assert LiveUpdates(us, clock) == LiveUpdates(target.updates, clock);
  }

  lemma RowsCoveredLater(source: Tables, t: Tables, clock: Time, now: Time, op: Op, answer: Answer)
    requires RowsCovered(source, t, clock) && clock <= now && Allowed(t, now, op, answer)
    ensures RowsCovered(source, After(t, now, op, answer), now)
  {
  }

  /** What a first migration needs of a target it finds: wherever source and target hold a row of
      the same key, the target's lasts at least as long, unless the source's has expired. */
  ghost predicate Compatible(source: Tables, target: Tables, clock: Time) {
    && (forall u | u in source.updates && u in target.updates && clock < source.updates[u] ::
          source.updates[u] <= target.updates[u])
    && (forall k | k in source.pending && k in target.pending && clock < source.pending[k].expiresAt ::
          source.pending[k].expiresAt <= target.pending[k].expiresAt)
  }

  /** After a first migration the source is covered exactly when the target was compatible. */
  lemma FirstMigrationCovers(source: Tables, target: Tables, clock: Time)
    ensures Covered(source, Replay(source, target), clock) <==> Compatible(source, target, clock)
  {
    var after := Replay(source, target);
    if Covered(source, after, clock) {
      forall u | u in source.updates && u in target.updates && clock < source.updates[u]
        ensures source.updates[u] <= target.updates[u]
      {
        assert after.updates[u] == target.updates[u];
      }
      forall k | k in source.pending && k in target.pending && clock < source.pending[k].expiresAt
        ensures source.pending[k].expiresAt <= target.pending[k].expiresAt
      {
        assert after.pending[k] == target.pending[k];
      }
    }
  }

  lemma ReplayIsInvisible(source: Tables, target: Tables, clock: Time)
    requires Covered(source, target, clock)
    ensures SameLive(Replay(source, target), target, clock)
    ensures Covered(source, Replay(source, target), clock)
  {
    ReplayedRowsAreInvisible(source, target, clock);
    var ps := source.pending + target.pending;
    forall k: nat
      ensures k in LivePending(ps, clock) <==> k in LivePending(target.pending, clock)
    {
      assert k in ps ==> ps[k] == if k in target.pending then target.pending[k] else source.pending[k];
    }
    assert LivePending(ps, clock) == LivePending(target.pending, clock);
  }

  lemma CoveredLater(source: Tables, t: Tables, clock: Time, now: Time, op: Op, answer: Answer)
    requires Covered(source, t, clock) && clock <= now && Allowed(t, now, op, answer)
    ensures Covered(source, After(t, now, op, answer), now)
  {
    RowsCoveredLater(source, t, clock, now, op, answer);
  }

  /** What happens to a store over its life: operations, and restarts with their migration. */
  datatype Event = Did(step: Step) | Restart

  ghost predicate EventRun(source: Tables, t: Tables, clock: Time, events: seq<Event>)
    decreases |events|
  {
    events == [] ||
    match events[0]
    case Restart => EventRun(source, Replay(source, t), clock, events[1..])
    case Did(s) =>
      && clock <= s.now && Allowed(t, s.now, s.op, s.answer)
      && EventRun(source, After(t, s.now, s.op, s.answer), s.now, events[1..])
  }

  function EventsFinal(source: Tables, t: Tables, events: seq<Event>): Tables
    decreases |events|
  {
    if events == [] then t
    else
      match events[0]
      case Restart => EventsFinal(source, Replay(source, t), events[1..])
      case Did(s) => EventsFinal(source, After(t, s.now, s.op, s.answer), events[1..])
  }

  function Steps(events: seq<Event>): seq<Step> {
    if events == [] then []
    else
      match events[0]
      case Restart => Steps(events[1..])
      case Did(s) => [s] + Steps(events[1..])
  }

  /** Restarts are invisible: from two stores that show the same rows, a run with restarts
      anywhere is possible exactly when the same operations with the same answers are possible
      without them, and the stores then still show the same. */
  lemma {:induction false} RestartsAreInvisible(source: Tables, a: Tables, b: Tables, clock: Time, events: seq<Event>)
    requires Covered(source, a, clock) && SameLive(a, b, clock)
    ensures EventRun(source, a, clock, events) <==> Run(b, clock, Steps(events), true)
    ensures EventRun(source, a, clock, events) ==>
      SameLive(EventsFinal(source, a, events), Final(b, Steps(events), true), LastClock(clock, Steps(events)))
    decreases |events|
  {
    if events != [] {
      match events[0]
      case Restart =>
        ReplayIsInvisible(source, a, clock);
        RestartsAreInvisible(source, Replay(source, a), b, clock, events[1..]);
      case Did(s) =>
        assert Steps(events)[1..] == Steps(events[1..]);
        if clock <= s.now {
          SameAnswers(a, b, clock, s.now, s.op, s.answer, true, true);
          if Allowed(a, s.now, s.op, s.answer) {
            CoveredLater(source, a, clock, s.now, s.op, s.answer);
            RestartsAreInvisible(source, After(a, s.now, s.op, s.answer), After(b, s.now, s.op, s.answer), s.now,
              events[1..]);
            assert LastClock(s.now, Steps(events[1..])) == LastClock(clock, Steps(events));
          }
        }
    }
  }

  /** This run shows no restart: it is possible exactly when its operations are possible without
      the restarts, and then both ways end with the same state and the same unexpired rows. */
  ghost predicate Unseen(source: Tables, t: Tables, clock: Time, events: seq<Event>) {
    && (EventRun(source, t, clock, events) <==> Run(t, clock, Steps(events), true))
    && (EventRun(source, t, clock, events) ==>
          SameLive(EventsFinal(source, t, events), Final(t, Steps(events), true), LastClock(clock, Steps(events))))
  }

  ghost predicate Invisible(source: Tables, t: Tables, clock: Time) {
    forall events :: Unseen(source, t, clock, events)
  }

  /** Restarts are invisible in every run exactly when the source is covered. */
  lemma InvisibleExactly(source: Tables, t: Tables, clock: Time)
    ensures Invisible(source, t, clock) <==> Covered(source, t, clock)
  {
    if Covered(source, t, clock) {
      forall events
        ensures Unseen(source, t, clock, events)
      {
        RestartsAreInvisible(source, t, t, clock, events);
      }
    }
    if Invisible(source, t, clock) {
      RestartShowsMissing(source, t, clock);
      forall u | u in source.updates && clock < source.updates[u]
        ensures source.updates[u] <= t.updates[u]
      {
        RestartShowsUpdate(source, t, clock, u);
      }
      forall k | k in source.pending && clock < source.pending[k].expiresAt
        ensures source.pending[k].expiresAt <= t.pending[k].expiresAt
      {
        RestartShowsRecord(source, t, clock, k);
      }
    }
  }

  /** A restart shows every state row and every unexpired row that the target lacks. */
  lemma RestartShowsMissing(source: Tables, t: Tables, clock: Time)
    requires Unseen(source, t, clock, [Restart])
    ensures source.state.Keys <= t.state.Keys
    ensures forall u | u in source.updates && clock < source.updates[u] :: u in t.updates
    ensures forall k | k in source.pending && clock < source.pending[k].expiresAt :: k in t.pending
  {
    var after := Replay(source, t);
    assert [Restart][1..] == [];
    assert EventRun(source, after, clock, []);
    assert SameLive(after, t, clock);
    assert source.state.Keys <= after.state.Keys;
    forall u | u in source.updates && clock < source.updates[u]
      ensures u in t.updates
    {
      assert u !in t.updates ==> u in LiveUpdates(after.updates, clock);
    }
    forall k | k in source.pending && clock < source.pending[k].expiresAt
      ensures k in t.pending
    {
      assert k !in t.pending ==> k in LivePending(after.pending, clock);
    }
  }

  /** A step that purges, then a restart. */
  lemma PurgeThenRestart(source: Tables, t: Tables, clock: Time, s: Step)
    requires clock <= s.now && Allowed(t, s.now, s.op, s.answer)
    requires Unseen(source, t, clock, [Did(s), Restart])
    ensures var after := After(t, s.now, s.op, s.answer); SameLive(Replay(source, after), after, s.now)
  {
    var events := [Did(s), Restart];
    var after := After(t, s.now, s.op, s.answer);
    assert events[1..] == [Restart] && [Restart][1..] == [];
    assert Steps([Restart]) == [] && Steps(events) == [s];
    assert EventRun(source, Replay(source, after), s.now, []);
    assert EventRun(source, after, s.now, [Restart]);
    assert [s][1..] == [];
    assert Final(t, [s], true) == after;
    assert EventsFinal(source, after, [Restart]) == Replay(source, after);
  }

  /** Once a target's row of an update has expired and been purged, a restart brings the source's
      back. */
  lemma RestartShowsUpdate(source: Tables, t: Tables, clock: Time, u: int)
    requires u in source.updates && u in t.updates && clock < source.updates[u]
    requires Invisible(source, t, clock)
    ensures source.updates[u] <= t.updates[u]
  {
    if t.updates[u] < source.updates[u] {
      var now := if clock < t.updates[u] then t.updates[u] else clock;
      var s := Step(now, SeenUpdate(u + 1), Seen(u + 1 in LiveUpdates(t.updates, now)));
      var after := After(t, now, s.op, s.answer);
      assert u !in after.updates;
      assert u in LiveUpdates(Replay(source, after).updates, now);
      assert Unseen(source, t, clock, [Did(s), Restart]);
      PurgeThenRestart(source, t, clock, s);
    }
  }

  lemma RestartShowsRecord(source: Tables, t: Tables, clock: Time, k: nat)
    requires k in source.pending && k in t.pending && clock < source.pending[k].expiresAt
    requires Invisible(source, t, clock)
    ensures source.pending[k].expiresAt <= t.pending[k].expiresAt
  {
    if t.pending[k].expiresAt < source.pending[k].expiresAt {
      var now := if clock < t.pending[k].expiresAt then t.pending[k].expiresAt else clock;
      var id := Unused(t.pending.Keys);
      var s := Step(now, CreateRecord(id, t.pending[k].key, Dropped), Stored);
      var after := After(t, now, s.op, s.answer);
      assert k !in after.pending;
      assert k in LivePending(Replay(source, after).pending, now);
      assert Unseen(source, t, clock, [Did(s), Restart]);
      PurgeThenRestart(source, t, clock, s);
    }
  }

  /** An identifier that is not in use. */
  lemma {:induction false} Unused(ids: set<nat>) returns (id: nat)
    ensures forall k | k in ids :: k < id
    decreases |ids|
  {
    id := 0;
    if ids != {} {
      var k :| k in ids;
      var above := Unused(ids - {k});
      id := if above <= k then k + 1 else above;
      assert forall j | j in ids :: j == k || j in ids - {k};
    }
  }

  /** From the first migration on, restarts are invisible exactly when the target it found was
      compatible, as a fresh one always is; the state rows, and with them activation and offset,
      are then the same with and without the restarts. */
  lemma MigrationIsInvisible(source: Tables, target: Tables, clock: Time)
    ensures Invisible(source, Replay(source, target), clock) <==> Compatible(source, target, clock)
    ensures Compatible(source, EMPTY, clock)
  {
    FirstMigrationCovers(source, target, clock);
    InvisibleExactly(source, Replay(source, target), clock);
  }

  /** A record that was consumed, or that expired and was purged, is never consumed afterwards,
      however many restarts lie in between. */
  lemma NeverConsumableAgain(source: Tables, t: Tables, clock: Time, events: seq<Event>, id: nat, now: Time,
    key: EchoKey)
    requires Covered(source, t, clock) && EventRun(source, t, clock, events)
    requires LastClock(clock, Steps(events)) <= now
    requires NoCreate(Steps(events), id)
    requires id !in LivePending(t.pending, clock) || t.pending[id].status != AcceptedByMeshcore
    ensures !Allowed(EventsFinal(source, t, events), now, ConsumeEcho(key), Consumed(Some(id)))
  {
    RestartsAreInvisible(source, t, t, clock, events);
    StaysUnconsumable(t, clock, Steps(events), id);
    SameLiveLater(EventsFinal(source, t, events), Final(t, Steps(events), true), LastClock(clock, Steps(events)), now);
    LiveLater(Final(t, Steps(events), true), LastClock(clock, Steps(events)), now);
  }

  predicate NoCreate(steps: seq<Step>, id: nat) {
    forall i | 0 <= i < |steps| && steps[i].op.CreateRecord? :: steps[i].op.id != id
  }

  lemma {:induction false} StaysUnconsumable(t: Tables, clock: Time, steps: seq<Step>, id: nat)
    requires Run(t, clock, steps, true) && NoCreate(steps, id)
    requires id !in LivePending(t.pending, clock) || t.pending[id].status != AcceptedByMeshcore
    ensures var last := Final(t, steps, true);
      id !in LivePending(last.pending, LastClock(clock, steps)) || last.pending[id].status != AcceptedByMeshcore
    decreases |steps|
  {
    if steps != [] {
      var s := steps[0];
      StaysUnconsumable(After(t, s.now, s.op, s.answer), s.now, steps[1..], id);
      assert LastClock(s.now, steps[1..]) == LastClock(clock, steps);
    }
  }

  predicate NeverTaken(steps: seq<Step>, id: nat) {
    forall i | 0 <= i < |steps| :: !Takes(steps[i], id)
  }

  /** A record stays as it is, over operations and restarts, until it expires or is taken. */
  lemma {:induction false} RecordStays(source: Tables, t: Tables, clock: Time, events: seq<Event>, id: nat)
    requires EventRun(source, t, clock, events) && id in t.pending
    requires NoCreate(Steps(events), id) && NeverTaken(Steps(events), id)
    requires LastClock(clock, Steps(events)) < t.pending[id].expiresAt
    ensures clock <= LastClock(clock, Steps(events))
    ensures var last := EventsFinal(source, t, events); id in last.pending && last.pending[id] == t.pending[id]
    decreases |events|
  {
    if events != [] {
      match events[0]
      case Restart => RecordStays(source, Replay(source, t), clock, events[1..], id);
      case Did(s) =>
        SpareRest(s, Steps(events[1..]), clock, id);
        ClockRuns(source, After(t, s.now, s.op, s.answer), s.now, events[1..]);
        StepKeepsRecord(t, s, id);
        RecordStays(source, After(t, s.now, s.op, s.answer), s.now, events[1..], id);
    }
  }

  lemma StepKeepsRecord(t: Tables, s: Step, id: nat)
    requires id in t.pending && s.now < t.pending[id].expiresAt
    requires !Takes(s, id) && !(s.op.CreateRecord? && s.op.id == id)
    ensures var next := After(t, s.now, s.op, s.answer); id in next.pending && next.pending[id] == t.pending[id]
  {
  }

  lemma SpareRest(s: Step, rest: seq<Step>, clock: Time, id: nat)
    requires NoCreate([s] + rest, id) && NeverTaken([s] + rest, id)
    ensures NoCreate(rest, id) && NeverTaken(rest, id) && !Takes(s, id) && !(s.op.CreateRecord? && s.op.id == id)
    ensures LastClock(s.now, rest) == LastClock(clock, [s] + rest)
  {
    var steps := [s] + rest;
    assert steps[0] == s;
    forall i | 0 <= i < |rest|
      ensures rest[i] == steps[i + 1] && !Takes(rest[i], id)
    {
      assert !Takes(steps[i + 1], id);
    }
  }

  lemma {:induction false} ClockRuns(source: Tables, t: Tables, clock: Time, events: seq<Event>)
    requires EventRun(source, t, clock, events)
    ensures clock <= LastClock(clock, Steps(events))
    decreases |events|
  {
    if events != [] {
      match events[0]
      case Restart => ClockRuns(source, Replay(source, t), clock, events[1..]);
      case Did(s) =>
        ClockRuns(source, After(t, s.now, s.op, s.answer), s.now, events[1..]);
        assert LastClock(s.now, Steps(events[1..])) == LastClock(clock, Steps(events));
    }
  }

  /** The condition matters: where the target kept a row that expires before the source's row of
      the same update, a restart turns a later answer about that update from new to seen. */
  lemma UncoveredRestartShows(source: Tables, t: Tables, clock: Time, u: int)
    returns (now: Time, earlier: seq<Event>)
    requires u in source.updates && u in t.updates
    requires clock < source.updates[u] && t.updates[u] < source.updates[u]
    ensures var asked := earlier + [Did(Step(now, SeenUpdate(u), Seen(true)))];
      && EventRun(source, t, clock, asked) && !Run(t, clock, Steps(asked), true)
      && forall i | 0 <= i < |Steps(asked)| :: !Steps(asked)[i].op.CreateRecord?
    ensures Run(t, clock, Steps(earlier) + [Step(now, SeenUpdate(u), Seen(false))], true)
  {
    now := if clock < t.updates[u] then t.updates[u] else clock;
    var purge := Step(now, SeenUpdate(u + 1), Seen(u + 1 in LiveUpdates(t.updates, now)));
    earlier := [Did(purge), Restart];
    var purged := After(t, now, purge.op, purge.answer);
    assert u !in purged.updates;
    var restarted := Replay(source, purged);
    assert u in LiveUpdates(restarted.updates, now);
    var seen, fresh' := Step(now, SeenUpdate(u), Seen(true)), Step(now, SeenUpdate(u), Seen(false));
    var asked := earlier + [Did(seen)];
    assert asked[1..] == [Restart, Did(seen)] && [Restart, Did(seen)][1..] == [Did(seen)] && [Did(seen)][1..] == [];
    assert EventRun(source, After(restarted, now, seen.op, seen.answer), now, []);
    assert EventRun(source, restarted, now, [Did(seen)]);
    assert EventRun(source, purged, now, [Restart, Did(seen)]);
    assert Steps([Did(seen)]) == [seen];
    assert Steps([Restart, Did(seen)]) == [seen];
    assert Steps(asked) == [purge, seen];
    assert earlier[1..] == [Restart] && [Restart][1..] == [] && Steps([Restart]) == [] && Steps(earlier) == [purge];
    assert [purge, seen][1..] == [seen] && !Run(purged, now, [seen], true);
    assert [purge] + [fresh'] == [purge, fresh'] && [purge, fresh'][1..] == [fresh'] && [fresh'][1..] == [];
    assert Run(After(purged, now, fresh'.op, fresh'.answer), now, [], true);
    assert Run(purged, now, [fresh'], true);
  }
}
