/** Whole runs of the Telegram store: against the history that purging forgets, and across the
    start-up migration that replays old rows. */
module StoreRuns {
  import opened Models
  import opened TelegramStore

  datatype Step = Step(now: Time, op: Op, answer: Answer)

  /** Every answer is allowed, and the clock never goes back. `purge` says whether the store
      deletes expired rows, as the real one does, or keeps everything. */
  ghost predicate Run(t: Tables, clock: Time, steps: seq<Step>, purge: bool)
    decreases |steps|
  {
    steps == [] ||
    var s := steps[0];
    && clock <= s.now && Allowed(t, s.now, s.op, s.answer)
    && Run(Effect(t, s.now, s.op, s.answer, purge), s.now, steps[1..], purge)
  }

  function Final(t: Tables, steps: seq<Step>, purge: bool): Tables
    decreases |steps|
  {
    if steps == [] then t
    else Final(Effect(t, steps[0].now, steps[0].op, steps[0].answer, purge), steps[1..], purge)
  }

  function LastClock(clock: Time, steps: seq<Step>): Time {
    if steps == [] then clock else steps[|steps| - 1].now
  }

  /** Purging never changes an answer: a run is possible with it exactly when it is without. */
  lemma {:induction false} PurgingIsInvisible(a: Tables, b: Tables, clock: Time, steps: seq<Step>)
    requires SameLive(a, b, clock)
    ensures Run(a, clock, steps, true) <==> Run(b, clock, steps, false)
    ensures Run(a, clock, steps, true) ==>
      SameLive(Final(a, steps, true), Final(b, steps, false), LastClock(clock, steps))
    decreases |steps|
  {
    if steps != [] {
      var s := steps[0];
      if clock <= s.now {
        SameAnswers(a, b, clock, s.now, s.op, s.answer, true, false);
        if Allowed(a, s.now, s.op, s.answer) {
          PurgingIsInvisible(Effect(a, s.now, s.op, s.answer, true), Effect(b, s.now, s.op, s.answer, false), s.now,
            steps[1..]);
        }
      }
    }
  }

  // The history of echo records

  predicate Creates(s: Step, id: nat) {
    s.op.CreateRecord? && s.op.id == id && s.answer == Stored
  }

  predicate Takes(s: Step, id: nat) {
    s.op.ConsumeEcho? && s.answer == Consumed(Some(id))
  }

  /** Identifiers are never used twice. */
  ghost predicate FreshIds(steps: seq<Step>) {
    forall i, j | 0 <= i < j < |steps| && steps[i].op.CreateRecord? && steps[j].op.CreateRecord? ::
      steps[i].op.id != steps[j].op.id
  }

  /** The record created under this id, as it was created. */
  function CreatedAs(steps: seq<Step>, id: nat): Option<Record> {
    if steps == [] then None
    else
      var s := steps[|steps| - 1];
      if Creates(s, id) then Some(NewRecord(s.op, s.now)) else CreatedAs(steps[..|steps| - 1], id)
  }

  /** Some step consumed the record with this id. */
  predicate Taken(steps: seq<Step>, id: nat) {
    steps != [] && (Takes(steps[|steps| - 1], id) || Taken(steps[..|steps| - 1], id))
  }

  /** A record that an echo at `now` may consume, judged from the history alone. */
  predicate Candidate(steps: seq<Step>, key: EchoKey, now: Time, id: nat) {
    var r := CreatedAs(steps, id);
    r.Some? && Matches(r.value, key) && r.value.expiresAt > now && !Taken(steps, id)
  }

  lemma {:induction false} RunAppend(t: Tables, clock: Time, steps: seq<Step>, s: Step, purge: bool)
    ensures Final(t, steps + [s], purge) == Effect(Final(t, steps, purge), s.now, s.op, s.answer, purge)
    ensures Run(t, clock, steps + [s], purge) <==>
      Run(t, clock, steps, purge) && LastClock(clock, steps) <= s.now
        && Allowed(Final(t, steps, purge), s.now, s.op, s.answer)
    decreases |steps|
  {
    if steps == [] {
      assert [] + [s] == [s];
    } else {
      var r := steps[0];
      assert (steps + [s])[0] == r && (steps + [s])[1..] == steps[1..] + [s];
      RunAppend(Effect(t, r.now, r.op, r.answer, purge), r.now, steps[1..], s, purge);
      assert LastClock(r.now, steps[1..]) == LastClock(clock, steps);
    }
  }

  /** Without purging, the pending table is the history: every record created, marked when taken. */
  lemma {:induction false} HistoryRow(clock: Time, steps: seq<Step>, id: nat)
    requires Run(EMPTY, clock, steps, false) && FreshIds(steps)
    ensures var pending := Final(EMPTY, steps, false).pending;
      var r := CreatedAs(steps, id);
      && (id in pending <==> r.Some?)
      && (r.Some? ==> pending[id] == if Taken(steps, id) then r.value.(status := ObservedEcho) else r.value)
      && (Taken(steps, id) ==> r.Some?)
  {
    if steps != [] {
      var n := |steps| - 1;
      var s := steps[n];
      assert steps == steps[..n] + [s];
      RunAppend(EMPTY, clock, steps[..n], s, false);
      assert FreshIds(steps[..n]);
      HistoryRow(clock, steps[..n], id);
      if Creates(s, id) {
        NotCreatedBefore(steps, n, id);
      }
    }
  }

  lemma {:induction false} NotCreatedBefore(steps: seq<Step>, n: nat, id: nat)
    requires n < |steps| && FreshIds(steps) && Creates(steps[|steps| - 1], id)
    ensures CreatedAs(steps[..n], id).None?
  {
    if n > 0 {
      assert steps[..n][..n - 1] == steps[..n - 1];
      NotCreatedBefore(steps, n - 1, id);
    }
  }

  /** `consume_pending_echo` against the history: in every run from empty tables it takes a record
      exactly when one was sent, has not expired and was not taken before, and then an oldest one. */
  lemma EchoMatchesHistory(clock: Time, steps: seq<Step>, key: EchoKey, now: Time, taken: Option<nat>)
    requires Run(EMPTY, clock, steps, true) && FreshIds(steps) && LastClock(clock, steps) <= now
    ensures Allowed(Final(EMPTY, steps, true), now, ConsumeEcho(key), Consumed(taken)) <==>
      if taken.None? then forall id :: !Candidate(steps, key, now, id)
      else
        && Candidate(steps, key, now, taken.value)
        && forall id | Candidate(steps, key, now, id) ::
             CreatedAs(steps, taken.value).value.createdAt <= CreatedAs(steps, id).value.createdAt
  {
    PurgingIsInvisible(EMPTY, EMPTY, clock, steps);
    var t, h := Final(EMPTY, steps, true), Final(EMPTY, steps, false);
    SameLiveLater(t, h, LastClock(clock, steps), now);
    var live := LivePending(h.pending, now);
    assert LivePending(t.pending, now) == live;
    forall id: nat
      ensures Candidate(steps, key, now, id) <==> id in live && Matches(live[id], key)
      ensures id in live ==> CreatedAs(steps, id).Some? && live[id].createdAt == CreatedAs(steps, id).value.createdAt
    {
      HistoryRow(clock, steps, id);
    }
  }

  /** Each record is consumed at most once in a run. */
  lemma TakenOnce(clock: Time, steps: seq<Step>, now: Time, key: EchoKey, id: nat)
    requires Run(EMPTY, clock, steps + [Step(now, ConsumeEcho(key), Consumed(Some(id)))], true) && FreshIds(steps)
    ensures !Taken(steps, id)
  {
    RunAppend(EMPTY, clock, steps, Step(now, ConsumeEcho(key), Consumed(Some(id))), true);
    EchoMatchesHistory(clock, steps, key, now, Some(id));
  }

  /** Successful forwards of a text, and suppressions of it. */
  function Sent(steps: seq<Step>, key: EchoKey): nat {
    if steps == [] then 0
    else
      var s := steps[|steps| - 1];
      Sent(steps[..|steps| - 1], key)
      + if s.op.CreateRecord? && s.answer == Stored && s.op.key == key && s.op.status == AcceptedByMeshcore
        then 1 else 0
  }

  function Suppressed(steps: seq<Step>, key: EchoKey): nat {
    if steps == [] then 0
    else
      var s := steps[|steps| - 1];
      Suppressed(steps[..|steps| - 1], key)
      + if s.op == ConsumeEcho(key) && s.answer.Consumed? && s.answer.id.Some? then 1 else 0
  }

  function Unconsumed(pending: map<nat, Record>, key: EchoKey): set<nat> {
    set k | k in pending && Matches(pending[k], key)
  }

  /** Echo records are conserved: forwards of a text are its suppressions and what is left of its
      records in the history. */
  lemma {:induction false} EchoConservation(clock: Time, steps: seq<Step>, key: EchoKey)
    requires Run(EMPTY, clock, steps, false) && FreshIds(steps)
    ensures Sent(steps, key) == Suppressed(steps, key) + |Unconsumed(Final(EMPTY, steps, false).pending, key)|
  {
    if steps == [] {
      assert Unconsumed(EMPTY.pending, key) == {};
    } else {
      var n := |steps| - 1;
      var s := steps[n];
      assert steps == steps[..n] + [s];
      RunAppend(EMPTY, clock, steps[..n], s, false);
      assert FreshIds(steps[..n]);
      EchoConservation(clock, steps[..n], key);
      var pending := Final(EMPTY, steps[..n], false).pending;
      if s.op.CreateRecord? && s.answer == Stored {
        HistoryRow(clock, steps[..n], s.op.id);
        NotCreatedBefore(steps, n, s.op.id);
        UnconsumedInsert(pending, s.op.id, NewRecord(s.op, s.now), key);
      } else if s.op.ConsumeEcho? && s.answer.Consumed? && s.answer.id.Some? {
        UnconsumedFlip(pending, s.answer.id.value, s.op.key, key);
      }
    }
  }

  lemma UnconsumedInsert(pending: map<nat, Record>, id: nat, r: Record, key: EchoKey)
    requires id !in pending
    ensures |Unconsumed(pending[id := r], key)| == |Unconsumed(pending, key)| + if Matches(r, key) then 1 else 0
  {
    var after := Unconsumed(pending[id := r], key);
    assert after == Unconsumed(pending, key) + if Matches(r, key) then {id} else {};
  }

  lemma UnconsumedFlip(pending: map<nat, Record>, id: nat, taken: EchoKey, key: EchoKey)
    requires id in pending && Matches(pending[id], taken)
    ensures |Unconsumed(Flip(pending, id), key)| == |Unconsumed(pending, key)| - if taken == key then 1 else 0
  {
    assert Unconsumed(Flip(pending, id), key) == Unconsumed(pending, key) - {id};
    assert taken == key ==> id in Unconsumed(pending, key);
  }

  /** Suppressions of a text never exceed successful forwards of it. */
  lemma SuppressionsBounded(clock: Time, steps: seq<Step>, key: EchoKey)
    requires Run(EMPTY, clock, steps, true) && FreshIds(steps)
    ensures Suppressed(steps, key) <= Sent(steps, key)
  {
    PurgingIsInvisible(EMPTY, EMPTY, clock, steps);
    EchoConservation(clock, steps, key);
  }

  // The history of updates

  predicate Accepts(s: Step, u: int) {
    s.op == SeenUpdate(u) && s.answer == Seen(false)
  }

  /** When this update was last accepted as new. */
  function AcceptedAt(steps: seq<Step>, u: int): Option<Time> {
    if steps == [] then None
    else
      var s := steps[|steps| - 1];
      if Accepts(s, u) then Some(s.now) else AcceptedAt(steps[..|steps| - 1], u)
  }

  /** Each row of a run without purging is the last acceptance of its update. */
  lemma {:induction false} UpdateRow(clock: Time, steps: seq<Step>, u: int)
    requires Run(EMPTY, clock, steps, false)
    ensures var updates, at := Final(EMPTY, steps, false).updates, AcceptedAt(steps, u);
      && (u in updates <==> at.Some?)
      && (at.Some? ==> updates[u] == at.value + UPDATE_WINDOW && at.value <= LastClock(clock, steps))
  {
    if steps != [] {
      var n := |steps| - 1;
      var s := steps[n];
      assert steps == steps[..n] + [s];
      RunAppend(EMPTY, clock, steps[..n], s, false);
      UpdateRow(clock, steps[..n], u);
    }
  }

  /** The last acceptance is the latest one. */
  lemma {:induction false} AcceptedBefore(clock: Time, steps: seq<Step>, u: int, i: nat)
    requires Run(EMPTY, clock, steps, false) && i < |steps| && Accepts(steps[i], u)
    ensures AcceptedAt(steps, u).Some? && steps[i].now <= AcceptedAt(steps, u).value
  {
    var n := |steps| - 1;
    var s := steps[n];
    assert steps == steps[..n] + [s];
    RunAppend(EMPTY, clock, steps[..n], s, false);
    if i < n {
      AcceptedBefore(clock, steps[..n], u, i);
      UpdateRow(clock, steps[..n], u);
    }
  }

  lemma {:induction false} AcceptedSomewhere(steps: seq<Step>, u: int) returns (i: nat)
    requires AcceptedAt(steps, u).Some?
    ensures i < |steps| && Accepts(steps[i], u) && steps[i].now == AcceptedAt(steps, u).value
  {
    var n := |steps| - 1;
    if Accepts(steps[n], u) {
      i := n;
    } else {
      i := AcceptedSomewhere(steps[..n], u);
    }
  }

  /** An update is answered as seen exactly when the history holds an acceptance of it that is less
      than 3600 s old; purging does not matter. */
  lemma SeenMatchesHistory(clock: Time, steps: seq<Step>, u: int, now: Time, seen: bool)
    requires Run(EMPTY, clock, steps, true) && LastClock(clock, steps) <= now
    ensures Allowed(Final(EMPTY, steps, true), now, SeenUpdate(u), Seen(seen)) <==>
      (seen <==> exists i :: 0 <= i < |steps| && Accepts(steps[i], u) && now < steps[i].now + UPDATE_WINDOW)
  {
    PurgingIsInvisible(EMPTY, EMPTY, clock, steps);
    var purged, full := Final(EMPTY, steps, true), Final(EMPTY, steps, false);
    SameAnswers(purged, full, LastClock(clock, steps), now, SeenUpdate(u), Seen(seen), true, false);
    UpdateRow(clock, steps, u);
    if i :| 0 <= i < |steps| && Accepts(steps[i], u) && now < steps[i].now + UPDATE_WINDOW {
      AcceptedBefore(clock, steps, u, i);
    }
    if u in LiveUpdates(full.updates, now) {
      var i := AcceptedSomewhere(steps, u);
    }
  }
}
