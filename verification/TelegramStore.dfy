/** The Telegram bridge's persistent tables: update deduplication, pending echo records and
    key/value state. Keyed hashes are injective, so rows are keyed by what they hash. */
module TelegramStore {
  import opened Models

  const UPDATE_WINDOW: Time := 3600.0
  const PENDING_WINDOW: Time := 600.0

  datatype Status = AcceptedByMeshcore | AcceptedByTelegram | ObservedEcho | Failed | Dropped

  /** What identifies an echo: where it was sent, and the text with its size. */
  datatype EchoKey = EchoKey(transport: string, roomId: string, content: string, size: nat)

  datatype Record = Record(key: EchoKey, status: Status, createdAt: Time, expiresAt: Time)

  /** State values are decimal texts in the source; here they are the numbers. */
  datatype Tables = Tables(state: map<string, int>, updates: map<int, Time>, pending: map<nat, Record>)

  const EMPTY := Tables(map[], map[], map[])

  datatype Op =
    | SeenUpdate(updateId: int)
    | CreateRecord(id: nat, key: EchoKey, status: Status)
    | ConsumeEcho(key: EchoKey)
    | SetState(name: string, value: int)

  /** What an operation answers; a storage error is a possible answer of every one. */
  datatype Answer = StorageError | Seen(seen: bool) | Stored | Consumed(id: Option<nat>)

  function LiveUpdates(updates: map<int, Time>, now: Time): map<int, Time> {
    map u | u in updates && !(updates[u] <= now) :: updates[u]
  }

  function LivePending(pending: map<nat, Record>, now: Time): map<nat, Record> {
    map k | k in pending && !(pending[k].expiresAt <= now) :: pending[k]
  }

  predicate Matches(r: Record, key: EchoKey) {
    r.key == key && r.status == AcceptedByMeshcore
  }

  /** A matching record, created no later than any other matching one. Which of several created
      at the same instant is taken is left open, as SQL leaves it. */
  predicate IsOldest(pending: map<nat, Record>, key: EchoKey, id: nat) {
    && id in pending && Matches(pending[id], key)
    && forall k | k in pending && Matches(pending[k], key) :: pending[id].createdAt <= pending[k].createdAt
  }

  predicate NoMatch(pending: map<nat, Record>, key: EchoKey) {
    forall k | k in pending :: !Matches(pending[k], key)
  }

  /** The answers an operation may give at `now`. */
  predicate Allowed(t: Tables, now: Time, op: Op, answer: Answer) {
    var live := LivePending(t.pending, now);
    answer == StorageError ||
    match op
    case SeenUpdate(u) => answer == Seen(u in LiveUpdates(t.updates, now))
    case CreateRecord(id, _, _) => answer == Stored && id !in live
    case ConsumeEcho(key) =>
      answer.Consumed? && if answer.id.Some? then IsOldest(live, key, answer.id.value) else NoMatch(live, key)
    case SetState(_, _) => answer == Stored
  }

  function NewRecord(op: Op, now: Time): Record
    requires op.CreateRecord?
  {
    Record(op.key, op.status, now, now + PENDING_WINDOW)
  }

  function Flip(pending: map<nat, Record>, id: nat): map<nat, Record> {
    if id in pending then pending[id := pending[id].(status := ObservedEcho)] else pending
  }

  /** The tables after an operation that purged what had expired, or one that did not purge. */
  function Effect(t: Tables, now: Time, op: Op, answer: Answer, purge: bool): Tables {
    var updates := if purge then LiveUpdates(t.updates, now) else t.updates;
    var pending := if purge then LivePending(t.pending, now) else t.pending;
    match op
    case SeenUpdate(u) =>
      if answer == Seen(false) then t.(updates := updates[u := now + UPDATE_WINDOW])
      else if answer == Seen(true) then t.(updates := updates)
      else t
    case CreateRecord(id, _, _) =>
      if answer == Stored then t.(pending := pending[id := NewRecord(op, now)]) else t
    case ConsumeEcho(_) =>
      if answer.Consumed? then t.(pending := if answer.id.Some? then Flip(pending, answer.id.value) else pending)
      else t
    case SetState(name, value) =>
      if answer == Stored then t.(state := t.state[name := value]) else t
  }

  function After(t: Tables, now: Time, op: Op, answer: Answer): Tables {
    Effect(t, now, op, answer, true)
  }

  class TelegramStore {
    var state: map<string, int>
    var updates: map<int, Time>
    var pending: map<nat, Record>

    function Contents(): Tables
      reads this
    {
      Tables(state, updates, pending)
    }

    constructor (t: Tables)
      ensures Contents() == t
    {
      state, updates, pending := t.state, t.updates, t.pending;
    }

    function LastUpdateId(): Option<int>
      reads this
    {
      if "last_update_id" in state then Some(state["last_update_id"]) else None
    }

    method PersistLastUpdateId(updateId: int, fails: bool) returns (answer: Answer)
      modifies this
      ensures answer.StorageError? <==> fails
      ensures Allowed(old(Contents()), 0.0, SetState("last_update_id", updateId), answer)
      ensures Contents() == After(old(Contents()), 0.0, SetState("last_update_id", updateId), answer)
    {
      if fails {
        return StorageError;
      }
      state := state["last_update_id" := updateId];
      return Stored;
    }

    method SeenOrStoreUpdate(updateId: int, now: Time, fails: bool) returns (answer: Answer)
      modifies this
      ensures answer.StorageError? <==> fails
      ensures Allowed(old(Contents()), now, SeenUpdate(updateId), answer)
      ensures Contents() == After(old(Contents()), now, SeenUpdate(updateId), answer)
    {
      if fails {
        return StorageError;
      }
      updates := map u | u in updates && !(updates[u] <= now) :: updates[u];
      if updateId in updates {
        return Seen(true);
      }
      updates := updates[updateId := now + UPDATE_WINDOW];
      return Seen(false);
    }

    /** `id` is a fresh identifier. */
    method CreateBridgeRecord(id: nat, key: EchoKey, status: Status, now: Time, fails: bool) returns (answer: Answer)
      requires id !in pending
      modifies this
      ensures answer.StorageError? <==> fails
      ensures Allowed(old(Contents()), now, CreateRecord(id, key, status), answer)
      ensures Contents() == After(old(Contents()), now, CreateRecord(id, key, status), answer)
    {
      if fails {
        return StorageError;
      }
      pending := map k | k in pending && !(pending[k].expiresAt <= now) :: pending[k];
      pending := pending[id := Record(key, status, now, now + PENDING_WINDOW)];
      return Stored;
    }

    method ConsumePendingEcho(key: EchoKey, now: Time, fails: bool) returns (answer: Answer)
      modifies this
      ensures answer.StorageError? <==> fails
      ensures Allowed(old(Contents()), now, ConsumeEcho(key), answer)
      ensures Contents() == After(old(Contents()), now, ConsumeEcho(key), answer)
    {
      if fails {
        return StorageError;
      }
      pending := map k | k in pending && !(pending[k].expiresAt <= now) :: pending[k];
      if forall k | k in pending :: !Matches(pending[k], key) {
        return Consumed(None);
      }
      ghost var matching := set k | k in pending && Matches(pending[k], key);
      ghost var some :| some in pending && Matches(pending[some], key);
      assert some in matching;
      ghost var oldest := OldestExists(pending, matching);
      assert IsOldest(pending, key, oldest);
      var best :| best in pending && IsOldest(pending, key, best);
      pending := pending[best := pending[best].(status := ObservedEcho)];
      return Consumed(Some(best));
    }
  }

  lemma {:induction false} OldestExists(pending: map<nat, Record>, ids: set<nat>) returns (best: nat)
    requires ids != {} && ids <= pending.Keys
    ensures best in ids && forall k | k in ids :: pending[best].createdAt <= pending[k].createdAt
    decreases |ids|
  {
    var first :| first in ids;
    var rest := ids - {first};
    best := first;
    if rest != {} {
      var other := OldestExists(pending, rest);
      best := if pending[other].createdAt < pending[first].createdAt then other else first;
    }
    assert forall k | k in ids :: k == first || k in rest;
  }

  // Purging is invisible: the tables matter only through their unexpired rows

  /** The same state, and the same rows still unexpired at `clock`. */
  ghost predicate SameLive(a: Tables, b: Tables, clock: Time) {
    && a.state == b.state
    && LiveUpdates(a.updates, clock) == LiveUpdates(b.updates, clock)
    && LivePending(a.pending, clock) == LivePending(b.pending, clock)
  }

  lemma LiveLater(a: Tables, clock: Time, now: Time)
    requires clock <= now
    ensures LiveUpdates(LiveUpdates(a.updates, clock), now) == LiveUpdates(a.updates, now)
    ensures LivePending(LivePending(a.pending, clock), now) == LivePending(a.pending, now)
  {
  }

  lemma SameLiveLater(a: Tables, b: Tables, clock: Time, now: Time)
    requires SameLive(a, b, clock) && clock <= now
    ensures SameLive(a, b, now)
  {
    LiveLater(a, clock, now);
    LiveLater(b, clock, now);
  }

  /** The unexpired rows after an operation depend on nothing but the unexpired rows before it,
      and not on whether it purged the others. */
  lemma LiveEffect(t: Tables, now: Time, op: Op, answer: Answer, purge: bool)
    requires Allowed(t, now, op, answer)
    ensures SameLive(Effect(t, now, op, answer, purge),
      Effect(Tables(t.state, LiveUpdates(t.updates, now), LivePending(t.pending, now)), now, op, answer, false), now)
  {
    LiveLater(t, now, now);
    if op.SeenUpdate? && answer == Seen(false) {
      LiveInsertUpdate(t.updates, now, op.updateId);
      LiveInsertUpdate(LiveUpdates(t.updates, now), now, op.updateId);
    }
    if op.CreateRecord? && answer == Stored {
      LiveInsertRecord(t.pending, now, op.id, NewRecord(op, now));
      LiveInsertRecord(LivePending(t.pending, now), now, op.id, NewRecord(op, now));
    }
    if op.ConsumeEcho? && answer.Consumed? && answer.id.Some? {
      LiveFlip(t.pending, now, answer.id.value);
      LiveFlip(LivePending(t.pending, now), now, answer.id.value);
    }
  }

  lemma LiveInsertUpdate(updates: map<int, Time>, now: Time, u: int)
    ensures LiveUpdates(updates[u := now + UPDATE_WINDOW], now) == LiveUpdates(updates, now)[u := now + UPDATE_WINDOW]
  {
  }

  lemma LiveInsertRecord(pending: map<nat, Record>, now: Time, id: nat, r: Record)
    requires r.expiresAt > now
    ensures LivePending(pending[id := r], now) == LivePending(pending, now)[id := r]
  {
  }

  lemma LiveFlip(pending: map<nat, Record>, now: Time, id: nat)
    ensures LivePending(Flip(pending, id), now) == Flip(LivePending(pending, now), id)
  {
  }

  /** Stores with the same unexpired rows allow the same answers, and stay alike whether each of
      them purges or not. */
  lemma SameAnswers(a: Tables, b: Tables, clock: Time, now: Time, op: Op, answer: Answer, purgeA: bool, purgeB: bool)
    requires SameLive(a, b, clock) && clock <= now
    ensures Allowed(a, now, op, answer) <==> Allowed(b, now, op, answer)
    ensures Allowed(a, now, op, answer) ==>
      SameLive(Effect(a, now, op, answer, purgeA), Effect(b, now, op, answer, purgeB), now)
  {
    SameLiveLater(a, b, clock, now);
    if Allowed(a, now, op, answer) {
      LiveEffect(a, now, op, answer, purgeA);
      LiveEffect(b, now, op, answer, purgeB);
    }
  }
}
