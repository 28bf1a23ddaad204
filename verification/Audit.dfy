/** The audit trail over failing writes: events that name their cause, and legacy rows that go in
    with the event of the command they belong to. */
module Audit {
  import opened Models
  import opened Transactions

  const WRITE_RETRIES: nat := 3
  const INITIAL_BACKOFF: Time := 0.05

  datatype IgnoreReason = WrongChannel | RoomNotAllowed | Duplicate | RateLimited | NotACommand | SenderNotRegistered

  datatype ParseResult = NoCommand | Malformed | UnknownName | Recognized

  datatype AuthorizationReason = Allowed | DeniedRoom | DeniedSender | CommandNotReadonly | InsufficientRole

  datatype CommandResult = Unknown | Unauthorized | Succeeded | Failed

  /** What an event holds of one command. A command that is not registered stays unnamed. */
  datatype Execution = Execution(
    message: InboundMessage, command: Option<string>, result: CommandResult, durationMs: nat)

  datatype Kind =
    | MessageReceived
    | MessageIgnored(reason: IgnoreReason)
    | CommandParsed(result: ParseResult)
    | CommandAuthorization(decision: AuthorizationReason)
    | RuntimeOverride
    | CommandExecution(execution: Execution)
    | ResponseSent
    | ResponseFailed

  datatype AuditEvent = AuditEvent(id: nat, kind: Kind, correlation: nat, causation: Option<nat>)

  /** The legacy row of one command, under the name it was given by. */
  datatype CommandRow = CommandRow(
    message: InboundMessage, command: string, result: CommandResult, durationMs: nat, error: Option<string>)

  /** One command as it is handed to the flow. */
  datatype Call = Call(row: CommandRow, registered: bool) {
    function Described(): Execution {
      Execution(row.message, if registered then Some(row.command) else None, row.result, row.durationMs)
    }
  }

  /** Rows are kept in insertion order. An inbound row holds a message, its text as a digest. */
  datatype Tables = Tables(inbound: seq<InboundMessage>, commands: seq<CommandRow>, events: seq<AuditEvent>)

  /** What goes wrong during one attempt of a write: its BEGIN, one of its statements, its COMMIT.
      An event that validation refuses is a statement that raises. */
  datatype Fault = Fault(begin: Option<Error>, statement: Option<(nat, Error)>, commit: Option<Error>)

  const NO_FAULT := Fault(None, None, None)

  type Weather = nat -> Fault

  function Writes(statements: seq<Tables -> Tables>): seq<Node<Tables>> {
    if statements == [] then [] else [Write(statements[0])] + Writes(statements[1..])
  }

  function Body(statements: seq<Tables -> Tables>, fault: Option<(nat, Error)>): seq<Node<Tables>> {
    if fault.None? then Writes(statements)
    else if fault.value.0 < |statements| then Writes(statements[..fault.value.0]) + [Raise(fault.value.1)]
    else Writes(statements) + [Raise(fault.value.1)]
  }

  function Script(statements: seq<Tables -> Tables>, weather: Weather): nat -> Attempt<Tables> {
    (k: nat) => Attempt(weather(k).begin, Body(statements, weather(k).statement), weather(k).commit)
  }

  lemma {:induction false} WritesSurvive(statements: seq<Tables -> Tables>, rest: seq<Node<Tables>>)
    ensures Failure(Writes(statements) + rest) == Failure(rest)
    ensures Failure(Writes(statements)).None? && Survivors(Writes(statements)) == statements
  {
    var ws := Writes(statements);
    if statements == [] {
      assert ws + rest == rest;
    } else {
      WritesSurvive(statements[1..], rest);
      assert (ws + rest)[0] == ws[0] && (ws + rest)[1..] == Writes(statements[1..]) + rest;
      assert ws[1..] == Writes(statements[1..]);
    }
  }

  /** The first thing that goes wrong in an attempt. */
  function FirstError(f: Fault): Option<Error> {
    if f.begin.Some? then f.begin
    else if f.statement.Some? then Some(f.statement.value.1)
    else f.commit
  }

  /** An attempt ends in the first thing that goes wrong in it; it succeeds exactly when nothing
      does, and then every statement counts. */
  lemma AttemptIsAllOrNothing(statements: seq<Tables -> Tables>, weather: Weather, k: nat)
    ensures AttemptFailure(Script(statements, weather)(k)) == FirstError(weather(k))
    ensures AttemptFailure(Script(statements, weather)(k)).None? <==> weather(k) == NO_FAULT
    ensures weather(k) == NO_FAULT ==> Survivors(Script(statements, weather)(k).body) == statements
  {
    var w := weather(k);
    WritesSurvive(statements, []);
    assert Writes(statements) + [] == Writes(statements);
    if w.statement.Some? {
      var e: seq<Node<Tables>> := [Raise(w.statement.value.1)];
      assert Failure(e) == Some(w.statement.value.1);
      WritesSurvive(statements, e);
      if w.statement.value.0 < |statements| {
        WritesSurvive(statements[..w.statement.value.0], e);
      }
    }
  }

  /** A write gets through exactly when some attempt it may make meets no fault and all before it
      end on a lock. */
  ghost predicate GetsThrough(weather: Weather) {
    exists k: nat :: k <= WRITE_RETRIES && weather(k) == NO_FAULT && LockedBefore(weather, k)
  }

  ghost predicate LockedBefore(weather: Weather, k: nat) {
    forall i: nat | i < k :: FirstError(weather(i)) == Some(Locked)
  }

  lemma DecidedByWeather(statements: seq<Tables -> Tables>, weather: Weather)
    ensures AttemptFailure(Script(statements, weather)(Deciding(Script(statements, weather), WRITE_RETRIES, 0))).None?
      <==> GetsThrough(weather)
  {
    var script := Script(statements, weather);
    var n := Deciding(script, WRITE_RETRIES, 0);
    forall i: nat
      ensures AttemptFailure(script(i)) == FirstError(weather(i))
    {
      AttemptIsAllOrNothing(statements, weather, i);
    }
    AttemptIsAllOrNothing(statements, weather, n);
    if AttemptFailure(script(n)).None? {
      assert LockedBefore(weather, n);
    }
    if GetsThrough(weather) {
      var k: nat :| k <= WRITE_RETRIES && weather(k) == NO_FAULT && LockedBefore(weather, k);
      assert n >= k;
    }
  }

  // The causal forest

  /** An event with this id and correlation is stored. */
  predicate Names(events: seq<AuditEvent>, id: nat, correlation: nat) {
    if events == [] then false
    else
      var last := events[|events| - 1];
      (last.id == id && last.correlation == correlation) || Names(events[..|events| - 1], id, correlation)
  }

  predicate Caused(events: seq<AuditEvent>, causation: Option<nat>, correlation: nat) {
    causation.Some? ==> Names(events, causation.value, correlation)
  }

  function LastId(events: seq<AuditEvent>): int {
    if events == [] then -1 else events[|events| - 1].id
  }

  /** Events that hang on what was stored before them, under ever larger ids. */
  predicate Forest(events: seq<AuditEvent>) {
    if events == [] then true
    else
      var last, before := events[|events| - 1], events[..|events| - 1];
      Forest(before) && LastId(before) < last.id && Caused(before, last.causation, last.correlation)
  }

  lemma {:induction false} NamesMeans(events: seq<AuditEvent>, id: nat, correlation: nat)
    ensures Names(events, id, correlation)
      <==> exists j :: 0 <= j < |events| && events[j].id == id && events[j].correlation == correlation
  {
    if events != [] {
      var n := |events| - 1;
      NamesMeans(events[..n], id, correlation);
      assert forall j | 0 <= j < n :: events[..n][j] == events[j];
      assert Names(events[..n], id, correlation) ==>
          exists j :: 0 <= j < n && events[..n][j].id == id && events[..n][j].correlation == correlation;
    }
  }

  /** In a forest every event's cause is absent or is one event stored before it with the same
      correlation id, and no two events share an id. */
  lemma {:induction false} ForestMeans(events: seq<AuditEvent>, i: nat)
    requires Forest(events) && i < |events|
    ensures events[i].causation.Some? ==>
      exists j :: 0 <= j < i && events[j].id == events[i].causation.value
        && events[j].correlation == events[i].correlation
    ensures forall j | 0 <= j < i :: events[j].id < events[i].id
    ensures events[i].id <= LastId(events)
  {
    var n := |events| - 1;
    var before := events[..n];
    assert forall j | 0 <= j < n :: before[j] == events[j];
    if i < n {
      ForestMeans(before, i);
    } else {
      if events[i].causation.Some? {
        NamesMeans(before, events[i].causation.value, events[i].correlation);
        var j :| 0 <= j < n && before[j].id == events[i].causation.value
          && before[j].correlation == events[i].correlation;
        assert events[j] == before[j];
      }
      forall j | 0 <= j < i
        ensures events[j].id < events[i].id
      {
        ForestMeans(before, j);
      }
    }
  }

  /** An id names one event. */
  lemma SameIdSameEvent(events: seq<AuditEvent>, a: AuditEvent, b: AuditEvent)
    requires Forest(events) && a in events && b in events && a.id == b.id
    ensures a == b
  {
    var i :| 0 <= i < |events| && events[i] == a;
    var j :| 0 <= j < |events| && events[j] == b;
    ForestMeans(events, i);
    ForestMeans(events, j);
  }

  lemma ForestGrows(events: seq<AuditEvent>, e: AuditEvent)
    requires Forest(events) && LastId(events) < e.id && Caused(events, e.causation, e.correlation)
    ensures Forest(events + [e]) && LastId(events + [e]) == e.id
  {
    assert (events + [e])[..|events|] == events;
  }

  // Legacy rows and events

  /** The executions the events record, in order. */
  function Executions(events: seq<AuditEvent>): seq<Execution> {
    if events == [] then []
    else
      var last := events[|events| - 1];
      var before := Executions(events[..|events| - 1]);
      if last.kind.CommandExecution? then before + [last.kind.execution] else before
  }

  function Rows(calls: seq<Call>): seq<CommandRow> {
    seq(|calls|, i requires 0 <= i < |calls| => calls[i].row)
  }

  function Messages(calls: seq<Call>): seq<InboundMessage> {
    seq(|calls|, i requires 0 <= i < |calls| => calls[i].row.message)
  }

  function Descriptions(calls: seq<Call>): seq<Execution> {
    seq(|calls|, i requires 0 <= i < |calls| => calls[i].Described())
  }

  /** Row for row, the inbound messages, the legacy rows and the execution events record the same
      calls. */
  ghost predicate Agree(t: Tables, calls: seq<Call>) {
    t.inbound == Messages(calls) && t.commands == Rows(calls) && Executions(t.events) == Descriptions(calls)
  }

  /** What a legacy row and an event have in common when they come from one call. */
  predicate Corresponds(row: CommandRow, x: Execution, registered: bool) {
    && x.message == row.message && x.result == row.result && x.durationMs == row.durationMs
    && x.command == if registered then Some(row.command) else None
  }

  /** Agreement, row by row: as many inbound messages and events as legacy rows, and the i-th of
      them of one command, whose name the event holds exactly if it is registered. */
  lemma RowsCorrespond(t: Tables, calls: seq<Call>, i: nat)
    requires Agree(t, calls)
    ensures |t.inbound| == |t.commands| == |Executions(t.events)| == |calls|
    ensures i < |t.commands| ==>
      t.inbound[i] == t.commands[i].message
      && Corresponds(t.commands[i], Executions(t.events)[i], calls[i].registered)
  {
    assert |Descriptions(calls)| == |calls| && |Rows(calls)| == |calls| && |Messages(calls)| == |calls|;
    if i < |calls| {
      assert Descriptions(calls)[i] == calls[i].Described() && Rows(calls)[i] == calls[i].row;
    }
  }

  function InsertInbound(m: InboundMessage): Tables -> Tables {
    (t: Tables) => t.(inbound := t.inbound + [m])
  }

  function InsertCommand(r: CommandRow): Tables -> Tables {
    (t: Tables) => t.(commands := t.commands + [r])
  }

  function InsertEvent(e: AuditEvent): Tables -> Tables {
    (t: Tables) => t.(events := t.events + [e])
  }

  lemma ExecutionsGrow(events: seq<AuditEvent>, e: AuditEvent)
    ensures Executions(events + [e]) == Executions(events)
      + if e.kind.CommandExecution? then [e.kind.execution] else []
  {
    assert (events + [e])[..|events|] == events;
  }

  lemma AgreeGrows(t: Tables, calls: seq<Call>, e: AuditEvent, call: Call)
    requires Agree(t, calls) && e.kind == Kind.CommandExecution(call.Described())
    ensures Agree(WithExecution(t, call.row, e), calls + [call])
  {
    ExecutionsGrow(t.events, e);
    assert Rows(calls + [call]) == Rows(calls) + [call.row];
    assert Messages(calls + [call]) == Messages(calls) + [call.row.message];
    assert Descriptions(calls + [call]) == Descriptions(calls) + [call.Described()];
  }

  /** The stored events are a causal forest with identifiers in use, and the legacy rows agree. */
  ghost predicate Sound(t: Tables, calls: seq<Call>, nextId: nat) {
    Forest(t.events) && LastId(t.events) < nextId && Agree(t, calls)
  }

  function WithEvent(t: Tables, e: AuditEvent): Tables {
    t.(events := t.events + [e])
  }

  function WithExecution(t: Tables, row: CommandRow, e: AuditEvent): Tables {
    Tables(t.inbound + [row.message], t.commands + [row], t.events + [e])
  }

  lemma EventIsSound(t: Tables, calls: seq<Call>, e: AuditEvent)
    requires Sound(t, calls, e.id) && Caused(t.events, e.causation, e.correlation) && !e.kind.CommandExecution?
    ensures Sound(WithEvent(t, e), calls, e.id + 1)
  {
    ForestGrows(t.events, e);
    ExecutionsGrow(t.events, e);
  }

  lemma ExecutionIsSound(t: Tables, calls: seq<Call>, call: Call, e: AuditEvent)
    requires Sound(t, calls, e.id) && Caused(t.events, e.causation, e.correlation)
    requires e.kind == Kind.CommandExecution(call.Described())
    ensures Sound(WithExecution(t, call.row, e), calls + [call], e.id + 1)
  {
    ForestGrows(t.events, e);
    AgreeGrows(t, calls, e, call);
  }

  // What a trail tells

  /** What a trail was asked to record, and the events of it that were stored. */
  datatype Tale = Tale(told: seq<Kind>, stored: seq<AuditEvent>) {

    function Latest(): Option<nat> {
      LatestOf(stored)
    }

    /** How many writes failed. */
    function Lost(): int {
      |told| - |stored|
    }

    function Next(e: AuditEvent, ok: bool): Tale {
      Tale(told + [e.kind], if ok then stored + [e] else stored)
    }
  }

  function LatestOf(events: seq<AuditEvent>): Option<nat> {
    if events == [] then None else Some(events[|events| - 1].id)
  }

  /** What an event hangs on: an ignored message on its reception, anything else on the latest event. */
  function Cause(kind: Kind, received: Option<nat>, latest: Option<nat>): Option<nat> {
    if kind.MessageIgnored? then received else latest
  }

  /** Every event hangs where it should, whatever was lost before it. */
  predicate Chain(events: seq<AuditEvent>, received: Option<nat>, correlation: nat) {
    if events == [] then true
    else
      var last, before := events[|events| - 1], events[..|events| - 1];
      && Chain(before, received, correlation)
      && last.correlation == correlation && last.causation == Cause(last.kind, received, LatestOf(before))
  }

  function Kinds(events: seq<AuditEvent>): seq<Kind> {
    seq(|events|, i requires 0 <= i < |events| => events[i].kind)
  }

  predicate Subsequence(xs: seq<Kind>, ys: seq<Kind>) {
    if xs == [] || ys == [] then xs == []
    else
      var x, y := |xs| - 1, |ys| - 1;
      (xs[x] == ys[y] && Subsequence(xs[..x], ys[..y])) || Subsequence(xs, ys[..y])
  }

  predicate Received(events: seq<AuditEvent>) {
    events != [] && events[0].kind.MessageReceived?
  }

  ghost predicate Coherent(tale: Tale, received: Option<nat>, correlation: nat) {
    && Subsequence(Kinds(tale.stored), tale.told)
    && Chain(tale.stored, received, correlation)
    && received == (if Received(tale.stored) then Some(tale.stored[0].id) else None)
  }

  lemma TaleGrows(tale: Tale, e: AuditEvent, ok: bool, received: Option<nat>, correlation: nat)
    requires Coherent(tale, received, correlation)
    requires e.correlation == correlation && e.causation == Cause(e.kind, received, tale.Latest())
    requires !e.kind.MessageReceived?
    ensures Coherent(tale.Next(e, ok), received, correlation)
  {
    var told, stored := tale.told, tale.stored;
    assert (told + [e.kind])[..|told|] == told;
    if ok {
      assert (stored + [e])[..|stored|] == stored;
      assert Kinds(stored + [e]) == Kinds(stored) + [e.kind];
      assert (Kinds(stored) + [e.kind])[..|stored|] == Kinds(stored);
    }
  }

  lemma {:induction false} SubsequenceLength(xs: seq<Kind>, ys: seq<Kind>)
    requires Subsequence(xs, ys)
    ensures |xs| <= |ys| && (|xs| == |ys| ==> xs == ys)
  {
    if xs != [] && ys != [] {
      var x, y := |xs| - 1, |ys| - 1;
      if xs[x] == ys[y] && Subsequence(xs[..x], ys[..y]) {
        SubsequenceLength(xs[..x], ys[..y]);
        assert xs == xs[..x] + [xs[x]] && ys == ys[..y] + [ys[y]];
      } else {
        SubsequenceLength(xs, ys[..y]);
      }
    }
  }

  /** Every event but the first was caused by the one before it. */
  predicate OneChain(events: seq<AuditEvent>) {
    forall i {:trigger Linked(events, i)} | 0 <= i < |events| :: Linked(events, i)
  }

  predicate Linked(events: seq<AuditEvent>, i: int)
    requires 0 <= i < |events|
  {
    events[i].causation == if i == 0 then None else Some(events[i - 1].id)
  }

  /** A tale that lost nothing is the whole tale, and every event in it but an ignored message was
      caused by the one before. */
  lemma WholeTaleIsChain(tale: Tale, received: Option<nat>, correlation: nat, i: nat)
    requires Coherent(tale, received, correlation) && tale.Lost() == 0 && i < |tale.told|
    ensures Kinds(tale.stored) == tale.told && tale.stored[i].correlation == correlation
    ensures !tale.told[i].MessageIgnored? ==> Linked(tale.stored, i)
  {
    SubsequenceLength(Kinds(tale.stored), tale.told);
    assert tale.stored[i].kind == Kinds(tale.stored)[i];
    ChainAt(tale.stored, received, correlation, i);
  }

  /** Nothing is ignored but right after the reception. */
  predicate IgnoredAtOnce(told: seq<Kind>) {
    forall i | 0 <= i < |told| && told[i].MessageIgnored? :: i == 1
  }

  /** A trail that lost nothing is one chain exactly if nothing was ignored but right after its
      reception: later on, the ignored message hangs beside what was stored since. */
  lemma OneChainExactly(tale: Tale, received: Option<nat>, correlation: nat, events: seq<AuditEvent>)
    requires Coherent(tale, received, correlation) && tale.Lost() == 0
    requires Forest(events) && forall e | e in tale.stored :: e in events
    requires forall i | 0 <= i < |tale.told| :: tale.told[i].MessageReceived? <==> i == 0
    ensures OneChain(tale.stored) <==> IgnoredAtOnce(tale.told)
  {
    SubsequenceLength(Kinds(tale.stored), tale.told);
    if IgnoredAtOnce(tale.told) {
      forall i | 0 <= i < |tale.stored|
        ensures Linked(tale.stored, i)
      {
        LinkAt(tale, received, correlation, events, i);
      }
    } else {
      var i :| 0 <= i < |tale.told| && tale.told[i].MessageIgnored? && i != 1;
      LinkAt(tale, received, correlation, events, i);
    }
  }

  /** In a trail that lost nothing, an event was caused by its predecessor exactly if it is no
      ignored message or directly follows the reception. */
  lemma LinkAt(tale: Tale, received: Option<nat>, correlation: nat, events: seq<AuditEvent>, i: nat)
    requires Coherent(tale, received, correlation) && tale.Lost() == 0 && i < |tale.stored|
    requires Forest(events) && forall e | e in tale.stored :: e in events
    requires forall j | 0 <= j < |tale.told| :: tale.told[j].MessageReceived? <==> j == 0
    ensures Linked(tale.stored, i) <==> !tale.told[i].MessageIgnored? || i == 1
  {
    var es := tale.stored;
    WholeTaleIsChain(tale, received, correlation, i);
    ChainAt(es, received, correlation, i);
    assert es[0].kind == Kinds(es)[0] && es[i].kind == Kinds(es)[i];
    if i > 1 && es[i - 1].id == es[0].id {
      assert es[i - 1].kind == Kinds(es)[i - 1];
      SameIdSameEvent(events, es[i - 1], es[0]);
    }
  }

  lemma {:induction false} ChainAt(events: seq<AuditEvent>, received: Option<nat>, correlation: nat, i: nat)
    requires Chain(events, received, correlation) && i < |events|
    ensures events[i].correlation == correlation
    ensures events[i].causation == Cause(events[i].kind, received, if i == 0 then None else Some(events[i - 1].id))
  {
    var n := |events| - 1;
    if i < n {
      ChainAt(events[..n], received, correlation, i);
    }
  }

  /** A message's trail: where its next event hangs. */
  class AuditTrail {
    const message: InboundMessage
    const receivedId: Option<nat>
    var latestId: Option<nat>
    ghost var tale: Tale

    constructor (message: InboundMessage, receivedId: Option<nat>, ghost tale: Tale)
      ensures this.message == message && this.receivedId == receivedId && latestId == receivedId && this.tale == tale
    {
      this.message, this.receivedId, latestId := message, receivedId, receivedId;
      this.tale := tale;
    }

    function Correlation(): nat {
      message.correlationId
    }

    method Child(eventId: Option<nat>)
      modifies this`latestId
      ensures latestId == if eventId.Some? then eventId else old(latestId)
    {
      if eventId.Some? {
        latestId := eventId;
      }
    }

    /** The trail's tale is stored among the events, and its identifiers come from it. */
    ghost predicate Anchored(events: seq<AuditEvent>)
      reads this
    {
      && Coherent(tale, receivedId, Correlation())
      && latestId == tale.Latest()
      && (forall e | e in tale.stored :: e in events)
    }

    /** What a trail's identifiers name is stored, with the trail's correlation id. */
    lemma AnchoredMeans(events: seq<AuditEvent>)
      requires Anchored(events)
      ensures Caused(events, receivedId, Correlation()) && Caused(events, latestId, Correlation())
    {
      if tale.stored != [] {
        var n := |tale.stored| - 1;
        forall i | 0 <= i <= n
          ensures Names(events, tale.stored[i].id, Correlation())
        {
          ChainAt(tale.stored, receivedId, Correlation(), i);
          assert tale.stored[i] in events;
          NamesMeans(events, tale.stored[i].id, Correlation());
        }
      }
    }
  }

  /** The flow with the normalised audit enabled. */
  class AuditFlow {
    const connection: Connection<Tables>
    /** Identifiers below this one may be in use. */
    var nextId: nat
    ghost var trails: set<AuditTrail>
    /** The commands whose three rows were stored. */
    ghost var calls: seq<Call>

    function Stored(): Tables
      reads connection
    {
      connection.current
    }

    /** The stored events are a causal forest in which every trail is anchored, and they agree with
        the legacy rows. */
    ghost predicate Valid()
      reads this, connection, trails
    {
      && connection.snapshots == []
      && Sound(Stored(), calls, nextId)
      && (forall t {:trigger t.Anchored(Stored().events)} | t in trails :: t.Anchored(Stored().events))
    }

    constructor (connection: Connection<Tables>)
      requires connection.snapshots == [] && connection.current == Tables([], [], [])
      ensures Valid() && this.connection == connection && trails == {} && calls == []
    {
      this.connection := connection;
      nextId := 0;
      trails, calls := {}, [];
    }

    /** One write transaction over the given statements: it is retried over locks, and it takes
        effect exactly when it gets through. */
    method Transact(statements: seq<Tables -> Tables>, weather: Weather) returns (ok: bool)
      requires connection.snapshots == []
      modifies connection
      ensures connection.snapshots == []
      ensures Stored() == if ok then Apply(statements, old(Stored())) else old(Stored())
      ensures ok <==> GetsThrough(weather)
    {
      var error, attempts, slept := connection.WriteTransaction(Script(statements, weather), WRITE_RETRIES,
        INITIAL_BACKOFF);
      AttemptIsAllOrNothing(statements, weather, attempts - 1);
      DecidedByWeather(statements, weather);
      ok := error.None?;
    }

    /** One event alone: it is stored, or nothing changes. */
    method InsertAlone(e: AuditEvent, weather: Weather) returns (ok: bool)
      requires Valid() && e.id == nextId && !e.kind.CommandExecution?
      requires Caused(Stored().events, e.causation, e.correlation)
      modifies this`nextId, connection
      ensures Valid() && nextId == old(nextId) + 1
      ensures Stored() == if ok then WithEvent(old(Stored()), e) else old(Stored())
      ensures ok <==> GetsThrough(weather)
    {
      EventIsSound(Stored(), calls, e);
      assert forall t | t in trails :: t.Anchored(Stored().events);
      nextId := nextId + 1;
      ok := Transact([InsertEvent(e)], weather);
    }

    /** The trail of a received message; when its event cannot be stored, a trail without one. */
    method MessageReceived(message: InboundMessage, weather: Weather) returns (trail: AuditTrail)
      requires Valid()
      modifies this`nextId, this`trails, connection
      ensures Valid() && fresh(trail) && trails == old(trails) + {trail} && trail.message == message
      ensures nextId == old(nextId) + 1
      ensures var e := AuditEvent(old(nextId), Kind.MessageReceived, message.correlationId, None);
        && trail.tale == Tale([], []).Next(e, trail.receivedId.Some?)
        && Stored() == if trail.receivedId.Some? then WithEvent(old(Stored()), e) else old(Stored())
      ensures trail.receivedId.Some? ==> trail.receivedId == Some(old(nextId))
      ensures trail.latestId == trail.receivedId
      ensures trail.receivedId.Some? <==> GetsThrough(weather)
    {
      var e := AuditEvent(nextId, Kind.MessageReceived, message.correlationId, None);
      var ok := InsertAlone(e, weather);
      trail := Adopt(message, if ok then Some(e.id) else None, e);
    }

    /** A new trail whose first event is stored, if it has one. */
    method Adopt(message: InboundMessage, receivedId: Option<nat>, ghost e: AuditEvent) returns (trail: AuditTrail)
      requires Valid() && e.kind.MessageReceived? && e.causation == None && e.correlation == message.correlationId
      requires receivedId.Some? ==> receivedId == Some(e.id) && e in Stored().events
      modifies this`trails
      ensures Valid() && fresh(trail) && trails == old(trails) + {trail}
      ensures trail.message == message && trail.receivedId == trail.latestId == receivedId
      ensures trail.tale == Tale([], []).Next(e, receivedId.Some?)
    {
      FirstIsCoherent(e, receivedId.Some?);
      trail := new AuditTrail(message, receivedId, Tale([], []).Next(e, receivedId.Some?));
      assert trail.Anchored(Stored().events);
      trails := trails + {trail};
    }

    /** Any later event of a trail but an execution. An ignored message hangs on its reception,
        everything else on the latest event; a failed write leaves the trail where it was. */
    method Record(trail: AuditTrail, kind: Kind, weather: Weather) returns (ok: bool)
      requires Valid() && trail in trails && !kind.CommandExecution? && !kind.MessageReceived?
      modifies this`nextId, connection, trail
      ensures Valid() && nextId == old(nextId) + 1
      ensures var e := AuditEvent(old(nextId), kind, trail.Correlation(),
        Cause(kind, trail.receivedId, old(trail.latestId)));
        && trail.tale == old(trail.tale).Next(e, ok)
        && Stored() == if ok then WithEvent(old(Stored()), e) else old(Stored())
      ensures ok <==> GetsThrough(weather)
    {
      var e := AuditEvent(nextId, kind, trail.Correlation(), Cause(kind, trail.receivedId, trail.latestId));
      assert trail.Anchored(Stored().events);
      trail.AnchoredMeans(Stored().events);
      ok := InsertAlone(e, weather);
      Follow(trail, e, ok);
    }

    /** A command's three rows: the inbound message, the legacy execution and its event, all of them
        or none. */
    method CommandExecution(trail: AuditTrail, row: CommandRow, registered: bool, weather: Weather) returns (ok: bool)
      requires Valid() && trail in trails && row.message == trail.message
      modifies this`nextId, this`calls, connection, trail
      ensures Valid() && nextId == old(nextId) + 1
      ensures calls == if ok then old(calls) + [Call(row, registered)] else old(calls)
      ensures var kind := Kind.CommandExecution(Call(row, registered).Described());
        var e := AuditEvent(old(nextId), kind, trail.Correlation(), old(trail.latestId));
        && trail.tale == old(trail.tale).Next(e, ok)
        && Stored() == if ok then WithExecution(old(Stored()), row, e) else old(Stored())
      ensures ok <==> GetsThrough(weather)
    {
      var x := Execution(trail.message, if registered then Some(row.command) else None, row.result, row.durationMs);
      var e := AuditEvent(nextId, Kind.CommandExecution(x), trail.Correlation(), trail.latestId);
      assert trail.Anchored(Stored().events);
      trail.AnchoredMeans(Stored().events);
      ok := InsertExecution(row, e, Call(row, registered), weather);
      Follow(trail, e, ok);
    }

    method InsertExecution(row: CommandRow, e: AuditEvent, ghost call: Call, weather: Weather) returns (ok: bool)
      requires Valid() && e.id == nextId && e.kind == Kind.CommandExecution(call.Described()) && call.row == row
      requires Caused(Stored().events, e.causation, e.correlation)
      modifies this`nextId, this`calls, connection
      ensures Valid() && nextId == old(nextId) + 1
      ensures Stored() == if ok then WithExecution(old(Stored()), row, e) else old(Stored())
      ensures calls == if ok then old(calls) + [call] else old(calls)
      ensures ok <==> GetsThrough(weather)
    {
      ExecutionIsSound(Stored(), calls, call, e);
      assert forall t | t in trails :: t.Anchored(Stored().events);
      nextId := nextId + 1;
      ThreeRows(Stored(), row, e);
      ok := Transact([InsertInbound(row.message), InsertCommand(row), InsertEvent(e)], weather);
      if ok {
        calls := calls + [call];
      }
    }

    /** The trail moves to an event that was stored. */
    method Follow(trail: AuditTrail, e: AuditEvent, ok: bool)
      requires Valid() && trail in trails && e.correlation == trail.Correlation()
      requires e.causation == Cause(e.kind, trail.receivedId, trail.latestId)
      requires !e.kind.MessageReceived? && (ok ==> e in Stored().events)
      modifies trail
      ensures Valid() && trail.tale == old(trail.tale).Next(e, ok)
    {
      assert forall t | t in trails :: t.Anchored(Stored().events);
      TaleGrows(trail.tale, e, ok, trail.receivedId, trail.Correlation());
      if ok {
        trail.Child(Some(e.id));
      }
      trail.tale := trail.tale.Next(e, ok);
    }
  }

  lemma FirstIsCoherent(e: AuditEvent, ok: bool)
    requires e.kind.MessageReceived? && e.causation == None
    ensures Coherent(Tale([], []).Next(e, ok), if ok then Some(e.id) else None, e.correlation)
  {
  }

  lemma ThreeRows(t: Tables, row: CommandRow, e: AuditEvent)
    ensures Apply([InsertInbound(row.message), InsertCommand(row), InsertEvent(e)], t) == WithExecution(t, row, e)
  {
    var f, g, h := InsertInbound(row.message), InsertCommand(row), InsertEvent(e);
    ApplyConcat([f], [g, h], t);
    ApplyConcat([g], [h], f(t));
    assert [f] + [g, h] == [f, g, h] && [g] + [h] == [g, h];
    assert Apply([f], t) == f(t) && Apply([g], f(t)) == g(f(t)) && Apply([h], g(f(t))) == h(g(f(t)));
  }
}
