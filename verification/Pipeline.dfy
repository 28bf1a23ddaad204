/** The command pipeline: what a message passes before a handler runs, what is answered and what
    the audit tells. */
module Pipeline {
  import opened Models
  import opened Audit
  import opened Authorization
  import Deduplication
  import LoraTrim
  import RateLimit

  datatype ParsedCommand = ParsedCommand(name: string, args: seq<string>)

  datatype CommandDefinition = CommandDefinition(name: string, minimumRole: Role)

  /** What a handler comes back with, after recording some runtime override events. */
  datatype Outcome =
    | Returned(overrides: nat, text: string)
    | Raised(overrides: nat, exception: string, text: string)

  datatype Route =
    | NoRoute
    | UnknownCommand(parsed: ParsedCommand)
    | Denied(parsed: ParsedCommand, reason: AuthorizationReason)
    | Permitted(parsed: ParsedCommand, definition: CommandDefinition, user: AuthorizedUser)

  /** The fixed texts of the bridge's answers. */
  datatype Wording = Wording(unknown: string, unauthorized: string, error: string, rateLimit: string)

  /** One execution of a handler, stamped with the wall and the monotonic clock reading at which
      its message was admitted. */
  datatype Run = Run(
    message: InboundMessage, definition: CommandDefinition, user: AuthorizedUser, wall: Time, mono: Time)

  /** Every audit write gets through, at once or after retries. */
  ghost predicate Fair(skies: nat -> Weather) {
    forall i: nat :: GetsThrough(skies(i))
  }

  /** These kinds were told, and in fair weather none of them was lost. */
  ghost predicate Tells(was: Tale, now: Tale, kinds: seq<Kind>, fair: bool) {
    now.told == was.told + kinds && (fair ==> now.Lost() == was.Lost())
  }

  lemma TellsOn(a: Tale, b: Tale, c: Tale, first: seq<Kind>, second: seq<Kind>, fair: bool)
    requires Tells(a, b, first, fair) && Tells(b, c, second, fair)
    ensures Tells(a, c, first + second, fair)
  {
    assert a.told + first + second == a.told + (first + second);
  }

  /** An audit write whose failure is swallowed. */
  method RecordQuietly(flow: AuditFlow, trail: AuditTrail, kind: Kind, skies: nat -> Weather)
    requires flow.Valid() && trail in flow.trails && !kind.CommandExecution? && !kind.MessageReceived?
    modifies flow`nextId, flow.connection, trail
    ensures flow.Valid() && Tells(old(trail.tale), trail.tale, [kind], Fair(skies))
    ensures flow.Stored().commands == old(flow.Stored().commands)
  {
    var ok := flow.Record(trail, kind, skies(flow.nextId));
  }

  method RecordExecutionQuietly(flow: AuditFlow, trail: AuditTrail, row: CommandRow, registered: bool,
                                skies: nat -> Weather)
    requires flow.Valid() && trail in flow.trails && row.message == trail.message
    modifies flow`nextId, flow`calls, flow.connection, trail
    ensures flow.Valid()
    ensures Tells(old(trail.tale), trail.tale, [Kind.CommandExecution(Call(row, registered).Described())], Fair(skies))
    ensures Recorded(old(flow.Stored().commands), flow.Stored().commands, [row], Fair(skies))
  {
    var ok := flow.CommandExecution(trail, row, registered, skies(flow.nextId));
  }

  /** These rows were added, or, in foul weather, none of them. */
  ghost predicate Recorded(before: seq<CommandRow>, after: seq<CommandRow>, rows: seq<CommandRow>, fair: bool) {
    after == before + rows || (!fair && after == before)
  }

  function Repeated(kind: Kind, n: nat): seq<Kind> {
    seq(n, _ => kind)
  }

  class CommandRouter {
    const parse: string -> Option<ParsedCommand>
    const lower: string -> string
    const registry: map<string, CommandDefinition>
    const authorizer: Authorizer
    const wording: Wording
    const flow: AuditFlow
    ghost var runs: seq<Run>

    constructor (parse: string -> Option<ParsedCommand>, lower: string -> string,
                 registry: map<string, CommandDefinition>, authorizer: Authorizer, wording: Wording, flow: AuditFlow)
      ensures this.parse == parse && this.lower == lower && this.registry == registry
      ensures this.authorizer == authorizer && this.wording == wording && this.flow == flow && runs == []
    {
      this.parse, this.lower, this.registry := parse, lower, registry;
      this.authorizer, this.wording, this.flow := authorizer, wording, flow;
      runs := [];
    }

    function Resolve(name: string): Option<CommandDefinition> {
      if lower(name) in registry then Some(registry[lower(name)]) else None
    }

    function DenialReason(message: InboundMessage, minimumRole: Role): AuthorizationReason {
      if !authorizer.AllowsRoom(message) then DeniedRoom
      else if authorizer.GetUser(message.sender).None? then DeniedSender
      else if minimumRole > READONLY then CommandNotReadonly
      else InsufficientRole
    }

    function RouteOf(message: InboundMessage): Route {
      var parsed := parse(message.text);
      if parsed.None? then NoRoute
      else
        var definition := Resolve(parsed.value.name);
        if definition.None? then UnknownCommand(parsed.value)
        else
          var user := authorizer.RequireMessage(message, definition.value.minimumRole);
          if user.None? then Denied(parsed.value, DenialReason(message, definition.value.minimumRole))
          else Permitted(parsed.value, definition.value, user.value)
    }

    function Recognise(parsed: Option<ParsedCommand>): ParseResult {
      if parsed.None? then NoCommand
      else if parsed.value.name == "" then Malformed
      else if Resolve(parsed.value.name).None? then UnknownName
      else Recognized
    }

    /** The row that one handled message leaves in the legacy table. */
    function Rows(message: InboundMessage, outcome: Outcome, elapsed: nat): seq<CommandRow> {
      match RouteOf(message)
      case NoRoute => []
      case UnknownCommand(p) => [CommandRow(message, p.name, CommandResult.Unknown, elapsed, None)]
      case Denied(p, _) => [CommandRow(message, p.name, Unauthorized, elapsed, None)]
      case Permitted(p, _, _) =>
        if outcome.Returned? then [CommandRow(message, p.name, Succeeded, elapsed, None)]
        else [CommandRow(message, p.name, Failed, elapsed, Some(outcome.exception))]
    }

    /** The message gives the name of a command that the registry knows. */
    predicate Registered(message: InboundMessage) {
      var parsed := parse(message.text);
      parsed.Some? && Resolve(parsed.value.name).Some?
    }

    function Parsed(message: InboundMessage): Kind {
      CommandParsed(Recognise(parse(message.text)))
    }

    /** The events between parsing a command and its execution row. */
    function Middle(message: InboundMessage, outcome: Outcome): seq<Kind> {
      match RouteOf(message)
      case NoRoute => []
      case UnknownCommand(_) => []
      case Denied(_, reason) => [CommandAuthorization(reason)]
      case Permitted(_, _, _) => [CommandAuthorization(Allowed)] + Repeated(RuntimeOverride, outcome.overrides)
    }

    /** The events of one handled message. */
    function Story(message: InboundMessage, outcome: Outcome, elapsed: nat): seq<Kind> {
      [Parsed(message)] + CommandStory(message, outcome, elapsed)
    }

    /** The executions that one handled message leads to. */
    function RunsOf(message: InboundMessage, wall: Time, mono: Time): seq<Run> {
      var route := RouteOf(message);
      if route.Permitted? then [Run(message, route.definition, route.user, wall, mono)] else []
    }

    function CommandStory(message: InboundMessage, outcome: Outcome, elapsed: nat): seq<Kind> {
      var rows := Rows(message, outcome, elapsed);
      Middle(message, outcome) + if rows == [] then []
        else [Kind.CommandExecution(Call(rows[0], Registered(message)).Described())]
    }

    /** What is answered; an audit that fails changes nothing of it. */
    function Reply(message: InboundMessage, outcome: Outcome): Option<string> {
      match RouteOf(message)
      case NoRoute => None
      case UnknownCommand(_) => Some(wording.unknown)
      case Denied(_, _) => Some(wording.unauthorized)
      case Permitted(_, _, _) => Some(if outcome.Returned? then outcome.text else wording.error + outcome.text)
    }

    /** The sender may give this command here. */
    predicate MayCommand(message: InboundMessage, minimumRole: Role) {
      && authorizer.RoomOpen(message) && message.sender in authorizer.users
      && authorizer.Entitled(message, minimumRole, authorizer.users[message.sender])
    }

    /** Why a sender may not, in this order. */
    predicate DeniedFor(message: InboundMessage, minimumRole: Role, reason: AuthorizationReason) {
      if !authorizer.RoomOpen(message) then reason == DeniedRoom
      else if message.sender !in authorizer.users then reason == DeniedSender
      else if minimumRole > READONLY then reason == CommandNotReadonly
      else reason == InsufficientRole
    }

    /** What a message is answered, recorded and told as, from the parser, the registry and the
        authorisation tables alone. */
    lemma HandledExactly(message: InboundMessage, outcome: Outcome, elapsed: nat, wall: Time, mono: Time)
      ensures parse(message.text).None? ==>
        && Reply(message, outcome) == None && Rows(message, outcome, elapsed) == []
        && RunsOf(message, wall, mono) == [] && Story(message, outcome, elapsed) == [CommandParsed(NoCommand)]
      ensures parse(message.text).Some? && lower(parse(message.text).value.name) !in registry ==>
        HandledAs(message, outcome, elapsed, wall, mono, Some(wording.unknown), CommandResult.Unknown, None,
          [CommandParsed(if parse(message.text).value.name == "" then Malformed else UnknownName)], None)
      ensures parse(message.text).Some? && lower(parse(message.text).value.name) in registry ==>
        KnownExactly(message, outcome, elapsed, wall, mono)
    {
      if parse(message.text).Some? && lower(parse(message.text).value.name) in registry {
        KnownIsExact(message, outcome, elapsed, wall, mono);
      }
    }

    /** One reply, one row of this result and error, and the events before it and with it. */
    ghost predicate HandledAs(message: InboundMessage, outcome: Outcome, elapsed: nat, wall: Time, mono: Time,
                              reply: Option<string>, result: CommandResult, error: Option<string>, before: seq<Kind>,
                              command: Option<string>)
      requires parse(message.text).Some?
    {
      var name := parse(message.text).value.name;
      && Reply(message, outcome) == reply
      && Rows(message, outcome, elapsed) == [CommandRow(message, name, result, elapsed, error)]
      && Story(message, outcome, elapsed)
        == before + [Kind.CommandExecution(Execution(message, command, result, elapsed))]
      && (RunsOf(message, wall, mono) != [] <==> result.Succeeded? || result.Failed?)
    }

    /** The three ends of a known command. */
    ghost predicate KnownExactly(message: InboundMessage, outcome: Outcome, elapsed: nat, wall: Time, mono: Time)
      requires parse(message.text).Some? && lower(parse(message.text).value.name) in registry
    {
      var name := parse(message.text).value.name;
      var d := registry[lower(name)];
      var parsed := [CommandParsed(if name == "" then Malformed else Recognized)];
      var allowed := parsed + [CommandAuthorization(Allowed)] + Repeated(RuntimeOverride, outcome.overrides);
      if !MayCommand(message, d.minimumRole) then
        exists reason :: DeniedFor(message, d.minimumRole, reason)
          && HandledAs(message, outcome, elapsed, wall, mono, Some(wording.unauthorized), Unauthorized, None,
               parsed + [CommandAuthorization(reason)], Some(name))
      else
        && RunsOf(message, wall, mono) == [Run(message, d, authorizer.users[message.sender], wall, mono)]
        && match outcome
           case Returned(_, text) =>
             HandledAs(message, outcome, elapsed, wall, mono, Some(text), Succeeded, None, allowed, Some(name))
           case Raised(_, exception, text) =>
             HandledAs(message, outcome, elapsed, wall, mono, Some(wording.error + text), Failed, Some(exception),
               allowed, Some(name))
    }

    lemma KnownIsExact(message: InboundMessage, outcome: Outcome, elapsed: nat, wall: Time, mono: Time)
      requires parse(message.text).Some? && lower(parse(message.text).value.name) in registry
      ensures KnownExactly(message, outcome, elapsed, wall, mono)
    {
      var name := parse(message.text).value.name;
      var d := registry[lower(name)];
      if MayCommand(message, d.minimumRole) {
        authorizer.AuthorizedExactly(message, d.minimumRole, authorizer.users[message.sender]);
        var x := Kind.CommandExecution(Call(Rows(message, outcome, elapsed)[0], Registered(message)).Described());
        assert Story(message, outcome, elapsed)
          == [Parsed(message)] + [CommandAuthorization(Allowed)] + Repeated(RuntimeOverride, outcome.overrides) + [x];
      } else {
        DeniedIsExact(message, outcome, elapsed, wall, mono, d);
      }
    }

    lemma DeniedIsExact(message: InboundMessage, outcome: Outcome, elapsed: nat, wall: Time, mono: Time,
                        d: CommandDefinition)
      requires parse(message.text).Some? && lower(parse(message.text).value.name) in registry
      requires d == registry[lower(parse(message.text).value.name)] && !MayCommand(message, d.minimumRole)
      ensures KnownExactly(message, outcome, elapsed, wall, mono)
    {
      var reason := DenialReason(message, d.minimumRole);
      var user := authorizer.RequireMessage(message, d.minimumRole);
      authorizer.AuthorizedExactly(message, d.minimumRole, AuthorizedUser("", "", 0));
      if user.Some? {
        authorizer.AuthorizedExactly(message, d.minimumRole, user.value);
      }
      assert user.None?;
      assert DeniedFor(message, d.minimumRole, reason);
      var x := Kind.CommandExecution(Call(Rows(message, outcome, elapsed)[0], Registered(message)).Described());
      assert Story(message, outcome, elapsed) == [Parsed(message)] + [CommandAuthorization(reason)] + [x];
    }

    /** A handler runs exactly when the command is known and its sender authorised, whatever becomes
        of the audit writes; in fair weather the trail tells the whole story. */
    method Handle(message: InboundMessage, trail: AuditTrail, outcome: Outcome, elapsed: nat, skies: nat -> Weather,
                  ghost wall: Time, ghost mono: Time) returns (reply: Option<string>)
      requires flow.Valid() && trail in flow.trails && trail.message == message
      modifies this, flow`nextId, flow`calls, flow.connection, trail
      ensures flow.Valid() && Tells(old(trail.tale), trail.tale, Story(message, outcome, elapsed), Fair(skies))
      ensures Recorded(old(flow.Stored().commands), flow.Stored().commands, Rows(message, outcome, elapsed),
        Fair(skies))
      ensures reply == Reply(message, outcome)
      ensures runs == old(runs) + RunsOf(message, wall, mono)
    {
      var parsed := parse(message.text);
      RecordQuietly(flow, trail, CommandParsed(Recognise(parsed)), skies);
      if parsed.None? {
        return None;
      }
      reply := HandleCommand(message, parsed.value, trail, outcome, elapsed, skies, wall, mono);
    }

    /** A parsed command, up to its execution rows. */
    method HandleCommand(message: InboundMessage, parsed: ParsedCommand, trail: AuditTrail, outcome: Outcome,
                         elapsed: nat, skies: nat -> Weather, ghost wall: Time, ghost mono: Time)
      returns (reply: Option<string>)
      requires parse(message.text) == Some(parsed)
      requires flow.Valid() && trail in flow.trails && trail.message == message
      modifies this, flow`nextId, flow`calls, flow.connection, trail
      ensures flow.Valid()
      ensures Tells(old(trail.tale), trail.tale, CommandStory(message, outcome, elapsed), Fair(skies))
      ensures Recorded(old(flow.Stored().commands), flow.Stored().commands, Rows(message, outcome, elapsed),
        Fair(skies))
      ensures reply == Reply(message, outcome)
      ensures runs == old(runs) + RunsOf(message, wall, mono)
    {
      var row, registered;
      reply, row, registered := Dispatch(message, parsed, trail, outcome, elapsed, skies, wall, mono);
      RecordExecutionQuietly(flow, trail, row, registered, skies);
    }

    /** Resolves and authorises a parsed command and runs its handler. */
    method Dispatch(message: InboundMessage, parsed: ParsedCommand, trail: AuditTrail, outcome: Outcome, elapsed: nat,
                    skies: nat -> Weather, ghost wall: Time, ghost mono: Time)
      returns (reply: Option<string>, row: CommandRow, registered: bool)
      requires parse(message.text) == Some(parsed)
      requires flow.Valid() && trail in flow.trails
      modifies this, flow`nextId, flow.connection, trail
      ensures flow.Valid()
      ensures Tells(old(trail.tale), trail.tale, Middle(message, outcome), Fair(skies))
      ensures flow.Stored().commands == old(flow.Stored().commands)
      ensures Rows(message, outcome, elapsed) == [row] && reply == Reply(message, outcome)
      ensures registered == Registered(message)
      ensures runs == old(runs) + RunsOf(message, wall, mono)
    {
      var name := parsed.name;
      var definition := Resolve(name);
      if definition.None? {
        assert RouteOf(message) == UnknownCommand(parsed);
        return Some(wording.unknown), CommandRow(message, name, CommandResult.Unknown, elapsed, None), false;
      }
      var user := authorizer.RequireMessage(message, definition.value.minimumRole);
      if user.None? {
        var reason := DenialReason(message, definition.value.minimumRole);
        assert RouteOf(message) == Denied(parsed, reason);
        RecordQuietly(flow, trail, CommandAuthorization(reason), skies);
        return Some(wording.unauthorized), CommandRow(message, name, Unauthorized, elapsed, None), true;
      }
      assert RouteOf(message) == Permitted(parsed, definition.value, user.value);
      RecordQuietly(flow, trail, CommandAuthorization(Allowed), skies);
      runs := runs + [Run(message, definition.value, user.value, wall, mono)];
      RunHandler(trail, outcome, skies);
      match outcome {
        case Returned(_, text) =>
          return Some(text), CommandRow(message, name, Succeeded, elapsed, None), true;
        case Raised(_, exception, text) =>
          return Some(wording.error + text), CommandRow(message, name, Failed, elapsed, Some(exception)), true;
      }
    }

    /** What a handler leaves on the trail. */
    method RunHandler(trail: AuditTrail, outcome: Outcome, skies: nat -> Weather)
      requires flow.Valid() && trail in flow.trails
      modifies flow`nextId, flow.connection, trail
      ensures flow.Valid() && Tells(old(trail.tale), trail.tale, Repeated(RuntimeOverride, outcome.overrides),
        Fair(skies))
      ensures flow.Stored().commands == old(flow.Stored().commands)
    {
      var i := 0;
      while i < outcome.overrides
        invariant i <= outcome.overrides
        invariant flow.Valid() && Tells(old(trail.tale), trail.tale, Repeated(RuntimeOverride, i), Fair(skies))
        invariant flow.Stored().commands == old(flow.Stored().commands)
      {
        RecordQuietly(flow, trail, RuntimeOverride, skies);
        assert Repeated(RuntimeOverride, i) + [RuntimeOverride] == Repeated(RuntimeOverride, i + 1);
        i := i + 1;
      }
    }
  }

  // Whole runs

  /** Two executions of messages that share a deduplication key are more than the window apart. */
  ghost predicate SpacedRuns(runs: seq<Run>, digest: string -> string, window: Time) {
    forall i, j | 0 <= i < j < |runs|
      && Deduplication.Key(runs[i].message, digest) == Deduplication.Key(runs[j].message, digest) ::
      runs[j].wall > runs[i].wall + window
  }

  function Admission(run: Run, digest: string -> string): Deduplication.Acceptance {
    Deduplication.Acceptance(run.message, Deduplication.Key(run.message, digest), run.wall)
  }

  /** Every execution was admitted by the deduplicator. */
  ghost predicate AllAdmitted(runs: seq<Run>, digest: string -> string, accepted: seq<Deduplication.Acceptance>) {
    forall i | 0 <= i < |runs| :: Admission(runs[i], digest) in accepted
  }

  lemma NewRunIsSpaced(runs: seq<Run>, run: Run, digest: string -> string, window: Time,
                       accepted: seq<Deduplication.Acceptance>)
    requires SpacedRuns(runs, digest, window) && AllAdmitted(runs, digest, accepted)
    requires !Deduplication.Recent(accepted, Deduplication.Key(run.message, digest), run.wall, window)
    ensures SpacedRuns(runs + [run], digest, window)
    ensures AllAdmitted(runs + [run], digest, accepted + [Admission(run, digest)])
  {
    forall i | 0 <= i < |runs| && Deduplication.Key(runs[i].message, digest) == Deduplication.Key(run.message, digest)
      ensures run.wall > runs[i].wall + window
    {
      var k :| 0 <= k < |accepted| && accepted[k] == Admission(runs[i], digest);
    }
  }

  function Stamps(runs: seq<Run>): seq<RateLimit.Acceptance> {
    if runs == [] then []
    else
      var last := runs[|runs| - 1];
      Stamps(runs[..|runs| - 1]) + [RateLimit.Acceptance(last.message.senderId, last.mono)]
  }

  /** Every interval holds at most as many of one sender's executions as of its acceptances. */
  ghost predicate Covered(stamps: seq<RateLimit.Acceptance>, accepted: seq<RateLimit.Acceptance>) {
    forall s: string, a: Time, b: Time :: Fewer(stamps, accepted, s, a, b)
  }

  ghost predicate Fewer(stamps: seq<RateLimit.Acceptance>, accepted: seq<RateLimit.Acceptance>,
                        s: string, a: Time, b: Time) {
    |RateLimit.InWindow(RateLimit.TimesOf(stamps, s), a, b)|
      <= |RateLimit.InWindow(RateLimit.TimesOf(accepted, s), a, b)|
  }

  /** An acceptance keeps the executions covered, whether or not it leads to one more. */
  lemma AcceptanceCovers(stamps: seq<RateLimit.Acceptance>, accepted: seq<RateLimit.Acceptance>,
                         x: RateLimit.Acceptance)
    requires Covered(stamps, accepted)
    ensures Covered(stamps, accepted + [x]) && Covered(stamps + [x], accepted + [x])
  {
    forall s: string, a: Time, b: Time
      ensures Fewer(stamps, accepted + [x], s, a, b) && Fewer(stamps + [x], accepted + [x], s, a, b)
    {
      assert Fewer(stamps, accepted, s, a, b);
      RateLimit.TimesOfExtended(stamps, x, s);
      RateLimit.TimesOfExtended(accepted, x, s);
      if x.sender == s {
        RateLimit.InWindowConcat(RateLimit.TimesOf(stamps, s), [x.at], a, b);
        RateLimit.InWindowConcat(RateLimit.TimesOf(accepted, s), [x.at], a, b);
      }
    }
  }

  /** Covered executions are as rare as the acceptances. */
  lemma RunsAreCapped(runs: seq<Run>, accepted: seq<RateLimit.Acceptance>, cap: int, window: Time, sender: string)
    requires Covered(Stamps(runs), accepted)
    requires RateLimit.Capped(RateLimit.TimesOf(accepted, sender), cap, window)
    ensures RateLimit.Capped(RateLimit.TimesOf(Stamps(runs), sender), cap, window)
  {
    forall a: Time, b: Time | b <= a + window
      ensures |RateLimit.InWindow(RateLimit.TimesOf(Stamps(runs), sender), a, b)| <= Max(0, cap)
    {
      assert Fewer(Stamps(runs), accepted, sender, a, b);
    }
  }

  /** The right channel, an open room, and a role that reaches the command's and the room's minimum. */
  predicate Rightful(run: Run, channelIndex: int, authorizer: Authorizer) {
    && run.message.channelIndex == channelIndex
    && authorizer.RoomOpen(run.message)
    && authorizer.Entitled(run.message, run.definition.minimumRole, run.user)
  }

  /** What becomes of a message. */
  datatype Verdict =
    | Ignored(reason: IgnoreReason)
    | StorageDown
    | Limited
    | Handled

  datatype Processed = StorageError | Done(answer: Option<OutboundMessage>)

  /** What the world answers while one message is processed: whether the deduplication write fails,
      what the handler returns and how long it takes, whether the forwarder handles a text and
      whether the send succeeds. */
  datatype World = World(storageFails: bool, outcome: Outcome, elapsed: nat, forwarded: bool, sendOk: bool)

  /** A message as it arrives, with both clocks and what the world and the weather will do. */
  datatype Arrival = Arrival(message: InboundMessage, wall: Time, mono: Time, world: World, skies: nat -> Weather)

  /** Messages arrive one after the other, by both clocks. */
  predicate InTime(arrivals: seq<Arrival>, wall: Time, mono: Time) {
    && (forall i | 0 <= i < |arrivals| :: wall <= arrivals[i].wall && mono <= arrivals[i].mono)
    && (forall i | 0 < i < |arrivals| ::
          arrivals[i - 1].wall <= arrivals[i].wall && arrivals[i - 1].mono <= arrivals[i].mono)
  }

  class BridgeService {
    const router: CommandRouter
    const deduplicator: Deduplication.Deduplicator
    const limiter: RateLimit.RateLimiter
    const flow: AuditFlow
    const channelIndex: int
    const maxBytes: int
    const forwards: bool
    /** Every message handed to the transport. */
    var outbox: seq<OutboundMessage>

    constructor (router: CommandRouter, deduplicator: Deduplication.Deduplicator, limiter: RateLimit.RateLimiter,
                 channelIndex: int, maxBytes: int, forwards: bool)
      requires router.flow.Valid() && router.runs == []
      requires deduplicator.Valid() && limiter.Valid()
      ensures Valid() && outbox == [] && this.router == router && this.deduplicator == deduplicator
      ensures this.limiter == limiter && this.channelIndex == channelIndex
      ensures this.maxBytes == maxBytes && this.forwards == forwards
    {
      this.router, this.deduplicator, this.limiter, flow := router, deduplicator, limiter, router.flow;
      this.channelIndex, this.maxBytes, this.forwards := channelIndex, maxBytes, forwards;
      outbox := [];
      new;
      assert router.runs == [];
    }

    ghost predicate Admitted(runs: seq<Run>)
      reads deduplicator, limiter
    {
      && AllAdmitted(runs, deduplicator.digest, deduplicator.accepted)
      && SpacedRuns(runs, deduplicator.digest, deduplicator.window as real)
      && Covered(Stamps(runs), limiter.accepted)
    }

    /** Over the whole run: executions are rightful, spaced by the deduplication window and covered
        by the rate limiter's acceptances. */
    ghost predicate Bounded(runs: seq<Run>)
      reads deduplicator, limiter
    {
      Admitted(runs) && (forall i | 0 <= i < |runs| :: Rightful(runs[i], channelIndex, router.authorizer))
    }

    ghost predicate Wired()
      reads flow, flow.connection, flow.trails
    {
      flow == router.flow && flow.Valid()
    }

    ghost predicate Valid()
      reads this, router, deduplicator, limiter, flow, flow.connection, flow.trails
    {
      Wired() && deduplicator.Valid() && limiter.Valid() && Bounded(router.runs)
    }

    /** The message's key was accepted within the window, by the full history. */
    ghost predicate Repeats(message: InboundMessage, wall: Time)
      reads deduplicator
      requires deduplicator.window > 0
    {
      var history, window := deduplicator.accepted, deduplicator.window;
      || Deduplication.Recent(history, Deduplication.Key(message, deduplicator.digest), wall, window as real)
      || Deduplication.Recent(history, Deduplication.LegacyKey(message, window), wall, window as real)
    }

    /** For the daemon's messages: one of this room, sender and id was accepted within the window. */
    lemma RepeatsExactly(message: InboundMessage, wall: Time)
      requires Valid() && Deduplication.GoodDigest(deduplicator.digest)
      requires Deduplication.IsDaemons(message) && Deduplication.AllDaemons(deduplicator.accepted)
      ensures Repeats(message, wall)
        <==> Deduplication.SameAccepted(deduplicator.accepted, message, wall, deduplicator.window as real)
    {
      var history, window := deduplicator.accepted, deduplicator.window;
      Deduplication.RecentIsSameAccepted(history, message, deduplicator.digest, wall, window as real);
      Deduplication.DaemonsTransportIsPlain();
      Deduplication.LegacyNotRecent(history, message, wall, window, deduplicator.digest);
    }

    /** The sender has used up the rate window that ends now, by the full history. */
    ghost predicate Exhausts(message: InboundMessage, mono: Time)
      reads limiter
    {
      RateLimit.UsedUp(limiter.accepted, message.senderId, mono, limiter.maxCommands, limiter.window)
    }

    ghost function VerdictOf(message: InboundMessage, wall: Time, mono: Time, world: World): Verdict
      reads deduplicator, limiter
      requires deduplicator.window > 0
    {
      if message.channelIndex != channelIndex then Ignored(WrongChannel)
      else if !router.authorizer.RoomOpen(message) then Ignored(RoomNotAllowed)
      else if world.storageFails then StorageDown
      else if Repeats(message, wall) then Ignored(Duplicate)
      else if Exhausts(message, mono) then Limited
      else Handled
    }

    /** A reply as it goes out. */
    function Shortened(reply: Option<string>): Option<string> {
      if reply.None? then None else Some(LoraTrim.Trimmed(reply.value, maxBytes, LoraTrim.TRIM_SUFFIX))
    }

    /** The text sent back, if any. */
    function AnswerOf(verdict: Verdict, message: InboundMessage, world: World): Option<string> {
      match verdict
      case Limited => Some(router.wording.rateLimit)
      case Handled => Shortened(router.Reply(message, world.outcome))
      case _ => None
    }

    /** How a text that is no command ends. */
    function TextStory(message: InboundMessage, world: World): seq<Kind> {
      if forwards && router.authorizer.RequireMessage(message, READONLY).None?
        then [MessageIgnored(SenderNotRegistered)]
      else if forwards && world.forwarded then []
      else [MessageIgnored(NotACommand)]
    }

    function Response(world: World): Kind {
      if world.sendOk then ResponseSent else ResponseFailed
    }

    /** All the events of one message after its reception. */
    function StoryOf(verdict: Verdict, message: InboundMessage, world: World): seq<Kind> {
      match verdict
      case Ignored(reason) => [MessageIgnored(reason)]
      case StorageDown => []
      case Limited => [MessageIgnored(RateLimited)] + [Response(world)]
      case Handled => HandledStory(message, world)
    }

    function HandledStory(message: InboundMessage, world: World): seq<Kind> {
      router.Story(message, world.outcome, world.elapsed)
      + ConclusionStory(router.Reply(message, world.outcome), message, world)
    }

    function ConclusionStory(reply: Option<string>, message: InboundMessage, world: World): seq<Kind> {
      if reply.None? then TextStory(message, world) else [Response(world)]
    }

    function Outbound(message: InboundMessage, text: string): OutboundMessage {
      OutboundMessage(message.senderId, channelIndex, text, message.replyTarget)
    }

    /** At most one message, to the place the sender wrote from. */
    function Sends(message: InboundMessage, answer: Option<string>): seq<OutboundMessage> {
      if answer.None? then [] else [Outbound(message, answer.value)]
    }

    function Concluded(message: InboundMessage, answer: Option<string>): Processed {
      Done(if answer.None? then None else Some(Outbound(message, answer.value)))
    }

    /** Every answer goes back to the sender: to its id, to where it wrote from, on the service's
        channel, as the fixed rate limit text or as the router's reply, trimmed. */
    lemma AnswersGoBack(verdict: Verdict, message: InboundMessage, world: World)
      ensures |Sends(message, AnswerOf(verdict, message, world))| <= 1
      ensures forall o | o in Sends(message, AnswerOf(verdict, message, world)) ::
        && o.destination == message.senderId && o.replyTarget == message.replyTarget && o.channelIndex == channelIndex
        && Ended(verdict, message, world) == Done(Some(o))
        && (verdict.Limited? ==> o.text == router.wording.rateLimit)
        && (verdict.Handled? ==>
              && router.Reply(message, world.outcome).Some?
              && o.text == LoraTrim.Trimmed(router.Reply(message, world.outcome).value, maxBytes, LoraTrim.TRIM_SUFFIX))
      ensures Sends(message, AnswerOf(verdict, message, world)) == [] <==>
        !(verdict.Limited? || (verdict.Handled? && router.Reply(message, world.outcome).Some?))
    {
    }

    /** A text that is no command ends as ignored, unless the forwarder takes it from a sender who may
        at least read. */
    lemma TextEndsExactly(message: InboundMessage, world: World)
      ensures var may := router.MayCommand(message, READONLY);
        && (forwards && !may ==> TextStory(message, world) == [MessageIgnored(SenderNotRegistered)])
        && (forwards && may && world.forwarded ==> TextStory(message, world) == [])
        && (!forwards || (may && !world.forwarded) ==> TextStory(message, world) == [MessageIgnored(NotACommand)])
    {
      var user := router.authorizer.RequireMessage(message, READONLY);
      if user.Some? {
        router.authorizer.AuthorizedExactly(message, READONLY, user.value);
      }
      if router.MayCommand(message, READONLY) {
        router.authorizer.AuthorizedExactly(message, READONLY, router.authorizer.users[message.sender]);
      }
    }

    /** The verdict, filter by filter, from the tables and the histories. */
    lemma VerdictExactly(message: InboundMessage, wall: Time, mono: Time, world: World)
      requires deduplicator.window > 0
      ensures var v := VerdictOf(message, wall, mono, world);
        var times := RateLimit.TimesOf(limiter.accepted, message.senderId);
        var here := message.channelIndex == channelIndex;
        var open := here && router.authorizer.RoomOpen(message);
        var fresh' := open && !world.storageFails && !Repeats(message, wall);
        var spare := message.senderId != ""
          && |RateLimit.InWindow(times, mono - limiter.window, mono)| < limiter.maxCommands;
        && (v == Ignored(WrongChannel) <==> !here)
        && (v == Ignored(RoomNotAllowed) <==> here && !open)
        && (v == StorageDown <==> open && world.storageFails)
        && (v == Ignored(Duplicate) <==> open && !world.storageFails && Repeats(message, wall))
        && (v == Limited <==> fresh' && !spare)
        && (v == Handled <==> fresh' && spare)
    {
    }

    function Ended(verdict: Verdict, message: InboundMessage, world: World): Processed {
      if verdict.StorageDown? then StorageError else Concluded(message, AnswerOf(verdict, message, world))
    }

    /** The rows and the executions that a verdict leads to. */
    function RowsOf(verdict: Verdict, message: InboundMessage, world: World): seq<CommandRow> {
      if verdict.Handled? then router.Rows(message, world.outcome, world.elapsed) else []
    }

    /** What a verdict spends: a duplicate spends nothing, a limited message no rate. */
    function StoredOf(verdict: Verdict, message: InboundMessage, wall: Time): seq<Deduplication.Acceptance> {
      if verdict.Limited? || verdict.Handled?
      then [Deduplication.Acceptance(message, Deduplication.Key(message, deduplicator.digest), wall)] else []
    }

    function AcceptedOf(verdict: Verdict, message: InboundMessage, mono: Time): seq<RateLimit.Acceptance> {
      if verdict.Handled? then [RateLimit.Acceptance(message.senderId, mono)] else []
    }

    function RunsOf(verdict: Verdict, message: InboundMessage, wall: Time, mono: Time): seq<Run> {
      if verdict.Handled? then router.RunsOf(message, wall, mono) else []
    }

    /** A message is answered, and its handler runs, as the full history decides; nothing of that
        depends on the audit's weather. Its trail tells the whole story, if the weather is fair. */
    method ProcessMessage(message: InboundMessage, wall: Time, mono: Time, world: World, skies: nat -> Weather)
      returns (r: Processed, ghost verdict: Verdict, ghost trail: AuditTrail)
      requires Valid() && deduplicator.clock <= wall && limiter.clock <= mono
      modifies this, router, deduplicator, limiter, flow, flow.connection
      ensures Valid() && verdict == old(VerdictOf(message, wall, mono, world))
      ensures deduplicator.clock <= wall && limiter.clock <= mono
      ensures deduplicator.accepted == old(deduplicator.accepted) + StoredOf(verdict, message, wall)
      ensures limiter.accepted == old(limiter.accepted) + AcceptedOf(verdict, message, mono)
      ensures r == Ended(verdict, message, world)
      ensures outbox == old(outbox) + Sends(message, AnswerOf(verdict, message, world))
      ensures router.runs == old(router.runs) + RunsOf(verdict, message, wall, mono)
      ensures fresh(trail) && trail in flow.trails && trail.message == message
      ensures trail.tale.told == [Kind.MessageReceived] + StoryOf(verdict, message, world)
      ensures Fair(skies) ==> trail.tale.Lost() == 0
      ensures Recorded(old(flow.Stored().commands), flow.Stored().commands, RowsOf(verdict, message, world),
        Fair(skies))
    {
      var t := flow.MessageReceived(message, skies(flow.nextId));
      trail := t;
      assert t.tale.told == [Kind.MessageReceived];
      assert Fair(skies) ==> t.tale.Lost() == 0;
      r, verdict := ProcessReceived(message, t, wall, mono, world, skies);
    }

    /** The service's loop: one message after the other, until a storage error of the deduplicator ends
        it. Every message got its verdict and, with it, at most one answer to its own sender; and the
        invariant, with the bounds of RunsAreBounded, still holds. */
    method RunForever(arrivals: seq<Arrival>) returns (ghost verdicts: seq<Verdict>)
      requires Valid() && InTime(arrivals, deduplicator.clock, limiter.clock)
      modifies this, router, deduplicator, limiter, flow, flow.connection
      ensures Valid() && |verdicts| <= |arrivals|
      ensures Unbroken(verdicts) ==> |verdicts| == |arrivals|
      ensures !Unbroken(verdicts) ==> Breaks(verdicts)
      ensures outbox == old(outbox) + AllSends(arrivals, verdicts)
      ensures router.runs == old(router.runs) + AllRuns(arrivals, verdicts)
    {
      ghost var sent, ran := outbox, router.runs;
      verdicts := [];
      var i, down := 0, false;
      while i < |arrivals| && !down
        invariant Valid() && i == |verdicts| <= |arrivals|
        invariant if down then Breaks(verdicts) else Unbroken(verdicts)
        invariant i < |arrivals| ==> deduplicator.clock <= arrivals[i].wall && limiter.clock <= arrivals[i].mono
        invariant outbox == sent + AllSends(arrivals, verdicts) && router.runs == ran + AllRuns(arrivals, verdicts)
      {
        down, verdicts := ProcessNext(arrivals, i, verdicts, sent, ran);
        i := i + 1;
      }
    }

    method ProcessNext(arrivals: seq<Arrival>, i: nat, ghost verdicts: seq<Verdict>, ghost sent: seq<OutboundMessage>,
                       ghost ran: seq<Run>) returns (down: bool, ghost more: seq<Verdict>)
      requires Valid() && i == |verdicts| < |arrivals| && Unbroken(verdicts)
      requires deduplicator.clock <= arrivals[i].wall && limiter.clock <= arrivals[i].mono
      requires outbox == sent + AllSends(arrivals, verdicts) && router.runs == ran + AllRuns(arrivals, verdicts)
      modifies this, router, deduplicator, limiter, flow, flow.connection
      ensures Valid() && |more| == i + 1
      ensures if down then Breaks(more) else Unbroken(more)
      ensures deduplicator.clock <= arrivals[i].wall && limiter.clock <= arrivals[i].mono
      ensures outbox == sent + AllSends(arrivals, more) && router.runs == ran + AllRuns(arrivals, more)
    {
      ghost var verdict;
      down, verdict := ProcessArrival(arrivals[i]);
      more := verdicts + [verdict];
      OneMoreVerdict(verdicts, verdict);
      OneMoreSent(arrivals, verdicts, verdict, sent);
      OneMoreRun(arrivals, verdicts, verdict, ran);
    }

    method ProcessArrival(a: Arrival) returns (down: bool, ghost verdict: Verdict)
      requires Valid() && deduplicator.clock <= a.wall && limiter.clock <= a.mono
      modifies this, router, deduplicator, limiter, flow, flow.connection
      ensures Valid() && deduplicator.clock <= a.wall && limiter.clock <= a.mono
      ensures down <==> verdict.StorageDown?
      ensures outbox == old(outbox) + Sends(a.message, AnswerOf(verdict, a.message, a.world))
      ensures router.runs == old(router.runs) + RunsOf(verdict, a.message, a.wall, a.mono)
    {
      var r;
      ghost var trail;
      r, verdict, trail := ProcessMessage(a.message, a.wall, a.mono, a.world, a.skies);
      down := r.StorageError?;
    }

    /** No storage error so far, or one at the very end. */
    predicate Unbroken(verdicts: seq<Verdict>) {
      forall i | 0 <= i < |verdicts| :: !verdicts[i].StorageDown?
    }

    predicate Breaks(verdicts: seq<Verdict>) {
      verdicts != [] && verdicts[|verdicts| - 1].StorageDown? && Unbroken(verdicts[..|verdicts| - 1])
    }

    /** What is sent for the messages that got these verdicts. */
    function AllSends(arrivals: seq<Arrival>, verdicts: seq<Verdict>): seq<OutboundMessage>
      requires |verdicts| <= |arrivals|
    {
      if verdicts == [] then []
      else
        var n := |verdicts| - 1;
        var a := arrivals[n];
        AllSends(arrivals, verdicts[..n]) + Sends(a.message, AnswerOf(verdicts[n], a.message, a.world))
    }

    function AllRuns(arrivals: seq<Arrival>, verdicts: seq<Verdict>): seq<Run>
      requires |verdicts| <= |arrivals|
    {
      if verdicts == [] then []
      else
        var n := |verdicts| - 1;
        AllRuns(arrivals, verdicts[..n]) + RunsOf(verdicts[n], arrivals[n].message, arrivals[n].wall, arrivals[n].mono)
    }

    lemma OneMoreVerdict(verdicts: seq<Verdict>, verdict: Verdict)
      requires Unbroken(verdicts)
      ensures if verdict.StorageDown? then Breaks(verdicts + [verdict]) else Unbroken(verdicts + [verdict])
    {
      assert (verdicts + [verdict])[..|verdicts|] == verdicts;
    }

    lemma OneMoreSent(arrivals: seq<Arrival>, verdicts: seq<Verdict>, verdict: Verdict, sent: seq<OutboundMessage>)
      requires |verdicts| < |arrivals|
      ensures var a := arrivals[|verdicts|];
        sent + AllSends(arrivals, verdicts + [verdict])
          == sent + AllSends(arrivals, verdicts) + Sends(a.message, AnswerOf(verdict, a.message, a.world))
    {
      var more := verdicts + [verdict];
      assert more[..|verdicts|] == verdicts && more[|verdicts|] == verdict;
      var a := arrivals[|verdicts|];
      Associate(sent, AllSends(arrivals, verdicts), Sends(a.message, AnswerOf(verdict, a.message, a.world)));
    }

    lemma OneMoreRun(arrivals: seq<Arrival>, verdicts: seq<Verdict>, verdict: Verdict, ran: seq<Run>)
      requires |verdicts| < |arrivals|
      ensures var a := arrivals[|verdicts|];
        ran + AllRuns(arrivals, verdicts + [verdict])
          == ran + AllRuns(arrivals, verdicts) + RunsOf(verdict, a.message, a.wall, a.mono)
    {
      var more := verdicts + [verdict];
      assert more[..|verdicts|] == verdicts && more[|verdicts|] == verdict;
      var a := arrivals[|verdicts|];
      Associate(ran, AllRuns(arrivals, verdicts), RunsOf(verdict, a.message, a.wall, a.mono));
    }

    method ProcessReceived(message: InboundMessage, trail: AuditTrail, wall: Time, mono: Time, world: World,
      skies: nat -> Weather)
      returns (r: Processed, ghost verdict: Verdict)
      requires Valid() && deduplicator.clock <= wall && limiter.clock <= mono
      requires trail in flow.trails && trail.message == message
      modifies this, router, deduplicator, limiter, flow`nextId, flow`calls, flow.connection, trail
      ensures Valid() && verdict == old(VerdictOf(message, wall, mono, world))
      ensures deduplicator.clock <= wall && limiter.clock <= mono
      ensures deduplicator.accepted == old(deduplicator.accepted) + StoredOf(verdict, message, wall)
      ensures limiter.accepted == old(limiter.accepted) + AcceptedOf(verdict, message, mono)
      ensures r == Ended(verdict, message, world)
      ensures outbox == old(outbox) + Sends(message, AnswerOf(verdict, message, world))
      ensures router.runs == old(router.runs) + RunsOf(verdict, message, wall, mono)
      ensures Tells(old(trail.tale), trail.tale, StoryOf(verdict, message, world), Fair(skies))
      ensures Recorded(old(flow.Stored().commands), flow.Stored().commands, RowsOf(verdict, message, world),
        Fair(skies))
    {
      var v := Admit(message, wall, mono, world);
      verdict := v;
      r := Settle(v, message, trail, wall, mono, world, skies);
    }

    /** What follows from a verdict. */
    method Settle(verdict: Verdict, message: InboundMessage, trail: AuditTrail, wall: Time, mono: Time, world: World,
                  skies: nat -> Weather) returns (r: Processed)
      requires Wired() && trail in flow.trails && trail.message == message
      modifies this, router, flow`nextId, flow`calls, flow.connection, trail
      ensures Wired() && r == Ended(verdict, message, world)
      ensures Tells(old(trail.tale), trail.tale, StoryOf(verdict, message, world), Fair(skies))
      ensures Recorded(old(flow.Stored().commands), flow.Stored().commands, RowsOf(verdict, message, world),
        Fair(skies))
      ensures outbox == old(outbox) + Sends(message, AnswerOf(verdict, message, world))
      ensures router.runs == old(router.runs) + RunsOf(verdict, message, wall, mono)
    {
      match verdict {
        case Ignored(reason) =>
          r := Ignore(trail, reason, skies);
        case StorageDown =>
          r := StorageError;
        case Limited =>
          r := Ignore(trail, RateLimited, skies);
          r := Send(message, trail, router.wording.rateLimit, world, skies);
        case Handled =>
          r := SettleCommand(message, trail, wall, mono, world, skies);
      }
    }

    method Ignore(trail: AuditTrail, reason: IgnoreReason, skies: nat -> Weather) returns (r: Processed)
      requires Wired() && trail in flow.trails
      modifies flow`nextId, flow.connection, trail
      ensures Wired() && r == Done(None)
      ensures Tells(old(trail.tale), trail.tale, [MessageIgnored(reason)], Fair(skies))
      ensures flow.Stored().commands == old(flow.Stored().commands)
    {
      RecordQuietly(flow, trail, MessageIgnored(reason), skies);
      r := Done(None);
    }

    method SettleCommand(message: InboundMessage, trail: AuditTrail, wall: Time, mono: Time, world: World,
                         skies: nat -> Weather) returns (r: Processed)
      requires Wired() && trail in flow.trails && trail.message == message
      modifies this, router, flow`nextId, flow`calls, flow.connection, trail
      ensures Wired() && r == Ended(Handled, message, world)
      ensures Tells(old(trail.tale), trail.tale, HandledStory(message, world), Fair(skies))
      ensures Recorded(old(flow.Stored().commands), flow.Stored().commands, RowsOf(Handled, message, world),
        Fair(skies))
      ensures outbox == old(outbox) + Sends(message, AnswerOf(Handled, message, world))
      ensures router.runs == old(router.runs) + RunsOf(Handled, message, wall, mono)
    {
      ghost var before := trail.tale;
      var reply := router.Handle(message, trail, world.outcome, world.elapsed, skies, wall, mono);
      ghost var between := trail.tale;
      r := Conclude(message, trail, reply, world, skies);
      TellsOn(before, between, trail.tale, router.Story(message, world.outcome, world.elapsed),
        ConclusionStory(reply, message, world), Fair(skies));
    }

    /** Sends a reply, or ends a text that got none. */
    method Conclude(message: InboundMessage, trail: AuditTrail, reply: Option<string>, world: World,
      skies: nat -> Weather)
      returns (r: Processed)
      requires Wired() && trail in flow.trails
      modifies this, flow`nextId, flow.connection, trail
      ensures Wired() && r == Concluded(message, Shortened(reply))
      ensures Tells(old(trail.tale), trail.tale, ConclusionStory(reply, message, world), Fair(skies))
      ensures flow.Stored().commands == old(flow.Stored().commands)
      ensures outbox == old(outbox) + Sends(message, Shortened(reply))
    {
      if reply.Some? {
        var text, rounds := LoraTrim.TrimToBudget(reply.value, maxBytes, LoraTrim.TRIM_SUFFIX);
        r := Send(message, trail, text, world, skies);
      } else {
        EndText(message, trail, world, skies);
        r := Done(None);
      }
    }

    /** There is room for one more execution, of this message. */
    ghost predicate MayRun(message: InboundMessage, wall: Time, mono: Time, runs: seq<Run>)
      reads deduplicator, limiter
    {
      && message.channelIndex == channelIndex && router.authorizer.RoomOpen(message)
      && forall definition, user {:trigger Run(message, definition, user, wall, mono)} ::
        Admitted(runs + [Run(message, definition, user, wall, mono)])
    }

    /** The filters leave room for what their verdict leads to. */
    method Admit(message: InboundMessage, wall: Time, mono: Time, world: World) returns (verdict: Verdict)
      requires Valid() && deduplicator.clock <= wall && limiter.clock <= mono
      modifies deduplicator, limiter
      ensures Valid()
      ensures verdict == old(VerdictOf(message, wall, mono, world))
      ensures deduplicator.clock <= wall && limiter.clock <= mono
      ensures deduplicator.accepted == old(deduplicator.accepted) + StoredOf(verdict, message, wall)
      ensures limiter.accepted == old(limiter.accepted) + AcceptedOf(verdict, message, mono)
      ensures Bounded(router.runs + RunsOf(verdict, message, wall, mono))
    {
      verdict := Filter(message, wall, mono, world);
      VerdictKeepsBounds(verdict, message, wall, mono, router.runs);
    }

    /** The filters, in order. */
    method Filter(message: InboundMessage, wall: Time, mono: Time, world: World) returns (verdict: Verdict)
      requires Valid() && deduplicator.clock <= wall && limiter.clock <= mono
      modifies deduplicator, limiter
      ensures Valid()
      ensures verdict == old(VerdictOf(message, wall, mono, world))
      ensures deduplicator.clock <= wall && limiter.clock <= mono
      ensures deduplicator.accepted == old(deduplicator.accepted) + StoredOf(verdict, message, wall)
      ensures limiter.accepted == old(limiter.accepted) + AcceptedOf(verdict, message, mono)
      ensures verdict.Handled? ==> MayRun(message, wall, mono, router.runs)
    {
      if message.channelIndex != channelIndex {
        return Ignored(WrongChannel);
      }
      router.authorizer.AuthorizedExactly(message, 0, AuthorizedUser("", "", 0));
      if !router.authorizer.AllowsRoom(message) {
        return Ignored(RoomNotAllowed);
      }
      verdict := PassFilters(message, wall, mono, world);
    }

    /** The deduplicator, then the rate limiter. */
    method PassFilters(message: InboundMessage, wall: Time, mono: Time, world: World) returns (verdict: Verdict)
      requires deduplicator.Valid() && limiter.Valid() && Bounded(router.runs)
      requires deduplicator.clock <= wall && limiter.clock <= mono
      requires message.channelIndex == channelIndex && router.authorizer.RoomOpen(message)
      modifies deduplicator, limiter
      ensures deduplicator.Valid() && limiter.Valid() && Bounded(router.runs)
      ensures verdict == old(VerdictOf(message, wall, mono, world))
      ensures deduplicator.clock <= wall && limiter.clock <= mono
      ensures deduplicator.accepted == old(deduplicator.accepted) + StoredOf(verdict, message, wall)
      ensures limiter.accepted == old(limiter.accepted) + AcceptedOf(verdict, message, mono)
      ensures verdict.Handled? ==> MayRun(message, wall, mono, router.runs)
    {
      ghost var history, times := deduplicator.accepted, limiter.accepted;
      ghost var repeats, exhausts := Repeats(message, wall), Exhausts(message, mono);
      var seen := deduplicator.SeenOrStore(message, wall, world.storageFails);
      assert seen.Some? ==> seen.value == repeats;
      if seen.None? {
        return StorageDown;
      } else if seen.value {
        return Ignored(Duplicate);
      }
      var ok := limiter.Allow(message.senderId, mono);
      assert exhausts == RateLimit.UsedUp(times, message.senderId, mono, limiter.maxCommands, limiter.window);
      AcceptanceCovers(Stamps(router.runs), times, RateLimit.Acceptance(message.senderId, mono));
      if !ok {
        return Limited;
      }
      NewRunIsAdmitted(message, wall, mono, router.runs, history, times);
      return Handled;
    }

    /** A message that both filters have just accepted may run. */
    lemma NewRunIsAdmitted(message: InboundMessage, wall: Time, mono: Time, runs: seq<Run>,
                           history: seq<Deduplication.Acceptance>, times: seq<RateLimit.Acceptance>)
      requires message.channelIndex == channelIndex && router.authorizer.RoomOpen(message)
      requires var key, window := Deduplication.Key(message, deduplicator.digest), deduplicator.window as real;
        && AllAdmitted(runs, deduplicator.digest, history) && SpacedRuns(runs, deduplicator.digest, window)
        && deduplicator.accepted == history + [Deduplication.Acceptance(message, key, wall)]
        && !Deduplication.Recent(history, key, wall, window)
      requires Covered(Stamps(runs), times)
      requires limiter.accepted == times + [RateLimit.Acceptance(message.senderId, mono)]
      ensures MayRun(message, wall, mono, runs)
    {
      AcceptanceCovers(Stamps(runs), times, RateLimit.Acceptance(message.senderId, mono));
      forall definition, user
        ensures Admitted(runs + [Run(message, definition, user, wall, mono)])
      {
        var run := Run(message, definition, user, wall, mono);
        NewRunIsSpaced(runs, run, deduplicator.digest, deduplicator.window as real, history);
        assert (runs + [run])[..|runs|] == runs;
      }
    }

    /** Whatever the verdict, what it leads to keeps the bounds. */
    lemma VerdictKeepsBounds(verdict: Verdict, message: InboundMessage, wall: Time, mono: Time, runs: seq<Run>)
      requires Bounded(runs) && (verdict.Handled? ==> MayRun(message, wall, mono, runs))
      ensures Bounded(runs + RunsOf(verdict, message, wall, mono))
    {
      var route := router.RouteOf(message);
      if verdict.Handled? && route.Permitted? {
        router.authorizer.AuthorizedExactly(message, route.definition.minimumRole, route.user);
        assert Admitted(runs + [Run(message, route.definition, route.user, wall, mono)]);
      } else {
        assert runs + [] == runs;
      }
    }

    /** One response: sent, or failed and told so. */
    method Send(message: InboundMessage, trail: AuditTrail, text: string, world: World, skies: nat -> Weather)
      returns (r: Processed)
      requires Wired() && trail in flow.trails
      modifies this, flow`nextId, flow.connection, trail
      ensures Wired() && Tells(old(trail.tale), trail.tale, [Response(world)], Fair(skies))
      ensures flow.Stored().commands == old(flow.Stored().commands)
      ensures outbox == old(outbox) + [Outbound(message, text)] && r == Done(Some(Outbound(message, text)))
    {
      var outbound := OutboundMessage(message.senderId, channelIndex, text, message.replyTarget);
      outbox := outbox + [outbound];
      if !world.sendOk {
        RecordQuietly(flow, trail, ResponseFailed, skies);
        return Done(Some(outbound));
      }
      RecordQuietly(flow, trail, ResponseSent, skies);
      return Done(Some(outbound));
    }

    /** A text that is no command: for a registered sender it may be forwarded. */
    method EndText(message: InboundMessage, trail: AuditTrail, world: World, skies: nat -> Weather)
      requires Wired() && trail in flow.trails
      modifies flow`nextId, flow.connection, trail
      ensures Wired() && Tells(old(trail.tale), trail.tale, TextStory(message, world), Fair(skies))
      ensures flow.Stored().commands == old(flow.Stored().commands)
    {
      if forwards {
        if router.authorizer.RequireMessage(message, READONLY).None? {
          RecordQuietly(flow, trail, MessageIgnored(SenderNotRegistered), skies);
          return;
        }
        if world.forwarded {
          return;
        }
      }
      RecordQuietly(flow, trail, MessageIgnored(NotACommand), skies);
    }

    /** What every reachable state promises of all executions so far: the right channel, an open room
        and a sufficient role; no two of one deduplication key within the window; and no more of one
        sender in any rate window than its cap. */
    lemma RunsAreBounded(i: nat, j: nat, sender: string)
      requires Valid() && i < |router.runs|
      ensures Rightful(router.runs[i], channelIndex, router.authorizer)
      ensures i < j < |router.runs|
        && Deduplication.Key(router.runs[i].message, deduplicator.digest)
          == Deduplication.Key(router.runs[j].message, deduplicator.digest)
        ==> router.runs[j].wall > router.runs[i].wall + deduplicator.window as real
      ensures RateLimit.Capped(RateLimit.TimesOf(Stamps(router.runs), sender), limiter.maxCommands, limiter.window)
    {
      var times := RateLimit.TimesOf(limiter.accepted, sender);
      assert RateLimit.Capped(times, limiter.maxCommands, limiter.window);
      RunsAreCapped(router.runs, limiter.accepted, limiter.maxCommands, limiter.window, sender);
    }

    /** A command whose trail lost nothing: its stored events are the whole story, in one causal
        chain from the message's reception. */
    lemma CommandIsOneChain(message: InboundMessage, trail: AuditTrail, world: World, i: nat)
      requires Valid() && trail in flow.trails && trail.message == message && trail.tale.Lost() == 0
      requires trail.tale.told == [Kind.MessageReceived] + StoryOf(Handled, message, world)
      requires router.parse(message.text).Some? && i < |trail.tale.told|
      ensures var es := trail.tale.stored;
        && Kinds(es) == trail.tale.told && es[i] in flow.Stored().events
        && es[i].correlation == message.correlationId
        && Linked(es, i)
    {
      assert trail.Anchored(flow.Stored().events);
      WholeTaleIsChain(trail.tale, trail.receivedId, trail.Correlation(), i);
      CommandIgnoresNothing(message, world);
      assert i > 0 ==> trail.tale.told[i] == StoryOf(Handled, message, world)[i - 1];
    }

    lemma CommandIgnoresNothing(message: InboundMessage, world: World)
      requires router.parse(message.text).Some?
      ensures forall k | k in StoryOf(Handled, message, world) :: !k.MessageIgnored? && !k.MessageReceived?
    {
      assert router.Reply(message, world.outcome).Some?;
    }

    /** A text that is no command, has passed the filters and is not forwarded. */
    predicate LeftOver(verdict: Verdict, message: InboundMessage, world: World) {
      && verdict.Handled? && router.parse(message.text).None?
      && !(forwards && router.authorizer.RequireMessage(message, READONLY).Some? && world.forwarded)
    }

    /** When no audit write is lost, the events of a message are one causal chain exactly if it is no
        left over text: then the ignored message hangs on the reception, beside the parsed command. */
    lemma OneChainUnlessLeftOver(verdict: Verdict, message: InboundMessage, trail: AuditTrail, world: World)
      requires Valid() && trail in flow.trails && trail.tale.Lost() == 0
      requires trail.tale.told == [Kind.MessageReceived] + StoryOf(verdict, message, world)
      ensures OneChain(trail.tale.stored) <==> !LeftOver(verdict, message, world)
    {
      assert trail.Anchored(flow.Stored().events);
      StoryIgnores(verdict, message, world);
      OneChainExactly(trail.tale, trail.receivedId, trail.Correlation(), flow.Stored().events);
    }

    /** In a message's story only the first event is a reception, and something is ignored later
        than right after it exactly in a left over text's. */
    ghost predicate IgnoresOnlyLeftOver(verdict: Verdict, message: InboundMessage, world: World) {
      var told := [Kind.MessageReceived] + StoryOf(verdict, message, world);
      && (forall i | 0 <= i < |told| :: told[i].MessageReceived? <==> i == 0)
      && (IgnoredAtOnce(told) <==> !LeftOver(verdict, message, world))
    }

    lemma StoryIgnores(verdict: Verdict, message: InboundMessage, world: World)
      ensures IgnoresOnlyLeftOver(verdict, message, world)
    {
      if verdict.Handled? {
        if router.parse(message.text).Some? {
          CommandStoryIgnores(message, world);
        } else {
          TextStoryIgnores(message, world);
        }
      }
    }

    lemma CommandStoryIgnores(message: InboundMessage, world: World)
      requires router.parse(message.text).Some?
      ensures IgnoresOnlyLeftOver(Handled, message, world)
    {
      var story := StoryOf(Handled, message, world);
      CommandIgnoresNothing(message, world);
      var told := [Kind.MessageReceived] + story;
      assert forall i | 1 <= i < |told| :: told[i] == story[i - 1] && story[i - 1] in story;
    }

    lemma TextStoryIgnores(message: InboundMessage, world: World)
      requires router.parse(message.text).None?
      ensures IgnoresOnlyLeftOver(Handled, message, world)
    {
      ShortStory(router.Parsed(message), TextStory(message, world));
      assert StoryOf(Handled, message, world) == [router.Parsed(message)] + TextStory(message, world);
    }
  }

  lemma ShortStory(parsed: Kind, end: seq<Kind>)
    requires parsed.CommandParsed? && (end == [] || (|end| == 1 && end[0].MessageIgnored?))
    ensures var told := [Kind.MessageReceived] + ([parsed] + end);
      && (forall i | 0 <= i < |told| :: told[i].MessageReceived? <==> i == 0)
      && (IgnoredAtOnce(told) <==> end == [])
  {
    if end != [] {
      var told := [Kind.MessageReceived] + ([parsed] + end);
      assert |told| == 3 && told[2] == end[0];
    }
  }
}
