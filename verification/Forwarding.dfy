/** Two-way forwarding between MeshCore and Telegram with echo suppression. Each direction is split
    at the await of its send: a step that decides and admits, and a step that takes the outcome. */
module Forwarding {
  import opened Models
  import opened BridgeHealth
  import opened TelegramStore
  import Migration
  import RateLimit
  import Render
  import StoreRuns
  import Text
  import Transactions
  import Utf8

  const TELEGRAM := "telegram"
  const TELEGRAM_ROOM := "telegram:private:authorized"
  const TELEGRAM_RATE_KEY := "telegram-user:default:authorized:telegram:private:authorized"

  datatype Config = Config(
    meshcorePrefix: string,
    meshcoreMaxBytes: int,
    telegramPrefix: string,
    telegramMaxBytes: int,
    meshcoreRoom: string
  )

  datatype Ignored = Disabled | SelfSent | Empty | Echo | OverLimit

  /** What the first step decides: ignore the message, or send this rendering of it. */
  datatype Decision = Ignore(reason: Ignored) | Send(text: string)

  /** How a send ends. */
  datatype Outcome = Returned | RateLimited | ConsumerConflict | TransportError

  function ReasonOf(o: Outcome): string {
    match o
    case Returned => "none"
    case RateLimited => "rate_limited"
    case ConsumerConflict => "consumer_conflict"
    case TransportError => "transport_error"
  }

  /** What an incoming MeshCore text is compared by, and what a forwarded one is stored under. */
  function EchoOf(roomId: string, text: string): EchoKey {
    StoredEcho(roomId, Text.Normalize(text))
  }

  function StoredEcho(roomId: string, text: string): EchoKey {
    EchoKey(MESHCORE, roomId, text, Utf8.Size(text))
  }

  /** What a text that went, or should have gone, to Telegram is recorded under. */
  function TelegramKey(text: string): EchoKey {
    EchoKey(TELEGRAM, TELEGRAM_ROOM, text, Utf8.Size(text))
  }

  /** Two MeshCore texts are echoes of each other exactly when they come from one room and have the
      same words. */
  lemma EchoKeysExactly(room: string, text: string, other: string, otherText: string)
    ensures EchoOf(room, text) == EchoOf(other, otherText)
      <==> room == other && Text.Words(text) == Text.Words(otherText)
    ensures EchoOf(room, text) == StoredEcho(other, otherText) <==> room == other && Text.Normalize(text) == otherText
    ensures EchoOf(room, text) != TelegramKey(otherText)
  {
    Text.NormalizeSameWords(text, otherText);
  }

  /** No record became consumable, and none was put in another's place. */
  ghost predicate NoNewEcho(before: map<nat, Record>, after: map<nat, Record>) {
    forall k | k in after && after[k].status == AcceptedByMeshcore :: k in before && before[k] == after[k]
  }

  function Attempts(h: Health, d: Direction): nat {
    h.CountersOf(d).success + h.CountersOf(d).failed
  }

  /** The order in which a message can be ignored; what is left is sent as rendered. */
  function Decided(enabled: bool, selfSent: bool, rendered: Option<string>, echo: bool, admitted: bool): Decision {
    if !enabled then Ignore(Disabled)
    else if selfSent then Ignore(SelfSent)
    else if rendered.None? then Ignore(Empty)
    else if echo then Ignore(Echo)
    else if !admitted then Ignore(OverLimit)
    else Send(rendered.value)
  }

  /** Whether a write of the store raises, and what. */
  type Fault = Option<Transactions.Error>

  /** A storage error only degrades the health. */
  function Noted(h: Health, fault: Fault, now: Time): Health {
    match fault
    case None => h
    case Some(Locked) => Apply(h, SetTelegramDb(true, "database_locked", now))
    case Some(Other) => Apply(h, SetTelegramDb(true, "storage_error", now))
  }

  /** A message is sent exactly when forwarding is on and nothing speaks against it; otherwise the
      first reason that applies is given. */
  lemma DecidedExactly(enabled: bool, selfSent: bool, rendered: Option<string>, echo: bool, admitted: bool)
    ensures var d := Decided(enabled, selfSent, rendered, echo, admitted);
      && (d.Send? <==> enabled && !selfSent && rendered.Some? && !echo && admitted)
      && (d.Send? ==> rendered == Some(d.text))
      && (d == Ignore(Disabled) <==> !enabled)
      && (d == Ignore(SelfSent) <==> enabled && selfSent)
      && (d == Ignore(Empty) <==> enabled && !selfSent && rendered.None?)
      && (d == Ignore(Echo) <==> enabled && !selfSent && rendered.Some? && echo)
      && (d == Ignore(OverLimit) <==> enabled && !selfSent && rendered.Some? && !echo && !admitted)
  {
  }

  /** Senders of one room have separate rates. */
  lemma RateKeysExactly(a: InboundMessage, b: InboundMessage)
    requires a.sourceRoom.roomId == b.sourceRoom.roomId
    ensures RateKey(a) == RateKey(b) <==> a.sender == b.sender
  {
    var head := a.sourceRoom.roomId + ":";
    assert RateKey(a)[|head|..] == a.sender && RateKey(b)[|head|..] == b.sender;
  }

  lemma NotedCounters(h: Health, fault: Fault, now: Time)
    ensures Noted(h, fault, now).counters == h.counters
  {
    CountersAfter(h, SetTelegramDb(true, "database_locked", now));
    CountersAfter(h, SetTelegramDb(true, "storage_error", now));
  }

  /** The health after a step that decides: a failed lookup or a failed note of a dropped message
      shows, and nothing else does. */
  function HealthAfter(decision: Decision, h: Health, lookup: Fault, recording: Fault, now: Time): Health {
    match decision
    case Ignore(Echo) => Noted(h, lookup, now)
    case Ignore(Empty) => Noted(h, recording, now)
    case Ignore(OverLimit) => Noted(h, recording, now)
    case _ => h
  }

  lemma AdmittedHealth(decision: Decision, h: Health, lookup: Fault, recording: Fault, now: Time)
    requires decision.Send? || decision == Ignore(OverLimit)
    ensures HealthAfter(decision, h, None, recording, now) == HealthAfter(decision, h, lookup, recording, now)
  {
  }

  /** Forwarding never touches the switches. */
  ghost predicate SameSwitches(a: Health, b: Health) {
    a.configured == b.configured && a.overrides == b.overrides
  }

  lemma NotedKeepsSwitches(h: Health, fault: Fault, now: Time)
    ensures SameSwitches(h, Noted(h, fault, now))
  {
  }

  lemma EndedKeepsSwitches(h: Health, d: Direction, outcome: Outcome, fault: Fault, now: Time)
    ensures SameSwitches(h, Ended(h, d, outcome, fault, now))
  {
    var m := RecordForward(d, outcome.Returned?, ReasonOf(outcome), now);
    NotedKeepsSwitches(h, fault, now);
    NotedKeepsSwitches(Apply(h, m), fault, now);
  }

  /** The health after a send has ended: a success is counted after its record has been stored, a
      failure before. */
  function Ended(h: Health, d: Direction, outcome: Outcome, fault: Fault, now: Time): Health {
    var m := RecordForward(d, outcome.Returned?, ReasonOf(outcome), now);
    if outcome.Returned? then Apply(Noted(h, fault, now), m) else Noted(Apply(h, m), fault, now)
  }

  lemma EndedCounters(h: Health, d: Direction, outcome: Outcome, fault: Fault, now: Time)
    ensures Ended(h, d, outcome, fault, now).counters
      == h.counters[d := Bumped(h.CountersOf(d), outcome.Returned?, now)]
  {
    var m := RecordForward(d, outcome.Returned?, ReasonOf(outcome), now);
    NotedCounters(h, fault, now);
    NotedCounters(Apply(h, m), fault, now);
    CountersAfter(h, m);
    CountersAfter(Noted(h, fault, now), m);
  }

  /** A send that fails leaves its time and its own reason in the health; one that returns, neither. */
  lemma EndedShows(h: Health, d: Direction, outcome: Outcome, now: Time)
    ensures var after := Ended(h, d, outcome, None, now);
      match outcome
      case Returned => after.lastFailure == h.lastFailure && after.failureReason == h.failureReason
      case RateLimited => after.lastFailure == Some(now) && after.failureReason == "rate_limited"
      case ConsumerConflict => after.lastFailure == Some(now) && after.failureReason == "consumer_conflict"
      case TransportError => after.lastFailure == Some(now) && after.failureReason == "transport_error"
  {
    FailureAfter(h, RecordForward(d, outcome.Returned?, ReasonOf(outcome), now));
    SafeReasonExactly(ReasonOf(outcome));
  }

  /** A text that went out to MeshCore, and when its record was stored. */
  datatype Sent = Sent(text: string, at: Time)

  function RecordOf(sent: Sent, room: string): Record {
    Record(StoredEcho(room, sent.text), AcceptedByMeshcore, sent.at, sent.at + PENDING_WINDOW)
  }

  /** Some Telegram text is rendered as this one. */
  ghost predicate IsRendering(text: string, config: Config) {
    exists source :: Render.RenderMeshcore(source, config.meshcorePrefix, config.meshcoreMaxBytes).text == Some(text)
  }

  /** Until it expires, every sent text's record is in the table as it was stored. */
  ghost predicate Remembered(echoes: map<nat, Sent>, pending: map<nat, Record>, clock: Time, config: Config) {
    forall id {:trigger Kept(echoes, pending, clock, config, id)} | id in echoes ::
      Kept(echoes, pending, clock, config, id)
  }

  ghost predicate Kept(echoes: map<nat, Sent>, pending: map<nat, Record>, clock: Time, config: Config, id: nat)
    requires id in echoes
  {
    var sent := echoes[id];
    && IsRendering(sent.text, config)
    && (clock < sent.at + PENDING_WINDOW ==> id in pending && pending[id] == RecordOf(sent, config.meshcoreRoom))
  }

  /** The message is an echo of a sent text whose record has neither expired nor been taken. */
  ghost predicate IsEcho(message: InboundMessage, echoes: map<nat, Sent>, now: Time, config: Config) {
    && message.sourceRoom.roomId == config.meshcoreRoom
    && exists id ::
         id in echoes && now < echoes[id].at + PENDING_WINDOW && Repeats(message.text, echoes[id].text, config)
  }

  /** The text is the sent one up to whitespace, or, under a clean prefix, the sent one itself. */
  predicate Repeats(text: string, sent: string, config: Config) {
    Text.Normalize(text) == sent || (text == sent && Render.CleanPrefix(config.meshcorePrefix))
  }

  /** Such an echo finds its record. */
  lemma EchoIsFound(message: InboundMessage, echoes: map<nat, Sent>, pending: map<nat, Record>, clock: Time, now: Time,
                    config: Config)
    requires Remembered(echoes, pending, clock, config) && clock <= now && IsEcho(message, echoes, now, config)
    ensures !NoMatch(LivePending(pending, now), EchoOf(message.sourceRoom.roomId, message.text))
  {
    var id :| id in echoes && now < echoes[id].at + PENDING_WINDOW && Repeats(message.text, echoes[id].text, config);
    assert Kept(echoes, pending, clock, config, id);
    RenderingNormalizes(echoes[id].text, config);
    assert Text.Normalize(message.text) == echoes[id].text;
    assert Matches(LivePending(pending, now)[id], EchoOf(message.sourceRoom.roomId, message.text));
  }

  lemma RenderingNormalizes(text: string, config: Config)
    requires IsRendering(text, config)
    ensures Render.CleanPrefix(config.meshcorePrefix) ==> Text.Normalize(text) == text
  {
    var source :| Render.RenderMeshcore(source, config.meshcorePrefix, config.meshcoreMaxBytes).text == Some(text);
    if Render.CleanPrefix(config.meshcorePrefix) {
      Render.RenderedIsFixedPoint(source, config.meshcorePrefix, config.meshcoreMaxBytes);
    }
  }

  lemma StillRemembered(echoes: map<nat, Sent>, fewer: map<nat, Sent>,
                        pending: map<nat, Record>, after: map<nat, Record>, clock: Time, now: Time, config: Config)
    requires Remembered(echoes, pending, clock, config) && clock <= now
    requires forall id | id in fewer :: id in echoes && fewer[id] == echoes[id]
    requires forall id | id in fewer && id in pending && now < pending[id].expiresAt ::
      id in after && after[id] == pending[id]
    ensures Remembered(fewer, after, now, config)
  {
    forall id | id in fewer
      ensures Kept(fewer, after, now, config, id)
    {
      assert Kept(echoes, pending, clock, config, id);
    }
  }

  /** The limiter's rule for a sender, from the history of its acceptances. */
  ghost predicate Admits(limiter: RateLimit.RateLimiter, accepted: seq<RateLimit.Acceptance>, key: string, now: Time) {
    !RateLimit.UsedUp(accepted, key, now, limiter.maxCommands, limiter.window)
  }

  function RateKey(m: InboundMessage): string {
    m.sourceRoom.roomId + ":" + m.sender
  }

  class Bridge {
    const config: Config
    const store: TelegramStore
    const health: BridgeHealthState
    const toTelegram: RateLimit.RateLimiter
    const toMeshcore: RateLimit.RateLimiter
    /** Identifiers below this one may be in use. */
    var nextId: nat
    /** Texts admitted in each direction whose send has not ended. */
    var telegramTexts: multiset<string>
    var meshcoreTexts: multiset<string>
    /** The records of texts sent to MeshCore that no echo has taken, and the store's last clock reading. */
    ghost var echoes: map<nat, Sent>
    ghost var clock: Time

    /** Forwarding is conserved: in each direction the successes, the failures and the sends still
        running are the messages its rate limiter ever admitted. */
    ghost predicate Conserved()
      reads this, health, toTelegram, toMeshcore
    {
      && Attempts(health.health, MeshcoreToTelegram) + |telegramTexts| == |toTelegram.accepted|
      && Attempts(health.health, TelegramToMeshcore) + |meshcoreTexts| == |toMeshcore.accepted|
    }

    /** What is in flight to MeshCore is rendered, and what went there is remembered. */
    ghost predicate Remembers()
      reads this, store
    {
      && (forall k | k in store.pending :: k < nextId) && (forall id | id in echoes :: id < nextId)
      && (forall text | text in meshcoreTexts :: IsRendering(text, config))
      && Remembered(echoes, store.pending, clock, config)
    }

    ghost predicate Valid()
      reads this, store, health, toTelegram, toMeshcore
    {
      && toTelegram != toMeshcore && toTelegram.Valid() && toMeshcore.Valid()
      && Conserved() && Remembers()
    }

    constructor (config: Config, store: TelegramStore, health: BridgeHealthState,
                 toTelegram: RateLimit.RateLimiter, toMeshcore: RateLimit.RateLimiter, firstId: nat, ghost start: Time)
      requires toTelegram != toMeshcore && toTelegram.Valid() && toMeshcore.Valid()
      requires toTelegram.accepted == toMeshcore.accepted == []
      requires Attempts(health.health, MeshcoreToTelegram) == Attempts(health.health, TelegramToMeshcore) == 0
      requires forall k | k in store.pending :: k < firstId
      ensures Valid() && telegramTexts == meshcoreTexts == multiset{} && echoes == map[] && clock == start
      ensures this.config == config && this.store == store && this.health == health
      ensures this.toTelegram == toTelegram && this.toMeshcore == toMeshcore
    {
      this.config, this.store, this.health := config, store, health;
      this.toTelegram, this.toMeshcore := toTelegram, toMeshcore;
      nextId, telegramTexts, meshcoreTexts := firstId, multiset{}, multiset{};
      echoes, clock := map[], start;
    }

    /** The bridge of a process that starts after another one stopped: the start-up migration runs
        over the store, counters and limiters are new, what was in flight is lost, and what was sent
        is remembered. */
    constructor Restarted(previous: Bridge, source: Tables, migrationFails: bool, health: BridgeHealthState,
                          toTelegram: RateLimit.RateLimiter, toMeshcore: RateLimit.RateLimiter, firstId: nat)
      requires previous.Valid() && previous.nextId <= firstId
      requires forall k | k in source.pending :: k < firstId
      requires toTelegram != toMeshcore && toTelegram.Valid() && toMeshcore.Valid()
      requires toTelegram.accepted == toMeshcore.accepted == []
      requires Attempts(health.health, MeshcoreToTelegram) == Attempts(health.health, TelegramToMeshcore) == 0
      modifies previous.store
      ensures Valid() && telegramTexts == meshcoreTexts == multiset{}
      ensures config == previous.config && store == previous.store
      ensures this.health == health && this.toTelegram == toTelegram && this.toMeshcore == toMeshcore
      ensures echoes == previous.echoes && clock == previous.clock
      ensures store.Contents() == if migrationFails then old(previous.store.Contents())
        else Migration.Replay(source, old(previous.store.Contents()))
    {
      config, store, this.health := previous.config, previous.store, health;
      this.toTelegram, this.toMeshcore := toTelegram, toMeshcore;
      nextId, telegramTexts, meshcoreTexts := firstId, multiset{}, multiset{};
      echoes, clock := previous.echoes, previous.clock;
      new;
      Migration.MigrateTelegramTables(source, previous.store, migrationFails);
      StillRemembered(echoes, echoes, old(previous.store.pending), store.pending, clock, clock, config);
    }

    predicate IsNoted(id: nat, key: EchoKey, status: Status, now: Time)
      reads store
    {
      id in store.pending && store.pending[id] == Record(key, status, now, now + PENDING_WINDOW)
    }

    /** Stores a record under a new identifier. */
    method NoteRecord(key: EchoKey, status: Status, now: Time, fault: Fault)
      requires Remembers() && clock <= now
      modifies this`nextId, this`clock, store, health
      ensures Remembers() && clock == now && nextId == old(nextId) + 1
      ensures status != AcceptedByMeshcore ==> NoNewEcho(old(store.pending), store.pending)
      ensures fault.None? ==> IsNoted(old(nextId), key, status, now)
      ensures fault.Some? ==> store.pending == old(store.pending)
      ensures health.health == Noted(old(health.health), fault, now)
      ensures health.health.counters == old(health.health.counters)
    {
      ghost var before := store.pending;
      var answer := store.CreateBridgeRecord(nextId, key, status, now, fault.Some?);
      StillRemembered(echoes, echoes, before, store.pending, clock, now, config);
      nextId := nextId + 1;
      clock := now;
      DegradeOn(fault, now);
    }

    /** What a storage error does to the health. */
    method DegradeOn(fault: Fault, now: Time)
      modifies health
      ensures health.health == Noted(old(health.health), fault, now)
      ensures health.health.counters == old(health.health.counters)
    {
      NotedCounters(health.health, fault, now);
      if fault.Some? {
        var reason := if fault.value.Locked? then "database_locked" else "storage_error";
        var critical := health.Change(SetTelegramDb(true, reason, now));
      }
    }

    /** MeshCore to Telegram, up to the send. `now` is the wall clock of the store, `monotonic` the
        clock of the limiter. A message that is disabled, self-sent, empty or an echo spends no
        limiter budget. An unexpired record of the same text in the same room makes it an echo; so
        does a storage error. Hence an enabled echo of anything sent is never sent back. */
    method ReceiveFromMeshcore(message: InboundMessage, now: Time, monotonic: Time, lookup: Fault, recording: Fault)
      returns (decision: Decision, ghost taken: Option<nat>)
      requires Valid() && clock <= now && toTelegram.clock <= monotonic
      modifies this, store, health, toTelegram
      ensures Valid() && clock <= now && toTelegram.clock <= monotonic && meshcoreTexts == old(meshcoreTexts)
      ensures NoNewEcho(old(store.pending), store.pending)
      ensures telegramTexts == if decision.Send? then old(telegramTexts) + multiset{decision.text}
        else old(telegramTexts)
      ensures decision.Ignore? ==> toTelegram.accepted == old(toTelegram.accepted)
      ensures decision.Ignore? && !decision.reason.OverLimit? ==> toTelegram.clock == old(toTelegram.clock)
      ensures decision == DecisionOn(message, old(health.health), old(store.pending), old(toTelegram.accepted), now,
        monotonic, lookup)
      ensures decision == Ignore(Echo) && lookup.None? ==>
        var op := ConsumeEcho(EchoOf(message.sourceRoom.roomId, message.text));
        && taken.Some? && Allowed(old(store.Contents()), now, op, Consumed(taken))
        && store.Contents() == After(old(store.Contents()), now, op, Consumed(taken))
      ensures echoes == if taken.Some? then old(echoes) - {taken.value} else old(echoes)
      ensures IsEcho(message, old(echoes), now, config) && Forwardable(message, old(health.health)) ==>
        decision == Ignore(Echo)
      ensures health.health == HealthAfter(decision, old(health.health), lookup, recording, now)
      ensures recording.None? && decision == Ignore(Empty) ==> IsNoted(old(nextId), TelegramKey(""), Dropped, now)
      ensures recording.None? && decision == Ignore(OverLimit) ==>
        var text := Render.RenderTelegram(message.text, config.telegramPrefix, config.telegramMaxBytes).text;
        IsNoted(old(nextId), TelegramKey(text.value), Dropped, now)
      ensures decision.Send? ==>
        Render.GoesToTelegram(message.text, config.telegramPrefix, config.telegramMaxBytes, decision.text)
    {
      EchoIsIgnored(message, now, monotonic, lookup);
      Render.TelegramGetsTheText(message.text, config.telegramPrefix, config.telegramMaxBytes);
      decision, taken := DecideOnMeshcore(message, now, monotonic, lookup, recording);
    }

    method DecideOnMeshcore(message: InboundMessage, now: Time, monotonic: Time, lookup: Fault, recording: Fault)
      returns (decision: Decision, ghost taken: Option<nat>)
      requires Valid() && clock <= now && toTelegram.clock <= monotonic
      modifies this, store, health, toTelegram
      ensures Valid() && clock <= now && toTelegram.clock <= monotonic && meshcoreTexts == old(meshcoreTexts)
      ensures NoNewEcho(old(store.pending), store.pending)
      ensures telegramTexts == if decision.Send? then old(telegramTexts) + multiset{decision.text}
        else old(telegramTexts)
      ensures decision.Ignore? ==> toTelegram.accepted == old(toTelegram.accepted)
      ensures decision.Ignore? && !decision.reason.OverLimit? ==> toTelegram.clock == old(toTelegram.clock)
      ensures decision == DecisionOn(message, old(health.health), old(store.pending), old(toTelegram.accepted), now,
        monotonic, lookup)
      ensures decision == Ignore(Echo) && lookup.None? ==>
        var op := ConsumeEcho(EchoOf(message.sourceRoom.roomId, message.text));
        && taken.Some? && Allowed(old(store.Contents()), now, op, Consumed(taken))
        && store.Contents() == After(old(store.Contents()), now, op, Consumed(taken))
      ensures echoes == if taken.Some? then old(echoes) - {taken.value} else old(echoes)
      ensures health.health == HealthAfter(decision, old(health.health), lookup, recording, now)
      ensures recording.None? && decision == Ignore(Empty) ==> IsNoted(old(nextId), TelegramKey(""), Dropped, now)
      ensures recording.None? && decision == Ignore(OverLimit) ==>
        var text := Render.RenderTelegram(message.text, config.telegramPrefix, config.telegramMaxBytes).text;
        IsNoted(old(nextId), TelegramKey(text.value), Dropped, now)
    {
      taken := None;
      var rendered := Render.RenderTelegram(message.text, config.telegramPrefix, config.telegramMaxBytes);
      if !health.health.Effective(Forward(MeshcoreToTelegram)) {
        return Ignore(Disabled), None;
      }
      if message.selfSent {
        return Ignore(SelfSent), None;
      }
      if rendered.text.None? {
        NoteDropped(TelegramKey(""), now, recording);
        return Ignore(Empty), None;
      }
      decision, taken := SuppressOrAdmit(message, rendered.text.value, now, monotonic, lookup, recording);
    }

    /** Takes an echo's record, or asks the limiter about a message that is none. */
    method SuppressOrAdmit(message: InboundMessage, text: string, now: Time, monotonic: Time, lookup: Fault,
                           recording: Fault)
      returns (decision: Decision, ghost taken: Option<nat>)
      requires Valid() && clock <= now && toTelegram.clock <= monotonic
      modifies this`nextId, this`clock, this`echoes, this`telegramTexts, store, health, toTelegram
      ensures Valid() && clock <= now && toTelegram.clock <= monotonic
      ensures NoNewEcho(old(store.pending), store.pending)
      ensures telegramTexts == if decision.Send? then old(telegramTexts) + multiset{text} else old(telegramTexts)
      ensures decision.Ignore? ==> toTelegram.accepted == old(toTelegram.accepted)
      ensures decision == Ignore(Echo) ==> toTelegram.clock == old(toTelegram.clock)
      ensures decision == Decided(true, false, Some(text),
        lookup.Some? || !NoMatch(LivePending(old(store.pending), now), EchoOf(message.sourceRoom.roomId, message.text)),
        Admits(toTelegram, old(toTelegram.accepted), RateKey(message), monotonic))
      ensures decision == Ignore(Echo) && lookup.None? ==>
        var op := ConsumeEcho(EchoOf(message.sourceRoom.roomId, message.text));
        && taken.Some? && Allowed(old(store.Contents()), now, op, Consumed(taken))
        && store.Contents() == After(old(store.Contents()), now, op, Consumed(taken))
      ensures echoes == if taken.Some? then old(echoes) - {taken.value} else old(echoes)
      ensures health.health == HealthAfter(decision, old(health.health), lookup, recording, now)
      ensures decision == Ignore(OverLimit) && recording.None? ==> IsNoted(old(nextId), TelegramKey(text), Dropped, now)
    {
      var echoed;
      echoed, taken := IsPendingEcho(message, now, lookup);
      if echoed {
        return Ignore(Echo), taken;
      }
      assert lookup.None? && taken == None && health.health == old(health.health);
      assert echoes == old(echoes) && nextId == old(nextId);
      decision := AdmitToTelegram(message, text, now, monotonic, recording);
      AdmittedHealth(decision, old(health.health), lookup, recording, now);
    }

    /** Forwarding is enabled, and the message is another's and not empty. */
    predicate Forwardable(message: InboundMessage, h: Health) {
      && h.Effective(Forward(MeshcoreToTelegram)) && !message.selfSent
      && Render.RenderTelegram(message.text, config.telegramPrefix, config.telegramMaxBytes).text.Some?
    }

    /** An echo that could be forwarded is decided on as one. */
    lemma EchoIsIgnored(message: InboundMessage, now: Time, monotonic: Time, lookup: Fault)
      requires Remembers() && clock <= now
      ensures IsEcho(message, echoes, now, config) && Forwardable(message, health.health) ==>
        DecisionOn(message, health.health, store.pending, toTelegram.accepted, now, monotonic, lookup) == Ignore(Echo)
    {
      if IsEcho(message, echoes, now, config) {
        EchoIsFound(message, echoes, store.pending, clock, now, config);
      }
    }

    /** Notes a message that is not forwarded. */
    method NoteDropped(key: EchoKey, now: Time, recording: Fault)
      requires Valid() && clock <= now
      modifies this`nextId, this`clock, store, health
      ensures Valid() && clock == now && NoNewEcho(old(store.pending), store.pending)
      ensures health.health == Noted(old(health.health), recording, now)
      ensures recording.None? ==> IsNoted(old(nextId), key, Dropped, now)
    {
      NoteRecord(key, Dropped, now, recording);
    }

    /** What is decided on a MeshCore message, from the state before it. */
    ghost function DecisionOn(message: InboundMessage, h: Health, pending: map<nat, Record>,
                              accepted: seq<RateLimit.Acceptance>, now: Time, monotonic: Time,
                              lookup: Fault): Decision {
      var rendered := Render.RenderTelegram(message.text, config.telegramPrefix, config.telegramMaxBytes).text;
      var key := EchoOf(message.sourceRoom.roomId, message.text);
      Decided(h.Effective(Forward(MeshcoreToTelegram)), message.selfSent, rendered,
        lookup.Some? || !NoMatch(LivePending(pending, now), key),
        Admits(toTelegram, accepted, RateKey(message), monotonic))
    }

    /** The limiter's word on a message that is no echo. */
    method AdmitToTelegram(message: InboundMessage, text: string, now: Time, monotonic: Time, recording: Fault)
      returns (decision: Decision)
      requires Valid() && clock <= now && toTelegram.clock <= monotonic
      modifies this`nextId, this`clock, this`telegramTexts, store, health, toTelegram
      ensures Valid() && clock <= now && toTelegram.clock <= monotonic
      ensures NoNewEcho(old(store.pending), store.pending)
      ensures decision == if Admits(toTelegram, old(toTelegram.accepted), RateKey(message), monotonic)
        then Send(text) else Ignore(OverLimit)
      ensures telegramTexts == if decision.Send? then old(telegramTexts) + multiset{text} else old(telegramTexts)
      ensures decision.Ignore? ==> toTelegram.accepted == old(toTelegram.accepted)
      ensures health.health == HealthAfter(decision, old(health.health), None, recording, now)
      ensures decision.Ignore? && recording.None? ==> IsNoted(old(nextId), TelegramKey(text), Dropped, now)
    {
      var admitted := toTelegram.Allow(RateKey(message), monotonic);
      if !admitted {
        NoteDropped(TelegramKey(text), now, recording);
        return Ignore(OverLimit);
      }
      telegramTexts := telegramTexts + multiset{text};
      return Send(text);
    }

    method IsPendingEcho(message: InboundMessage, now: Time, lookup: Fault)
      returns (echoed: bool, ghost taken: Option<nat>)
      requires Valid() && clock <= now
      modifies this`clock, this`echoes, store, health
      ensures Valid() && clock == now && NoNewEcho(old(store.pending), store.pending)
      ensures echoed == (lookup.Some?
        || !NoMatch(LivePending(old(store.pending), now), EchoOf(message.sourceRoom.roomId, message.text)))
      ensures health.health == Noted(old(health.health), lookup, now)
      ensures lookup.Some? ==> taken == None
      ensures lookup.None? ==> var op := ConsumeEcho(EchoOf(message.sourceRoom.roomId, message.text));
        && taken.Some? == echoed
        && Allowed(old(store.Contents()), now, op, Consumed(taken))
        && store.Contents() == After(old(store.Contents()), now, op, Consumed(taken))
      ensures echoes == if taken.Some? then old(echoes) - {taken.value} else old(echoes)
    {
      echoed, taken := LookUpEcho(message, now, lookup);
    }

    method LookUpEcho(message: InboundMessage, now: Time, lookup: Fault)
      returns (echoed: bool, ghost taken: Option<nat>)
      requires Remembers() && clock <= now
      modifies this`clock, this`echoes, store, health
      ensures Remembers() && clock == now && NoNewEcho(old(store.pending), store.pending)
      ensures echoed == (lookup.Some?
        || !NoMatch(LivePending(old(store.pending), now), EchoOf(message.sourceRoom.roomId, message.text)))
      ensures health.health == Noted(old(health.health), lookup, now)
      ensures lookup.Some? ==> taken == None
      ensures lookup.None? ==> var op := ConsumeEcho(EchoOf(message.sourceRoom.roomId, message.text));
        && taken.Some? == echoed
        && Allowed(old(store.Contents()), now, op, Consumed(taken))
        && store.Contents() == After(old(store.Contents()), now, op, Consumed(taken))
      ensures echoes == if taken.Some? then old(echoes) - {taken.value} else old(echoes)
      ensures health.health.counters == old(health.health.counters)
    {
      var answer := TakeEcho(EchoOf(message.sourceRoom.roomId, message.text), now, lookup.Some?);
      taken := if answer.Consumed? then answer.id else None;
      DegradeOn(lookup, now);
      echoed := answer.StorageError? || answer.id.Some?;
    }

    /** Takes a record; what it remembers of the sent texts is what the table still holds. */
    method TakeEcho(key: EchoKey, now: Time, fails: bool) returns (answer: Answer)
      requires Remembers() && clock <= now
      modifies this`clock, this`echoes, store
      ensures Remembers() && clock == now
      ensures answer.StorageError? <==> fails
      ensures Allowed(old(store.Contents()), now, ConsumeEcho(key), answer)
      ensures store.Contents() == After(old(store.Contents()), now, ConsumeEcho(key), answer)
      ensures echoes
        == if answer.Consumed? && answer.id.Some? then old(echoes) - {answer.id.value} else old(echoes)
    {
      ghost var before := store.pending;
      answer := store.ConsumePendingEcho(key, now, fails);
      ghost var fewer := if answer.Consumed? && answer.id.Some? then echoes - {answer.id.value} else echoes;
      StillRemembered(echoes, fewer, before, store.pending, clock, now, config);
      echoes, clock := fewer, now;
    }

    /** MeshCore to Telegram, after the send of a text that was admitted. */
    method TelegramSendEnded(text: string, outcome: Outcome, now: Time, recording: Fault)
      requires Valid() && clock <= now && text in telegramTexts
      modifies this`nextId, this`clock, this`telegramTexts, store, health
      ensures Valid() && clock == now && telegramTexts == old(telegramTexts) - multiset{text}
      ensures NoNewEcho(old(store.pending), store.pending)
      ensures health.health == Ended(old(health.health), MeshcoreToTelegram, outcome, recording, now)
      ensures recording.None? ==>
        IsNoted(old(nextId), TelegramKey(text), if outcome.Returned? then AcceptedByTelegram else Failed, now)
    {
      var key := TelegramKey(text);
      if outcome.Returned? {
        NoteRecord(key, AcceptedByTelegram, now, recording);
        CountTelegramEnd(text, outcome, now);
      } else {
        CountTelegramEnd(text, outcome, now);
        NoteRecord(key, Failed, now, recording);
      }
    }

    /** Telegram to MeshCore, up to the send. */
    method ReceiveFromTelegram(text: string, now: Time, monotonic: Time, recording: Fault) returns (decision: Decision)
      requires Valid() && clock <= now && toMeshcore.clock <= monotonic
      modifies this`nextId, this`clock, this`meshcoreTexts, store, health, toMeshcore
      ensures Valid() && clock <= now && toMeshcore.clock <= monotonic
      ensures NoNewEcho(old(store.pending), store.pending)
      ensures meshcoreTexts == if decision.Send? then old(meshcoreTexts) + multiset{decision.text}
        else old(meshcoreTexts)
      ensures decision.Ignore? ==> toMeshcore.accepted == old(toMeshcore.accepted)
      ensures decision.Ignore? && !decision.reason.OverLimit? ==> toMeshcore.clock == old(toMeshcore.clock)
      ensures decision == TelegramDecision(text, old(health.health), old(toMeshcore.accepted), monotonic)
      ensures health.health == HealthAfter(decision, old(health.health), None, recording, now)
      ensures recording.None? && decision == Ignore(Empty) ==>
        IsNoted(old(nextId), StoredEcho(config.meshcoreRoom, ""), Dropped, now)
      ensures recording.None? && decision == Ignore(OverLimit) ==>
        var sent := Render.RenderMeshcore(text, config.meshcorePrefix, config.meshcoreMaxBytes).text;
        IsNoted(old(nextId), StoredEcho(config.meshcoreRoom, sent.value), Dropped, now)
      ensures decision.Send? ==>
        Render.GoesToMeshcore(text, config.meshcorePrefix, config.meshcoreMaxBytes, decision.text)
    {
      Render.MeshcoreGetsTheText(text, config.meshcorePrefix, config.meshcoreMaxBytes);
      var rendered := Render.RenderMeshcore(text, config.meshcorePrefix, config.meshcoreMaxBytes);
      if !health.health.Effective(Forward(TelegramToMeshcore)) {
        return Ignore(Disabled);
      }
      if rendered.text.None? {
        NoteDropped(StoredEcho(config.meshcoreRoom, ""), now, recording);
        return Ignore(Empty);
      }
      decision := AdmitToMeshcore(rendered.text.value, now, monotonic, recording);
    }

    /** What is decided on a Telegram text, from the state before it. */
    ghost function TelegramDecision(text: string, h: Health, accepted: seq<RateLimit.Acceptance>,
                                    monotonic: Time): Decision {
      Decided(h.Effective(Forward(TelegramToMeshcore)), false,
        Render.RenderMeshcore(text, config.meshcorePrefix, config.meshcoreMaxBytes).text, false,
        Admits(toMeshcore, accepted, TELEGRAM_RATE_KEY, monotonic))
    }

    /** The limiter's word on a rendered text. */
    method AdmitToMeshcore(text: string, now: Time, monotonic: Time, recording: Fault) returns (decision: Decision)
      requires Valid() && clock <= now && toMeshcore.clock <= monotonic && IsRendering(text, config)
      modifies this`nextId, this`clock, this`meshcoreTexts, store, health, toMeshcore
      ensures Valid() && clock <= now && toMeshcore.clock <= monotonic
      ensures NoNewEcho(old(store.pending), store.pending)
      ensures decision == if Admits(toMeshcore, old(toMeshcore.accepted), TELEGRAM_RATE_KEY, monotonic)
        then Send(text) else Ignore(OverLimit)
      ensures meshcoreTexts == if decision.Send? then old(meshcoreTexts) + multiset{text} else old(meshcoreTexts)
      ensures decision.Ignore? ==> toMeshcore.accepted == old(toMeshcore.accepted)
      ensures health.health == HealthAfter(decision, old(health.health), None, recording, now)
      ensures decision.Ignore? && recording.None? ==>
        IsNoted(old(nextId), StoredEcho(config.meshcoreRoom, text), Dropped, now)
    {
      var admitted := toMeshcore.Allow(TELEGRAM_RATE_KEY, monotonic);
      if !admitted {
        NoteDropped(StoredEcho(config.meshcoreRoom, text), now, recording);
        return Ignore(OverLimit);
      }
      meshcoreTexts := meshcoreTexts + multiset{text};
      return Send(text);
    }

    /** Telegram to MeshCore, after the send of a text that was admitted. Only a send that returned
        leaves a consumable record, under the text that was sent. */
    method MeshcoreSendEnded(text: string, outcome: Outcome, now: Time, recording: Fault)
      requires Valid() && clock <= now && text in meshcoreTexts
      modifies this`nextId, this`clock, this`meshcoreTexts, this`echoes, store, health
      ensures Valid() && clock == now && meshcoreTexts == old(meshcoreTexts) - multiset{text}
      ensures !outcome.Returned? || recording.Some? ==>
        NoNewEcho(old(store.pending), store.pending) && echoes == old(echoes)
      ensures outcome.Returned? && recording.None? ==>
        && old(nextId) in store.pending
        && store.pending[old(nextId)] == RecordOf(Sent(text, now), config.meshcoreRoom)
        && echoes == old(echoes)[old(nextId) := Sent(text, now)]
      ensures health.health == Ended(old(health.health), TelegramToMeshcore, outcome, recording, now)
      ensures !outcome.Returned? && recording.None? ==>
        IsNoted(old(nextId), StoredEcho(config.meshcoreRoom, text), Failed, now)
    {
      if outcome.Returned? {
        MeshcoreSendReturned(text, now, recording);
      } else {
        MeshcoreSendFailed(text, outcome, now, recording);
      }
    }

    method MeshcoreSendReturned(text: string, now: Time, recording: Fault)
      requires Valid() && clock <= now && text in meshcoreTexts
      modifies this`nextId, this`clock, this`meshcoreTexts, this`echoes, store, health
      ensures Valid() && clock == now && meshcoreTexts == old(meshcoreTexts) - multiset{text}
      ensures recording.Some? ==> store.pending == old(store.pending) && echoes == old(echoes)
      ensures recording.None? ==>
        && old(nextId) in store.pending
        && store.pending[old(nextId)] == RecordOf(Sent(text, now), config.meshcoreRoom)
        && echoes == old(echoes)[old(nextId) := Sent(text, now)]
      ensures health.health == Ended(old(health.health), TelegramToMeshcore, Returned, recording, now)
    {
      RecordSent(text, now, recording);
      CountMeshcoreEnd(text, Returned, now);
    }

    method MeshcoreSendFailed(text: string, outcome: Outcome, now: Time, recording: Fault)
      requires Valid() && clock <= now && text in meshcoreTexts && !outcome.Returned?
      modifies this`nextId, this`clock, this`meshcoreTexts, store, health
      ensures Valid() && clock == now && meshcoreTexts == old(meshcoreTexts) - multiset{text}
      ensures NoNewEcho(old(store.pending), store.pending)
      ensures health.health == Ended(old(health.health), TelegramToMeshcore, outcome, recording, now)
      ensures recording.None? ==> IsNoted(old(nextId), StoredEcho(config.meshcoreRoom, text), Failed, now)
    {
      CountMeshcoreEnd(text, outcome, now);
      NoteRecord(StoredEcho(config.meshcoreRoom, text), Failed, now, recording);
    }

    /** Stores the record by which a sent text is recognised when it comes back. */
    method RecordSent(text: string, now: Time, recording: Fault)
      requires Remembers() && clock <= now && text in meshcoreTexts
      modifies this`nextId, this`clock, this`echoes, store, health
      ensures Remembers() && clock == now && health.health == Noted(old(health.health), recording, now)
      ensures recording.Some? ==> store.pending == old(store.pending) && echoes == old(echoes)
      ensures recording.None? ==>
        && old(nextId) in store.pending
        && store.pending[old(nextId)] == RecordOf(Sent(text, now), config.meshcoreRoom)
        && echoes == old(echoes)[old(nextId) := Sent(text, now)]
      ensures health.health.counters == old(health.health.counters)
    {
      ghost var id := nextId;
      NoteRecord(StoredEcho(config.meshcoreRoom, text), AcceptedByMeshcore, now, recording);
      if recording.None? {
        Remember(id, Sent(text, now));
      }
    }

    ghost method Remember(id: nat, sent: Sent)
      requires Remembers() && IsRendering(sent.text, config) && id < nextId
      requires id in store.pending && store.pending[id] == RecordOf(sent, config.meshcoreRoom)
      modifies this`echoes
      ensures Remembers() && echoes == old(echoes)[id := sent]
    {
      ghost var before := echoes;
      echoes := echoes[id := sent];
      forall other | other in echoes
        ensures Kept(echoes, store.pending, clock, config, other)
      {
        if other != id {
          assert Kept(before, store.pending, clock, config, other);
        }
      }
    }

    /** Counts the end of one send to Telegram. */
    method CountTelegramEnd(text: string, outcome: Outcome, now: Time)
      requires Valid() && text in telegramTexts
      modifies this`telegramTexts, health
      ensures Valid() && telegramTexts == old(telegramTexts) - multiset{text}
      ensures health.health
        == Apply(old(health.health), RecordForward(MeshcoreToTelegram, outcome.Returned?, ReasonOf(outcome), now))
    {
      var m := RecordForward(MeshcoreToTelegram, outcome.Returned?, ReasonOf(outcome), now);
      CountersAfter(health.health, m);
      var critical := health.Change(m);
      telegramTexts := telegramTexts - multiset{text};
    }

    /** Counts the end of one send to MeshCore. */
    method CountMeshcoreEnd(text: string, outcome: Outcome, now: Time)
      requires Valid() && text in meshcoreTexts
      modifies this`meshcoreTexts, health
      ensures Valid() && meshcoreTexts == old(meshcoreTexts) - multiset{text}
      ensures health.health
        == Apply(old(health.health), RecordForward(TelegramToMeshcore, outcome.Returned?, ReasonOf(outcome), now))
    {
      var m := RecordForward(TelegramToMeshcore, outcome.Returned?, ReasonOf(outcome), now);
      CountersAfter(health.health, m);
      var critical := health.Change(m);
      meshcoreTexts := meshcoreTexts - multiset{text};
    }

    method Hear(message: InboundMessage, now: Time, monotonic: Time, lookup: Fault, recording: Fault)
      returns (ghost heard: Heard)
      requires Valid() && clock <= now && toTelegram.clock <= monotonic
      modifies this, store, health, toTelegram
      ensures Valid() && clock <= now && toTelegram.clock <= monotonic
      ensures heard.echo ==> heard.decision == Ignore(Echo)
      ensures heard.decision == DecisionOn(message, old(health.health), old(store.pending), old(toTelegram.accepted),
        now, monotonic, lookup)
      ensures telegramTexts
        == if heard.decision.Send? then old(telegramTexts) + multiset{heard.decision.text} else old(telegramTexts)
    {
      ghost var echo := IsEcho(message, echoes, now, config) && Forwardable(message, health.health);
      ghost var taken;
      var decision;
      decision, taken := ReceiveFromMeshcore(message, now, monotonic, lookup, recording);
      heard := Heard(echo, decision);
    }

    /** One step of any task, when it can happen. */
    method Take(t: Tick) returns (ghost heard: Option<Heard>)
      requires Valid() && t.Follows(clock, toTelegram.clock, toMeshcore.clock)
      modifies this, store, health, toTelegram, toMeshcore
      ensures Valid() && clock <= t.now && toTelegram.clock <= t.monotonic && toMeshcore.clock <= t.monotonic
      ensures heard.Some? && heard.value.echo ==> heard.value.decision == Ignore(Echo)
      ensures heard.Some? <==> t.step.FromMeshcore?
      ensures t.step.FromMeshcore? ==>
        heard.value.decision == DecisionOn(t.step.message, old(health.health), old(store.pending),
          old(toTelegram.accepted), t.now, t.monotonic, t.step.lookup)
      ensures t.step.FromTelegram? ==>
        var decision := TelegramDecision(t.step.text, old(health.health), old(toMeshcore.accepted), t.monotonic);
        meshcoreTexts == if decision.Send? then old(meshcoreTexts) + multiset{decision.text} else old(meshcoreTexts)
      ensures t.step.TelegramEnds? && t.step.text in old(telegramTexts) ==>
        telegramTexts == old(telegramTexts) - multiset{t.step.text}
      ensures t.step.MeshcoreEnds? && t.step.text in old(meshcoreTexts) ==>
        meshcoreTexts == old(meshcoreTexts) - multiset{t.step.text}
    {
      heard := None;
      match t.step {
        case FromMeshcore(message, lookup, recording) =>
          ghost var h := Hear(message, t.now, t.monotonic, lookup, recording);
          heard := Some(h);
        case _ =>
          TakeOther(t.step, t.now, t.monotonic);
      }
    }

    method TakeOther(step: Step, now: Time, monotonic: Time)
      requires Valid() && clock <= now && toMeshcore.clock <= monotonic
      modifies this, store, health, toMeshcore
      ensures Valid() && clock <= now && toMeshcore.clock <= monotonic
      ensures step.FromTelegram? ==>
        var decision := TelegramDecision(step.text, old(health.health), old(toMeshcore.accepted), monotonic);
        meshcoreTexts == if decision.Send? then old(meshcoreTexts) + multiset{decision.text} else old(meshcoreTexts)
      ensures step.TelegramEnds? && step.text in old(telegramTexts) ==>
        telegramTexts == old(telegramTexts) - multiset{step.text}
      ensures step.MeshcoreEnds? && step.text in old(meshcoreTexts) ==>
        meshcoreTexts == old(meshcoreTexts) - multiset{step.text}
    {
      match step {
        case FromTelegram(text, recording) =>
          var decision := ReceiveFromTelegram(text, now, monotonic, recording);
        case _ =>
          TakeEnd(step, now);
      }
    }

    /** The end of a send, or a change of the health by another task. */
    method TakeEnd(step: Step, now: Time)
      requires Valid() && clock <= now
      modifies this, store, health
      ensures Valid() && clock <= now
      ensures step.TelegramEnds? && step.text in old(telegramTexts) ==>
        telegramTexts == old(telegramTexts) - multiset{step.text}
      ensures step.MeshcoreEnds? && step.text in old(meshcoreTexts) ==>
        meshcoreTexts == old(meshcoreTexts) - multiset{step.text}
    {
      match step {
        case TelegramEnds(text, outcome, recording) =>
          if text in telegramTexts {
            TelegramSendEnded(text, outcome, now, recording);
          }
        case MeshcoreEnds(text, outcome, recording) =>
          if text in meshcoreTexts {
            MeshcoreSendEnded(text, outcome, now, recording);
          }
        case Mutates(m) =>
          if !m.RecordForward? {
            CountersAfter(health.health, m);
            var critical := health.Change(m);
          }
        case _ =>
      }
    }

    /** Any run of the bridge, its steps interleaved with each other and with changes of the health:
        forwarding stays conserved, and no echo that could be forwarded is. */
    method Run(ticks: seq<Tick>) returns (ghost heard: seq<Heard>)
      requires Valid() && InTime(ticks, clock, toTelegram.clock, toMeshcore.clock)
      modifies this, store, health, toTelegram, toMeshcore
      ensures Valid() && |heard| == Hearings(ticks) && EchoesIgnored(heard)
    {
      heard := [];
      var i := 0;
      assert ticks[..0] == [];
      while i < |ticks|
        invariant i <= |ticks| && Valid() && |heard| == Hearings(ticks[..i]) && EchoesIgnored(heard)
        invariant i < |ticks| ==> ticks[i].Follows(clock, toTelegram.clock, toMeshcore.clock)
      {
        heard := TakeNext(ticks, i, heard);
        i := i + 1;
      }
      assert ticks[..|ticks|] == ticks;
    }

    method TakeNext(ticks: seq<Tick>, i: nat, ghost heard: seq<Heard>) returns (ghost more: seq<Heard>)
      requires Valid() && i < |ticks| && |heard| == Hearings(ticks[..i])
      requires ticks[i].Follows(clock, toTelegram.clock, toMeshcore.clock) && EchoesIgnored(heard)
      modifies this, store, health, toTelegram, toMeshcore
      ensures Valid() && |more| == Hearings(ticks[..i + 1]) && EchoesIgnored(more)
      ensures clock <= ticks[i].now && toTelegram.clock <= ticks[i].monotonic && toMeshcore.clock <= ticks[i].monotonic
    {
      ghost var h := Take(ticks[i]);
      more := OneMoreHeard(ticks, i, heard, h);
    }
  }

  /** What some task does next. Health mutations of other tasks are anything but a forward. */
  datatype Step =
    | FromMeshcore(message: InboundMessage, lookup: Fault, recording: Fault)
    | FromTelegram(text: string, recording: Fault)
    | TelegramEnds(text: string, outcome: Outcome, recording: Fault)
    | MeshcoreEnds(text: string, outcome: Outcome, recording: Fault)
    | Mutates(m: Mutation)

  datatype Tick = Tick(step: Step, now: Time, monotonic: Time) {
    predicate Follows(clock: Time, toTelegram: Time, toMeshcore: Time) {
      clock <= now && toTelegram <= monotonic && toMeshcore <= monotonic
    }
  }

  /** How many messages come from MeshCore. */
  function Hearings(ticks: seq<Tick>): nat {
    if ticks == [] then 0
    else Hearings(ticks[..|ticks| - 1]) + if ticks[|ticks| - 1].step.FromMeshcore? then 1 else 0
  }

  /** No echo that could be forwarded was. */
  predicate EchoesIgnored(heard: seq<Heard>) {
    forall i | 0 <= i < |heard| && heard[i].echo :: heard[i].decision == Ignore(Echo)
  }

  lemma OneMoreHeard(ticks: seq<Tick>, i: nat, heard: seq<Heard>, h: Option<Heard>) returns (more: seq<Heard>)
    requires i < |ticks| && |heard| == Hearings(ticks[..i]) && EchoesIgnored(heard)
    requires h.Some? <==> ticks[i].step.FromMeshcore?
    requires h.Some? && h.value.echo ==> h.value.decision == Ignore(Echo)
    ensures |more| == Hearings(ticks[..i + 1]) && EchoesIgnored(more)
  {
    assert ticks[..i + 1] == ticks[..i] + [ticks[i]] && ticks[..i + 1][..i] == ticks[..i];
    more := if h.Some? then heard + [h.value] else heard;
  }

  predicate InTime(ticks: seq<Tick>, clock: Time, toTelegram: Time, toMeshcore: Time) {
    && (ticks != [] ==> ticks[0].Follows(clock, toTelegram, toMeshcore))
    && (forall i | 0 < i < |ticks| ::
          ticks[i].Follows(ticks[i - 1].now, ticks[i - 1].monotonic, ticks[i - 1].monotonic))
  }

  /** What became of a message from MeshCore, and whether it was an echo that could be forwarded. */
  datatype Heard = Heard(echo: bool, decision: Decision)

  /** A text that is forwarded to MeshCore and comes back from there within 600 s is not sent back. */
  method ForwardAndHear(bridge: Bridge, text: string, message: InboundMessage, sentAt: Time, heardAt: Time,
                        monotonic: Time, lookup: Fault) returns (sent: Decision, heard: Option<Decision>)
    requires bridge.Valid() && bridge.clock <= sentAt <= heardAt < sentAt + PENDING_WINDOW
    requires bridge.toTelegram.clock <= monotonic && bridge.toMeshcore.clock <= monotonic
    modifies bridge, bridge.store, bridge.health, bridge.toTelegram, bridge.toMeshcore
    ensures bridge.Valid() && (sent.Send? <==> heard.Some?)
    ensures bridge.Forwardable(message, old(bridge.health.health)) ==>
      sent.Send? && IsCopy(message, sent.text, bridge.config) ==> heard == Some(Ignore(Echo))
  {
    heard := None;
    ghost var id;
    sent, id := ForwardText(bridge, text, sentAt, monotonic);
    if sent.Send? {
      assert IsCopy(message, sent.text, bridge.config) ==> IsEcho(message, bridge.echoes, heardAt, bridge.config);
      var decision;
      ghost var taken;
      decision, taken := bridge.ReceiveFromMeshcore(message, heardAt, monotonic, lookup, None);
      heard := Some(decision);
    }
  }

  /** The message repeats the sent text, in the room it was sent to. */
  predicate IsCopy(message: InboundMessage, sent: string, config: Config) {
    message.sourceRoom.roomId == config.meshcoreRoom && Repeats(message.text, sent, config)
  }

  /** Forwards a text whose send returns at once and is recorded. */
  method ForwardText(bridge: Bridge, text: string, sentAt: Time, monotonic: Time)
    returns (sent: Decision, ghost id: nat)
    requires bridge.Valid() && bridge.clock <= sentAt && bridge.toMeshcore.clock <= monotonic
    modifies bridge, bridge.store, bridge.health, bridge.toMeshcore
    ensures bridge.Valid() && bridge.clock <= sentAt && bridge.toMeshcore.clock <= monotonic
    ensures sent.Send? ==> id in bridge.echoes && bridge.echoes[id] == Sent(sent.text, sentAt)
    ensures sent.Send? ==> SameSwitches(old(bridge.health.health), bridge.health.health)
  {
    sent := bridge.ReceiveFromTelegram(text, sentAt, monotonic, None);
    id := bridge.nextId;
    if sent.Send? {
      EndedKeepsSwitches(bridge.health.health, TelegramToMeshcore, Returned, None, sentAt);
      bridge.MeshcoreSendEnded(sent.text, Returned, sentAt, None);
    }
  }

  // Echo suppression, end to end

  /** A text forwarded to MeshCore is recognised when it comes back. With a clean prefix, whatever
      was forwarded and however it was cut: once its record has been stored, in any store at all,
      every MeshCore text of that room that normalises to what was sent, the sent text itself among
      them, is answered as an echo until the record expires or has been taken, over all store
      operations and restarts in between; the only other answer is a storage error, which is
      treated as an echo as well. */
  lemma EchoesAreSuppressed(
    text: string, prefix: string, maxBytes: int, room: string,
    t: Tables, id: nat, sentAt: Time, source: Tables, events: seq<Migration.Event>,
    echo: string, now: Time, answer: Answer)
    requires Render.CleanPrefix(prefix) && Render.RenderMeshcore(text, prefix, maxBytes).text.Some?
    requires var sent := Render.RenderMeshcore(text, prefix, maxBytes).text.value;
      var op := CreateRecord(id, StoredEcho(room, sent), AcceptedByMeshcore);
      && Allowed(t, sentAt, op, Stored)
      && Migration.EventRun(source, After(t, sentAt, op, Stored), sentAt, events)
      && Allowed(Migration.EventsFinal(source, After(t, sentAt, op, Stored), events), now,
        ConsumeEcho(EchoOf(room, echo)), answer)
      && Text.Normalize(echo) == sent
    requires Migration.NoCreate(Migration.Steps(events), id) && Migration.NeverTaken(Migration.Steps(events), id)
    requires StoreRuns.LastClock(sentAt, Migration.Steps(events)) <= now < sentAt + PENDING_WINDOW
    ensures var sent := Render.RenderMeshcore(text, prefix, maxBytes).text.value; Text.Normalize(sent) == sent
    ensures answer.StorageError? || (answer.Consumed? && answer.id.Some?)
  {
    Render.RenderedIsFixedPoint(text, prefix, maxBytes);
    var op := CreateRecord(id, StoredEcho(room, Render.RenderMeshcore(text, prefix, maxBytes).text.value),
      AcceptedByMeshcore);
    var stored := After(t, sentAt, op, Stored);
    Migration.RecordStays(source, stored, sentAt, events, id);
    var live := LivePending(Migration.EventsFinal(source, stored, events).pending, now);
    assert id in live && Matches(live[id], EchoOf(room, echo));
  }

  /** Without a clean prefix the guarantee fails: some text is forwarded whose own echo takes no
      record, though the only record in the store is its own and still unexpired. */
  lemma UncleanPrefixLeaksEcho(prefix: string, room: string) returns (text: string, maxBytes: int)
    requires !Render.CleanPrefix(prefix)
    ensures var sent := Render.RenderMeshcore(text, prefix, maxBytes).text;
      && sent.Some?
      && var t := After(EMPTY, 0.0, CreateRecord(0, StoredEcho(room, sent.value), AcceptedByMeshcore), Stored);
      Allowed(t, 1.0, ConsumeEcho(EchoOf(room, sent.value)), Consumed(None))
  {
    Render.CleanPrefixIsNeeded(prefix);
    text, maxBytes :| var r := Render.RenderMeshcore(text, prefix, maxBytes).text;
      r.Some? && Text.Normalize(r.value) != r.value;
    var sent := Render.RenderMeshcore(text, prefix, maxBytes).text.value;
    assert EchoOf(room, sent) != StoredEcho(room, sent);
  }

  /** A text that was sent, and its own echo later on: what the store was when its record was stored
      and what happened to the store in between. */
  datatype Return = Return(
    text: string, maxBytes: int, t: Tables, id: nat, sentAt: Time,
    source: Tables, events: seq<Migration.Event>, now: Time, answer: Answer)

  /** The echo comes back before the record expires or is taken, and this is the store's answer. */
  ghost predicate Happens(r: Return, prefix: string, room: string) {
    var sent := Render.RenderMeshcore(r.text, prefix, r.maxBytes).text;
    && sent.Some?
    && var op := CreateRecord(r.id, StoredEcho(room, sent.value), AcceptedByMeshcore);
    && var stored := After(r.t, r.sentAt, op, Stored);
    && var steps := Migration.Steps(r.events);
    && Allowed(r.t, r.sentAt, op, Stored)
    && Migration.EventRun(r.source, stored, r.sentAt, r.events)
    && var last := Migration.EventsFinal(r.source, stored, r.events);
    && Allowed(last, r.now, ConsumeEcho(EchoOf(room, sent.value)), r.answer)
    && Migration.NoCreate(steps, r.id) && Migration.NeverTaken(steps, r.id)
    && StoreRuns.LastClock(r.sentAt, steps) <= r.now < r.sentAt + PENDING_WINDOW
  }

  /** Every sent text's own echo is recognised, whatever the text, the cut and the store, exactly
      when the prefix is clean. */
  lemma OwnEchoesAreRecognisedExactly(prefix: string, room: string)
    ensures (forall r | Happens(r, prefix, room) :: r.answer != Consumed(None)) <==> Render.CleanPrefix(prefix)
  {
    if Render.CleanPrefix(prefix) {
      forall r | Happens(r, prefix, room)
        ensures r.answer != Consumed(None)
      {
        var sent := Render.RenderMeshcore(r.text, prefix, r.maxBytes).text.value;
        Render.RenderedIsFixedPoint(r.text, prefix, r.maxBytes);
        EchoesAreSuppressed(
          r.text, prefix, r.maxBytes, room, r.t, r.id, r.sentAt, r.source, r.events, sent, r.now, r.answer);
      }
    } else {
      var text, maxBytes := UncleanPrefixLeaksEcho(prefix, room);
      var leak := Return(text, maxBytes, EMPTY, 0, 0.0, EMPTY, [], 1.0, Consumed(None));
      assert Happens(leak, prefix, room);
    }
  }
}
