/** The bridge's health state: forwarding switches with their runtime overrides, forwarding
    counters, and the fingerprint by which health events are compared. */
module BridgeHealth {
  import opened Models
  import Text

  datatype Direction = TelegramToMeshcore | MeshcoreToTelegram
  datatype Switch = Forward(direction: Direction) | Confirmation
  datatype Polling = PollingDisabled | PollingConnected | PollingDegraded | PollingDisconnected

  datatype Counters = Counters(success: nat, failed: nat, last: Option<Time>)

  datatype Health = Health(
    meshcoreConnected: bool,
    polling: Polling,
    telegramEnabled: bool,
    configured: Switch -> bool,
    overrides: map<Switch, bool>,
    counters: map<Direction, Counters>,
    commands: nat,
    lastFailure: Option<Time>,
    failureReason: string,
    auditDegraded: bool,
    telegramDbDegraded: bool
  ) {
    function Effective(s: Switch): bool {
      if s in overrides then overrides[s] else configured(s)
    }

    function CountersOf(d: Direction): Counters {
      if d in counters then counters[d] else Counters(0, 0, None)
    }

    function Degraded(): bool {
      !meshcoreConnected || polling.PollingDegraded? || auditDegraded || telegramDbDegraded
    }
  }

  /** What is published, without the uptime: every part of an event two events are compared by.
      Times are published in whole seconds. */
  datatype Fingerprint = Fingerprint(
    degraded: bool,
    meshcoreConnected: bool,
    telegram: Polling,
    effective: (bool, bool, bool),
    overrides: map<Switch, bool>,
    tgToMc: (nat, nat, Option<int>),
    mcToTg: (nat, nat, Option<int>),
    commands: nat,
    lastFailure: Option<int>,
    failureReason: string,
    databases: (bool, bool)
  )

  function Seconds(t: Option<Time>): Option<int> {
    if t.Some? then Some(t.value.Floor) else None
  }

  function PrintOf(h: Health): Fingerprint {
    var tg, mc := h.CountersOf(TelegramToMeshcore), h.CountersOf(MeshcoreToTelegram);
    Fingerprint(
      h.Degraded(), h.meshcoreConnected,
      if !h.telegramEnabled then PollingDisabled
      else if h.polling.PollingDisabled? then PollingDisconnected else h.polling,
      (h.Effective(Forward(TelegramToMeshcore)), h.Effective(Forward(MeshcoreToTelegram)), h.Effective(Confirmation)),
      h.overrides,
      (tg.success, tg.failed, Seconds(tg.last)), (mc.success, mc.failed, Seconds(mc.last)),
      h.commands, Seconds(h.lastFailure), h.failureReason, (h.auditDegraded, h.telegramDbDegraded))
  }

  datatype Mutation =
    | Configure(telegramEnabled: bool, switches: Switch -> bool)
    | SetOverride(target: Switch, value: bool)
    | ResetOverrides
    | SetConnected(connected: bool)
    | SetPolling(polling: Polling)
    | RecordForward(direction: Direction, success: bool, reason: string, at: Time)
    | RecordCommand
    | RecordFailure(reason: string, at: Time)
    | SetAuditDb(degraded: bool, reason: string, at: Time)
    | SetTelegramDb(degraded: bool, reason: string, at: Time)

  /** The failure reasons that may be shown. */
  const SAFE_REASONS: set<string> := {
    "none", "database_locked", "storage_error", "transport_error", "transport_timeout", "transport_service_error",
    "rate_limited", "consumer_conflict", "websocket_disconnected", "telegram_disabled", "telegram_not_configured",
    "shutdown"
  }

  /** lower(), on the characters whose lower case is ASCII; one of them is the Kelvin sign. No other
      character leads to a safe reason. */
  function Lower(c: char): char {
    if 'A' <= c <= 'Z' then (c as int + 32) as char else if c == '\U{212A}' then 'k' else c
  }

  /** strip().lower().replace(" ", "_") */
  function NormalReason(reason: string): string {
    var stripped := Text.Strip(reason);
    seq(|stripped|, i requires 0 <= i < |stripped| => if stripped[i] == ' ' then '_' else Lower(stripped[i]))
  }

  function SafeReason(reason: string): (r: string)
    ensures r in SAFE_REASONS
  {
    var normal := NormalReason(reason);
    if normal in SAFE_REASONS then normal else "storage_error"
  }

  function Fail(h: Health, reason: string, at: Time): Health {
    h.(lastFailure := Some(at), failureReason := SafeReason(reason))
  }

  function Configured(h: Health, telegramEnabled: bool, switches: Switch -> bool): Health {
    h.(telegramEnabled := telegramEnabled, polling := if telegramEnabled then PollingDisconnected else PollingDisabled,
       configured := switches, overrides := map[])
  }

  function Bumped(c: Counters, success: bool, at: Time): Counters {
    if success then Counters(c.success + 1, c.failed, Some(at)) else c.(failed := c.failed + 1)
  }

  function Apply(h: Health, m: Mutation): Health {
    match m
    case Configure(enabled, switches) => Configured(h, enabled, switches)
    case SetOverride(s, v) => h.(overrides := h.overrides[s := v])
    case ResetOverrides => h.(overrides := map[])
    case SetConnected(c) => h.(meshcoreConnected := c)
    case SetPolling(p) => h.(polling := p)
    case RecordForward(d, success, reason, at) =>
      var t := h.(counters := h.counters[d := Bumped(h.CountersOf(d), success, at)]);
      if success then t else Fail(t, reason, at)
    case RecordCommand => h.(commands := h.commands + 1)
    case RecordFailure(reason, at) => Fail(h, reason, at)
    case SetAuditDb(d, reason, at) =>
      var t := h.(auditDegraded := d);
      if d then Fail(t, reason, at) else t
    case SetTelegramDb(d, reason, at) =>
      var t := h.(telegramDbDegraded := d);
      if d then Fail(t, reason, at) else t
  }

  /** A change that is published without waiting for others to join it. */
  predicate Critical(before: Health, after: Health) {
    || after.Degraded() != before.Degraded()
    || (before.meshcoreConnected && !after.meshcoreConnected)
    || ((after.polling.PollingDegraded? || after.polling.PollingDisconnected?) && after.polling != before.polling)
    || after.lastFailure != before.lastFailure
  }

  /** The state object. Each mutator changes the state and, as a separate later step, reports to
      the registered callback whether the change was critical. */
  class BridgeHealthState {
    var health: Health

    constructor (h: Health)
      ensures health == h
    {
      health := h;
    }

    method Change(m: Mutation) returns (critical: bool)
      modifies this
      ensures health == Apply(old(health), m) && critical == Critical(old(health), health)
    {
      var previous := health;
      match m {
        case Configure(enabled, switches) =>
          health := health.(telegramEnabled := enabled);
          health := health.(polling := if enabled then PollingDisconnected else PollingDisabled);
          health := health.(configured := switches, overrides := map[]);
        case SetOverride(target, value) =>
          health := health.(overrides := health.overrides[target := value]);
        case ResetOverrides =>
          health := health.(overrides := map[]);
        case SetConnected(connected) =>
          health := health.(meshcoreConnected := connected);
        case SetPolling(polling) =>
          health := health.(polling := polling);
        case RecordForward(direction, success, reason, at) =>
          var c := health.CountersOf(direction);
          if success {
            health := health.(counters := health.counters[direction := Counters(c.success + 1, c.failed, Some(at))]);
          } else {
            health := health.(counters := health.counters[direction := c.(failed := c.failed + 1)]);
            RecordFailureLocked(reason, at);
          }
        case RecordCommand =>
          health := health.(commands := health.commands + 1);
        case RecordFailure(reason, at) =>
          RecordFailureLocked(reason, at);
        case SetAuditDb(degraded, reason, at) =>
          health := health.(auditDegraded := degraded);
          if degraded {
            RecordFailureLocked(reason, at);
          }
        case SetTelegramDb(degraded, reason, at) =>
          health := health.(telegramDbDegraded := degraded);
          if degraded {
            RecordFailureLocked(reason, at);
          }
      }
      critical := Critical(previous, health);
    }

    method RecordFailureLocked(reason: string, at: Time)
      modifies this
      ensures health == Fail(old(health), reason, at)
    {
      health := health.(lastFailure := Some(at), failureReason := SafeReason(reason));
    }
  }

  function ApplyAll(h: Health, ms: seq<Mutation>): Health
    decreases |ms|
  {
    if ms == [] then h else ApplyAll(Apply(h, ms[0]), ms[1..])
  }

  /** Runtime overrides are undone by a reset, and touch nothing else: after any number of them, in
      any order, a reset leaves the state it would have left at once, with every switch back at its
      configured value. */
  lemma {:induction false} ResetUndoesOverrides(h: Health, ms: seq<Mutation>)
    requires forall i | 0 <= i < |ms| :: ms[i].SetOverride?
    ensures Apply(ApplyAll(h, ms), ResetOverrides) == Apply(h, ResetOverrides)
    ensures forall s :: Apply(ApplyAll(h, ms), ResetOverrides).Effective(s) == h.configured(s)
    decreases |ms|
  {
    if ms != [] {
      ResetUndoesOverrides(Apply(h, ms[0]), ms[1..]);
    }
  }

  /** How many forwards a sequence of mutations records in one direction. */
  function Recorded(ms: seq<Mutation>, d: Direction): nat {
    if ms == [] then 0
    else (if ms[0].RecordForward? && ms[0].direction == d then 1 else 0) + Recorded(ms[1..], d)
  }

  lemma OneIsCounted(h: Health, m: Mutation, d: Direction)
    ensures var before, after := h.CountersOf(d), Apply(h, m).CountersOf(d);
      after.success + after.failed
        == before.success + before.failed + if m.RecordForward? && m.direction == d then 1 else 0
  {
    CountersAfter(h, m);
  }

  lemma CountersAfter(h: Health, m: Mutation)
    ensures Apply(h, m).counters == if m.RecordForward?
      then h.counters[m.direction := Bumped(h.CountersOf(m.direction), m.success, m.at)] else h.counters
  {
    match m
    case Configure(_, _) =>
    case SetOverride(_, _) =>
    case ResetOverrides =>
    case SetConnected(_) =>
    case SetPolling(_) =>
    case RecordForward(d, success, _, at) =>
      var counters := h.counters[d := Bumped(h.CountersOf(d), success, at)];
      assert h.(counters := counters).counters == counters;
    case RecordCommand =>
    case RecordFailure(_, _) =>
    case SetAuditDb(_, _, _) =>
    case SetTelegramDb(_, _, _) =>
  }

  /** Counters are conserved: over any mutations, one direction's successes and failures grow by
      exactly the forwards recorded in it. */
  lemma {:induction false} CountersAreConserved(h: Health, ms: seq<Mutation>, d: Direction)
    ensures var before, after := h.CountersOf(d), ApplyAll(h, ms).CountersOf(d);
      after.success + after.failed == before.success + before.failed + Recorded(ms, d)
    decreases |ms|
  {
    if ms != [] {
      OneIsCounted(h, ms[0], d);
      CountersAreConserved(Apply(h, ms[0]), ms[1..], d);
    }
  }

  /** Whatever texts failures carry, only a safe reason is ever shown. */
  lemma {:induction false} ReasonsStaySafe(h: Health, ms: seq<Mutation>)
    requires h.failureReason in SAFE_REASONS
    ensures ApplyAll(h, ms).failureReason in SAFE_REASONS
    decreases |ms|
  {
    if ms != [] {
      ReasonAfter(h, ms[0]);
      ReasonsStaySafe(Apply(h, ms[0]), ms[1..]);
    }
  }

  lemma ReasonAfter(h: Health, m: Mutation)
    ensures Apply(h, m).failureReason == h.failureReason || Apply(h, m).failureReason in SAFE_REASONS
  {
    match m
    case Configure(_, _) =>
    case SetOverride(_, _) =>
    case ResetOverrides =>
    case SetConnected(_) =>
    case SetPolling(_) =>
    case RecordForward(d, success, _, at) =>
      var counters := h.counters[d := Bumped(h.CountersOf(d), success, at)];
      assert h.(counters := counters).failureReason == h.failureReason;
    case RecordCommand =>
    case RecordFailure(_, _) =>
    case SetAuditDb(_, _, _) =>
    case SetTelegramDb(_, _, _) =>
  }

  // What each mutation is seen to do

  /** The failure that a mutation records. */
  function FailureOf(m: Mutation): Option<(string, Time)> {
    match m
    case RecordForward(_, success, reason, at) => if success then None else Some((reason, at))
    case RecordFailure(reason, at) => Some((reason, at))
    case SetAuditDb(degraded, reason, at) => if degraded then Some((reason, at)) else None
    case SetTelegramDb(degraded, reason, at) => if degraded then Some((reason, at)) else None
    case _ => None
  }

  /** Each switch follows the last override of it, or else what is configured. */
  lemma SwitchAfter(h: Health, m: Mutation, s: Switch)
    ensures m.Configure? ==> Apply(h, m).Effective(s) == m.switches(s)
    ensures m.ResetOverrides? ==> Apply(h, m).Effective(s) == h.configured(s)
    ensures m.SetOverride? && m.target == s ==> Apply(h, m).Effective(s) == m.value
    ensures !m.Configure? && !m.ResetOverrides? && !(m.SetOverride? && m.target == s) ==>
      Apply(h, m).Effective(s) == h.Effective(s)
  {
    if !m.Configure? && !m.ResetOverrides? && !m.SetOverride? {
      OthersKeepSwitches(h, m);
    }
  }

  lemma OthersKeepSwitches(h: Health, m: Mutation)
    requires !m.Configure? && !m.ResetOverrides? && !m.SetOverride?
    ensures Apply(h, m).overrides == h.overrides && Apply(h, m).configured == h.configured
  {
    match m
    case SetConnected(_) =>
    case SetPolling(_) =>
    case RecordForward(d, success, _, at) =>
      var t := h.(counters := h.counters[d := Bumped(h.CountersOf(d), success, at)]);
      assert t.overrides == h.overrides && t.configured == h.configured;
    case RecordCommand =>
    case RecordFailure(_, _) =>
    case SetAuditDb(_, _, _) =>
    case SetTelegramDb(_, _, _) =>
  }

  /** The last failure is the one recorded last, under a safe reason. */
  lemma FailureAfter(h: Health, m: Mutation)
    ensures var after, failure := Apply(h, m), FailureOf(m);
      if failure.Some?
      then after.lastFailure == Some(failure.value.1) && after.failureReason == SafeReason(failure.value.0)
      else after.lastFailure == h.lastFailure && after.failureReason == h.failureReason
  {
    match m
    case Configure(_, _) =>
    case SetOverride(_, _) =>
    case ResetOverrides =>
    case SetConnected(_) =>
    case SetPolling(_) =>
    case RecordForward(_, _, _, _) =>
    case RecordCommand =>
    case RecordFailure(_, _) =>
    case SetAuditDb(_, _, _) =>
    case SetTelegramDb(_, _, _) =>
  }

  /** The states of the connections and the databases, and the number of commands. */
  lemma StatesAfter(h: Health, m: Mutation)
    ensures var after := Apply(h, m);
      && after.meshcoreConnected == (if m.SetConnected? then m.connected else h.meshcoreConnected)
      && after.telegramEnabled == (if m.Configure? then m.telegramEnabled else h.telegramEnabled)
      && after.polling == (
        if m.SetPolling? then m.polling
        else if m.Configure? then if m.telegramEnabled then PollingDisconnected else PollingDisabled
        else h.polling)
      && after.auditDegraded == (if m.SetAuditDb? then m.degraded else h.auditDegraded)
      && after.telegramDbDegraded == (if m.SetTelegramDb? then m.degraded else h.telegramDbDegraded)
      && after.commands == h.commands + if m.RecordCommand? then 1 else 0
  {
    match m
    case Configure(_, _) =>
    case SetOverride(_, _) =>
    case ResetOverrides =>
    case SetConnected(_) =>
    case SetPolling(_) =>
    case RecordForward(_, _, _, _) =>
    case RecordCommand =>
    case RecordFailure(_, _) =>
    case SetAuditDb(_, _, _) =>
    case SetTelegramDb(_, _, _) =>
  }

  // What is published, and what cannot wait

  /** What the published polling state stands for. */
  predicate ShowsPolling(h: Health, p: Polling) {
    if !h.telegramEnabled then p.PollingDisabled?
    else if h.polling.PollingDisabled? then p.PollingDisconnected?
    else p == h.polling
  }

  predicate SameCounts(a: Counters, b: Counters) {
    a.success == b.success && a.failed == b.failed && Seconds(a.last) == Seconds(b.last)
  }

  /** Two states are published alike exactly when nothing that is shown tells them apart. */
  lemma FingerprintsAgreeExactly(a: Health, b: Health)
    ensures PrintOf(a) == PrintOf(b) <==>
      && a.Degraded() == b.Degraded() && a.meshcoreConnected == b.meshcoreConnected
      && (forall p :: ShowsPolling(a, p) <==> ShowsPolling(b, p))
      && (forall s :: a.Effective(s) == b.Effective(s)) && a.overrides == b.overrides
      && (forall d :: SameCounts(a.CountersOf(d), b.CountersOf(d)))
      && a.commands == b.commands && Seconds(a.lastFailure) == Seconds(b.lastFailure)
      && a.failureReason == b.failureReason
      && a.auditDegraded == b.auditDegraded && a.telegramDbDegraded == b.telegramDbDegraded
  {
    var x, y := PrintOf(a), PrintOf(b);
    assert ShowsPolling(a, x.telegram) && ShowsPolling(b, y.telegram);
    if x == y {
      forall s
        ensures a.Effective(s) == b.Effective(s)
      {
        match s
        case Forward(d) => match d { case TelegramToMeshcore => case MeshcoreToTelegram => }
        case Confirmation =>
      }
      forall d
        ensures SameCounts(a.CountersOf(d), b.CountersOf(d))
      {
        match d
        case TelegramToMeshcore =>
        case MeshcoreToTelegram =>
      }
    }
  }

  /** Every forward and every command that is recorded shows, and so does a switch that is overridden
      anew and a connection that changes. */
  lemma ChangesShow(h: Health, m: Mutation)
    ensures m.RecordForward? || m.RecordCommand? ==> PrintOf(Apply(h, m)) != PrintOf(h)
    ensures m.SetOverride? ==>
      (PrintOf(Apply(h, m)) == PrintOf(h) <==> m.target in h.overrides && h.overrides[m.target] == m.value)
    ensures m.SetConnected? ==> (PrintOf(Apply(h, m)) == PrintOf(h) <==> m.connected == h.meshcoreConnected)
  {
    var after := Apply(h, m);
    FingerprintsAgreeExactly(after, h);
    StatesAfter(h, m);
    CountersAfter(h, m);
    if m.SetOverride? {
      assert after.overrides == h.overrides[m.target := m.value];
      if m.target in h.overrides && h.overrides[m.target] == m.value {
        assert after.overrides == h.overrides && after == h;
      }
    }
    if m.SetConnected? && m.connected == h.meshcoreConnected {
      assert after == h;
    }
    if m.RecordForward? {
      assert after.CountersOf(m.direction) == Bumped(h.CountersOf(m.direction), m.success, m.at);
      assert !SameCounts(after.CountersOf(m.direction), h.CountersOf(m.direction));
    }
  }

  /** A recorded failure and a lost connection are published at once; a success, a command and a
      switch can wait. */
  lemma CriticalExactly(h: Health, m: Mutation)
    ensures FailureOf(m).Some? && (m.RecordFailure? || m.RecordForward?) ==>
      (Critical(h, Apply(h, m)) <==> h.lastFailure != Some(FailureOf(m).value.1))
    ensures m.SetConnected? && !m.connected ==> (Critical(h, Apply(h, m)) <==> h.meshcoreConnected)
    ensures m.SetPolling? && m.polling != h.polling ==>
      (m.polling.PollingDegraded? || m.polling.PollingDisconnected? ==> Critical(h, Apply(h, m)))
    ensures m.RecordCommand? || m.SetOverride? || m.ResetOverrides? || (m.RecordForward? && m.success) ==>
      !Critical(h, Apply(h, m))
    ensures (m.SetAuditDb? || m.SetTelegramDb?) && m.degraded && h.lastFailure != Some(m.at) ==>
      Critical(h, Apply(h, m))
  {
    StatesAfter(h, m);
    FailureAfter(h, m);
  }

  // Reasons

  predicate PlainReason(reason: string) {
    reason != "" && forall i | 0 <= i < |reason| :: 'a' <= reason[i] <= 'z' || reason[i] == '_'
  }

  lemma PlainIsVisible(c: char)
    requires 'a' <= c <= 'z' || c == '_'
    ensures !Text.IsSpace(c) && Lower(c) == c
  {
    Text.SpacesExactly(c);
  }

  /** A safe reason is kept as it is, and anything whose lower case, with underscores for spaces, is
      none becomes a storage error. */
  lemma SafeReasonExactly(reason: string)
    ensures reason in SAFE_REASONS ==> SafeReason(reason) == reason
    ensures NormalReason(reason) !in SAFE_REASONS ==> SafeReason(reason) == "storage_error"
  {
    if reason in SAFE_REASONS {
      SafeIsPlain(reason);
      PlainIsNormal(reason);
    }
  }

  lemma SafeIsPlain(reason: string)
    requires reason in SAFE_REASONS
    ensures PlainReason(reason)
  {
  }

  lemma PlainIsNormal(reason: string)
    requires PlainReason(reason)
    ensures NormalReason(reason) == reason
  {
    PlainIsVisible(reason[0]);
    PlainIsVisible(reason[|reason| - 1]);
    Text.StripKeepsEnds(reason);
    forall i | 0 <= i < |reason|
      ensures Lower(reason[i]) == reason[i] && reason[i] != ' '
    {
      PlainIsVisible(reason[i]);
    }
  }
}
