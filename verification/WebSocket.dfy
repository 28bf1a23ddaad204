/** Request/response correlation on one WebSocket connection: command ids, the futures that wait
    for results, and the bounded queue of events. Code between two awaits is one step. */
module WebSocket {
  import opened Models
  import Traces

  const QUEUE_LIMIT := 1000

  /** A result frame; `value` stands for its payload. */
  datatype Frame = Frame(id: int, success: bool, value: int)

  /** What has become of a command's future. */
  datatype Future = Open | Completed(frame: Frame) | Disconnected | Cancelled

  /** `messageId` belongs to the client and is shared with its other connections. `received` are
      the well-formed events the reader took from the connection, `putting` one that waits for
      room in the queue. */
  datatype State = State(
    messageId: int,
    pending: set<int>,
    futures: map<int, Future>,
    frames: seq<Frame>,
    received: seq<int>,
    putting: Option<int>,
    queue: seq<int>,
    yielded: seq<int>,
    reading: bool,
    closed: bool
  )

  datatype Event =
    | OtherConnectionIssues
    | Issue
    | SendFails(id: int)
    | ResultFrame(frame: Frame)
    | EventFrame(event: int)
    | PutDone
    | PutTimesOut
    | ReaderFails
    | WaitEnds(id: int)
    | Finish(id: int)
    | Yield
    | Teardown

  function Initial(messageId: int): State {
    State(messageId, {}, map[], [], [], None, [], [], true, false)
  }

  predicate Enabled(s: State, e: Event) {
    match e
    case OtherConnectionIssues => true
    case Issue => !s.closed
    case SendFails(id) => id in s.futures && !s.closed
    case ResultFrame(_) => s.reading && s.putting.None?
    case EventFrame(_) => s.reading && s.putting.None?
    case PutDone => s.reading && s.putting.Some? && |s.queue| < QUEUE_LIMIT
    case PutTimesOut => s.reading && s.putting.Some?
    case ReaderFails => s.reading
    case WaitEnds(id) => id in s.futures
    case Finish(id) => id in s.futures && !s.futures[id].Open?
    case Yield => s.queue != [] && !s.closed
    case Teardown => !s.closed
  }

  /** Every open future of a pending command fails; nothing stays pending. */
  function FailPending(s: State): State {
    s.(futures := map id | id in s.futures ::
         if id in s.pending && s.futures[id].Open? then Disconnected else s.futures[id],
       pending := {})
  }

  function Settle(s: State, id: int, how: Future): State
    requires id in s.futures
  {
    if s.futures[id].Open? then s.(futures := s.futures[id := how]) else s
  }

  function Next(s: State, e: Event): State
    requires Enabled(s, e)
  {
    match e
    case OtherConnectionIssues => s.(messageId := s.messageId + 1)
    case Issue =>
      var id := s.messageId + 1;
      s.(messageId := id, pending := s.pending + {id}, futures := s.futures[id := Open])
    case SendFails(id) => Settle(s, id, Cancelled).(pending := s.pending - {id})
    case ResultFrame(f) =>
      var t := s.(frames := s.frames + [f]);
      if f.id in s.pending && f.id in s.futures then Settle(t, f.id, Completed(f)) else t
    case EventFrame(x) => s.(received := s.received + [x], putting := Some(x))
    case PutDone => s.(queue := s.queue + [s.putting.value], putting := None)
    case PutTimesOut => FailPending(s).(putting := None, reading := false)
    case ReaderFails => FailPending(s).(putting := None, reading := false)
    case WaitEnds(id) => Settle(s, id, Cancelled)
    case Finish(id) => s.(pending := s.pending - {id})
    case Yield => s.(yielded := s.yielded + [s.queue[0]], queue := s.queue[1..])
    case Teardown => FailPending(s).(reading := false, closed := true)
  }

  class WebSocketClient {
    var messageId: int

    constructor ()
      ensures messageId == 0
    {
      messageId := 0;
    }
  }

  class WebSocketConnection {
    const client: WebSocketClient
    var pending: set<int>
    var futures: map<int, Future>
    ghost var frames: seq<Frame>
    ghost var received: seq<int>
    var putting: Option<int>
    var queue: seq<int>
    ghost var yielded: seq<int>
    var reading: bool
    var closed: bool

    ghost function View(): State
      reads this, client
    {
      State(client.messageId, pending, futures, frames, received, putting, queue, yielded, reading, closed)
    }

    constructor (client: WebSocketClient)
      ensures View() == Initial(client.messageId) && this.client == client
    {
      this.client := client;
      pending, futures, frames := {}, map[], [];
      received, putting, queue, yielded := [], None, [], [];
      reading, closed := true, false;
    }

    /** The part of sending a command before the frame goes out. */
    method IssueCommand() returns (commandId: int)
      requires Enabled(View(), Issue)
      modifies this, client
      ensures View() == Next(old(View()), Issue) && commandId == client.messageId == old(client.messageId) + 1
    {
      client.messageId := client.messageId + 1;
      commandId := client.messageId;
      futures := futures[commandId := Open];
      pending := pending + {commandId};
    }

    method SendFailed(commandId: int)
      requires Enabled(View(), SendFails(commandId))
      modifies this
      ensures View() == Next(old(View()), SendFails(commandId))
    {
      pending := pending - {commandId};
      if futures[commandId].Open? {
        futures := futures[commandId := Cancelled];
      }
    }

    /** The reader got a result frame. */
    method HandleResult(frame: Frame)
      requires Enabled(View(), ResultFrame(frame))
      modifies this
      ensures View() == Next(old(View()), ResultFrame(frame))
    {
      frames := frames + [frame];
      if frame.id in pending && frame.id in futures {
        if futures[frame.id].Open? {
          futures := futures[frame.id := Completed(frame)];
        }
      }
    }

    method HandleEvent(event: int)
      requires Enabled(View(), EventFrame(event))
      modifies this
      ensures View() == Next(old(View()), EventFrame(event))
    {
      received := received + [event];
      putting := Some(event);
    }

    /** The put into the queue ends, with room found or with the timeout that fails the reader. */
    method QueueEvent(timedOut: bool)
      requires Enabled(View(), if timedOut then PutTimesOut else PutDone)
      modifies this
      ensures View() == Next(old(View()), if timedOut then PutTimesOut else PutDone)
    {
      if timedOut {
        FailAllPending();
        reading := false;
      } else {
        queue := queue + [putting.value];
      }
      putting := None;
    }

    method FailAllPending()
      modifies this`pending, this`futures
      ensures View() == FailPending(old(View()))
    {
      futures := map id | id in futures ::
        if id in pending && futures[id].Open? then Disconnected else futures[id];
      pending := {};
    }

    /** The wait for a result timed out or was cancelled; its cleanup comes later. */
    method WaitEnded(commandId: int)
      requires Enabled(View(), WaitEnds(commandId))
      modifies this
      ensures View() == Next(old(View()), WaitEnds(commandId))
    {
      if futures[commandId].Open? {
        futures := futures[commandId := Cancelled];
      }
    }

    method FinishCommand(commandId: int)
      requires Enabled(View(), Finish(commandId))
      modifies this
      ensures View() == Next(old(View()), Finish(commandId)) && commandId !in pending
    {
      pending := pending - {commandId};
    }

    method NextEvent() returns (event: int)
      requires Enabled(View(), Yield)
      modifies this
      ensures View() == Next(old(View()), Yield) && yielded == old(yielded) + [event] && event == old(queue)[0]
    {
      event := queue[0];
      queue := queue[1..];
      yielded := yielded + [event];
    }

    method Close()
      requires Enabled(View(), Teardown)
      modifies this
      ensures View() == Next(old(View()), Teardown) && pending == {}
    {
      reading := false;
      FailAllPending();
      closed := true;
    }

    method ReaderFailed()
      requires Enabled(View(), ReaderFails)
      modifies this
      ensures View() == Next(old(View()), ReaderFails)
    {
      FailAllPending();
      putting := None;
      reading := false;
    }

    method OtherConnectionIssued()
      modifies client
      ensures View() == Next(old(View()), OtherConnectionIssues)
    {
      client.messageId := client.messageId + 1;
    }

    ghost function TheReader(): Reader
      reads this, client
    {
      Reader(client.messageId, reading, putting, queue)
    }

    /** What the reader and other connections do while a task awaits; what cannot happen is skipped. */
    method Interleave(others: seq<Event>, ghost before: State, ghost soFar: seq<Event>)
      returns (ghost events: seq<Event>)
      requires Reached(before, soFar, View())
      modifies this, client
      ensures events == soFar + Happening(old(TheReader()), others) && Reached(before, events, View())
      ensures TheReader() == ReaderAfter(old(TheReader()), others)
      ensures futures.Keys == old(futures).Keys && closed == old(closed) && yielded == old(yielded)
    {
      events := soFar;
      ghost var start := TheReader();
      var i := 0;
      assert others[..0] == [];
      while i < |others|
        invariant i <= |others| && Reached(before, events, View())
        invariant events == soFar + Happening(start, others[..i]) && TheReader() == ReaderAfter(start, others[..i])
        invariant futures.Keys == old(futures).Keys && closed == old(closed) && yielded == old(yielded)
      {
        assert others[..i + 1] == others[..i] + [others[i]];
        OneMoreHappens(start, others[..i], others[i]);
        events := PerformIfPossible(others[i], before, events);
        i := i + 1;
      }
      assert others[..|others|] == others;
    }

    method PerformIfPossible(e: Event, ghost before: State, ghost soFar: seq<Event>) returns (ghost events: seq<Event>)
      requires Reached(before, soFar, View())
      modifies this, client
      ensures Reached(before, events, View())
      ensures var next := ReaderStep(old(TheReader()), e);
        && events == soFar + (if next.Some? then [e] else [])
        && TheReader() == if next.Some? then next.value else old(TheReader())
      ensures futures.Keys == old(futures).Keys && closed == old(closed) && yielded == old(yielded)
    {
      events := soFar;
      assert soFar + [] == soFar;
      if Possible(e) {
        events := Traces.Extend(Step, before, soFar, e, View());
        Perform(e);
      }
    }

    predicate Possible(e: Event)
      reads this
    {
      match e
      case OtherConnectionIssues => true
      case ResultFrame(_) => reading && putting.None?
      case EventFrame(_) => reading && putting.None?
      case PutDone => reading && putting.Some? && |queue| < QUEUE_LIMIT
      case PutTimesOut => reading && putting.Some?
      case ReaderFails => reading
      case _ => false
    }

    method Perform(e: Event)
      requires Possible(e)
      modifies this, client
      ensures Enabled(old(View()), e) && View() == Next(old(View()), e)
      ensures ReaderStep(old(TheReader()), e) == Some(TheReader())
      ensures futures.Keys == old(futures).Keys && closed == old(closed) && yielded == old(yielded)
    {
      match e {
        case OtherConnectionIssues => OtherConnectionIssued();
        case ResultFrame(frame) => HandleResult(frame);
        case EventFrame(event) => HandleEvent(event);
        case PutDone => QueueEvent(false);
        case PutTimesOut => QueueEvent(true);
        case ReaderFails => ReaderFailed();
      }
    }

    /** One command from its issue to its end. It returns a result exactly when its send went out and
        the first result frame of its own id that the reader took, before anything stopped the
        reader, is a success; then it returns that one. Nothing of it stays pending. */
    method RunCommand(turn: CommandTurn, ghost before: State, ghost soFar: seq<Event>)
      returns (result: Option<Frame>, ghost events: seq<Event>)
      requires !closed && Correlated(before) && InOrder(before) && Reached(before, soFar, View())
      modifies this, client
      ensures !closed && yielded == old(yielded) && Reached(before, events, View())
      ensures result == AnswerTo(old(TheReader()), turn) && TheReader() == CommandAfter(old(TheReader()), turn)
      ensures result.Some? ==>
        result.value.id == old(client.messageId) + 1 && result.value.success && result.value in frames
      ensures old(client.messageId) + 1 !in pending
    {
      ghost var r := TheReader();
      events := Traces.Extend(Step, before, soFar, Issue, View());
      var commandId := IssueCommand();
      ghost var issued, atIssue := View(), events;
      events := Interleave(turn.sending, before, events);
      if turn.sendFails {
        events := Traces.Extend(Step, before, events, SendFails(commandId), View());
        SendFailed(commandId);
        return None, events;
      }
      HappeningConcat(r.(messageId := commandId), turn.sending, turn.waiting);
      result, events := WaitForResult(commandId, turn, before, events, issued, atIssue);
    }

    /** Waits until the future completes or the wait times out, and cleans up either way. */
    method WaitForResult(commandId: int, turn: CommandTurn, ghost before: State, ghost soFar: seq<Event>,
                         ghost issued: State, ghost atIssue: seq<Event>)
      returns (result: Option<Frame>, ghost events: seq<Event>)
      requires !closed && commandId in futures && JustIssued(issued, commandId)
      requires Correlated(before) && InOrder(before) && Reached(before, soFar, View())
      requires Reached(before, atIssue, issued) && atIssue <= soFar
      requires soFar == atIssue + Happening(ReaderOf(issued), turn.sending)
      requires TheReader() == ReaderAfter(ReaderOf(issued), turn.sending)
      modifies this, client
      ensures !closed && yielded == old(yielded) && Reached(before, events, View())
      ensures result == Result(Fate(Happening(ReaderOf(issued), turn.sending + turn.waiting), commandId))
      ensures TheReader() == ReaderAfter(ReaderOf(issued), turn.sending + turn.waiting)
      ensures result.Some? ==> result.value.id == commandId && result.value.success && result.value in frames
      ensures commandId !in pending
    {
      events := AwaitFuture(commandId, turn, before, soFar, issued, atIssue);
      events := Traces.Extend(Step, before, events, WaitEnds(commandId), View());
      WaitEnded(commandId);
      RunsStayCorrelated(before, events);
      events := Traces.Extend(Step, before, events, Finish(commandId), View());
      FinishCommand(commandId);
      match futures[commandId] {
        case Completed(frame) => result := if frame.success then Some(frame) else None;
        case _ => result := None;
      }
    }

    /** What happens while a command waits decides its future. */
    method AwaitFuture(commandId: int, turn: CommandTurn, ghost before: State, ghost soFar: seq<Event>,
                       ghost issued: State, ghost atIssue: seq<Event>) returns (ghost events: seq<Event>)
      requires JustIssued(issued, commandId) && Reached(before, soFar, View())
      requires Reached(before, atIssue, issued) && soFar == atIssue + Happening(ReaderOf(issued), turn.sending)
      requires TheReader() == ReaderAfter(ReaderOf(issued), turn.sending)
      modifies this, client
      ensures Reached(before, events, View()) && closed == old(closed) && yielded == old(yielded)
      ensures commandId in futures
        && futures[commandId] == Fate(Happening(ReaderOf(issued), turn.sending + turn.waiting), commandId)
      ensures TheReader() == ReaderAfter(ReaderOf(issued), turn.sending + turn.waiting)
    {
      events := Interleave(turn.waiting, before, soFar);
      ghost var happened := Happening(ReaderOf(issued), turn.sending + turn.waiting);
      HappeningConcat(ReaderOf(issued), turn.sending, turn.waiting);
      assert events == atIssue + happened;
      Traces.Split(Step, before, atIssue, issued, happened, View());
      HappeningIsReaders(ReaderOf(issued), turn.sending + turn.waiting);
      FutureIsFate(issued, happened, commandId);
    }

    /** A connection of its own for one command. */
    method SimpleCommand(turn: CommandTurn) returns (result: Option<Frame>, ghost events: seq<Event>)
      requires View() == Initial(client.messageId)
      modifies this, client
      ensures Reached(old(View()), events, View()) && closed && pending == {}
      ensures result == AnswerTo(old(TheReader()), turn)
      ensures result.Some? ==>
        result.value.id == old(client.messageId) + 1 && result.value.success && result.value in frames
    {
      ghost var before := View();
      result, events := RunCommand(turn, before, []);
      events := Traces.Extend(Step, before, events, Teardown, View());
      Close();
    }

    /** The listener: one subscription after the other, and if all of them succeed, event after event
        until the reader has stopped: in each turn what heads the queue. What it yields is a leading
        part of the events received, and teardown leaves no command behind. */
    method Events(subscriptions: seq<CommandTurn>, turns: seq<seq<Event>>)
      returns (got: seq<int>, ghost events: seq<Event>)
      requires View() == Initial(client.messageId)
      modifies this, client
      ensures Reached(old(View()), events, View()) && closed && pending == {}
      ensures got == yielded && got <= received
      ensures var subscribed := Subscribed(old(TheReader()), subscriptions);
        got == if subscribed.Some? then Heard(subscribed.value, turns) else []
    {
      ghost var before := View();
      var subscribed;
      subscribed, events := Subscribe(subscriptions, before);
      got, events := Listen(if subscribed then turns else [], before, events);
      events := Traces.Extend(Step, before, events, Teardown, View());
      Close();
      RunsStayCorrelated(before, events);
    }

    method Subscribe(subscriptions: seq<CommandTurn>, ghost before: State)
      returns (subscribed: bool, ghost events: seq<Event>)
      requires View() == before == Initial(client.messageId)
      modifies this, client
      ensures !closed && yielded == [] && Reached(before, events, View())
      ensures Subscribed(ReaderOf(before), subscriptions) == if subscribed then Some(TheReader()) else None
    {
      subscribed, events := true, [];
      ghost var start := TheReader();
      var i := 0;
      while i < |subscriptions| && subscribed
        invariant i <= |subscriptions| && !closed && yielded == [] && Reached(before, events, View())
        invariant Subscribed(start, subscriptions)
          == if subscribed then Subscribed(TheReader(), subscriptions[i..]) else None
      {
        assert subscriptions[i..][1..] == subscriptions[i + 1..];
        var result;
        result, events := RunCommand(subscriptions[i], before, events);
        subscribed := result.Some?;
        i := i + 1;
      }
    }

    method Listen(turns: seq<seq<Event>>, ghost before: State, ghost soFar: seq<Event>)
      returns (got: seq<int>, ghost events: seq<Event>)
      requires !closed && yielded == [] && Reached(before, soFar, View())
      modifies this, client
      ensures !closed && Reached(before, events, View())
      ensures got == yielded == Heard(old(TheReader()), turns)
    {
      got, events := [], soFar;
      ghost var start := TheReader();
      var j := 0;
      while j < |turns| && reading
        invariant j <= |turns| && !closed && Reached(before, events, View()) && got == yielded
        invariant got + Heard(TheReader(), turns[j..]) == Heard(start, turns)
      {
        assert turns[j..][0] == turns[j] && turns[j..][1..] == turns[j + 1..];
        ghost var was := TheReader();
        var head;
        head, events := HearTurn(turns[j], before, events);
        HeardOn(was, turns[j..], got, head, TheReader());
        got := got + head;
        j := j + 1;
      }
    }

    method HearTurn(turn: seq<Event>, ghost before: State, ghost soFar: seq<Event>)
      returns (head: seq<int>, ghost events: seq<Event>)
      requires !closed && Reached(before, soFar, View())
      modifies this, client
      ensures !closed && Reached(before, events, View()) && yielded == old(yielded) + head
      ensures Hears(old(TheReader()), turn, head, TheReader())
    {
      events := Interleave(turn, before, soFar);
      head := [];
      if queue != [] {
        events := Traces.Extend(Step, before, events, Yield, View());
        var event := NextEvent();
        head := [event];
      }
    }
  }

  // What a command is answered, told from what the reader meets

  /** The client's counter and the reader's side of a connection. */
  datatype Reader = Reader(messageId: int, reading: bool, putting: Option<int>, queue: seq<int>)

  function ReaderOf(s: State): Reader {
    Reader(s.messageId, s.reading, s.putting, s.queue)
  }

  function ReaderStep(r: Reader, e: Event): Option<Reader> {
    match e
    case OtherConnectionIssues => Some(r.(messageId := r.messageId + 1))
    case ResultFrame(_) => if r.reading && r.putting.None? then Some(r) else None
    case EventFrame(x) => if r.reading && r.putting.None? then Some(r.(putting := Some(x))) else None
    case PutDone =>
      if r.reading && r.putting.Some? && |r.queue| < QUEUE_LIMIT
      then Some(r.(queue := r.queue + [r.putting.value], putting := None)) else None
    case PutTimesOut => if r.reading && r.putting.Some? then Some(r.(reading := false, putting := None)) else None
    case ReaderFails => if r.reading then Some(r.(reading := false, putting := None)) else None
    case _ => None
  }

  /** Of these events, one after the other, the ones that can happen. */
  function Happening(r: Reader, others: seq<Event>): seq<Event> {
    if others == [] then []
    else
      var n := |others| - 1;
      var before := Happening(r, others[..n]);
      if ReaderStep(ReaderAfter(r, others[..n]), others[n]).Some? then before + [others[n]] else before
  }

  function ReaderAfter(r: Reader, others: seq<Event>): Reader {
    if others == [] then r
    else
      var n := |others| - 1;
      var before := ReaderAfter(r, others[..n]);
      var next := ReaderStep(before, others[n]);
      if next.Some? then next.value else before
  }

  lemma OneMoreHappens(r: Reader, others: seq<Event>, e: Event)
    ensures var next := ReaderStep(ReaderAfter(r, others), e);
      && Happening(r, others + [e]) == Happening(r, others) + (if next.Some? then [e] else [])
      && ReaderAfter(r, others + [e]) == if next.Some? then next.value else ReaderAfter(r, others)
  {
    assert (others + [e])[..|others|] == others;
  }

  lemma {:induction false} HappeningConcat(r: Reader, first: seq<Event>, second: seq<Event>)
    ensures Happening(r, first + second) == Happening(r, first) + Happening(ReaderAfter(r, first), second)
    ensures ReaderAfter(r, first + second) == ReaderAfter(ReaderAfter(r, first), second)
    decreases |second|
  {
    if second == [] {
      assert first + second == first;
    } else {
      var n := |second| - 1;
      assert first + second == (first + second[..n]) + [second[n]];
      HappeningConcat(r, first, second[..n]);
      OneMoreHappens(r, first + second[..n], second[n]);
    }
  }

  predicate IsReaders(e: Event) {
    e.OtherConnectionIssues? || e.ResultFrame? || e.EventFrame? || e.PutDone? || e.PutTimesOut? || e.ReaderFails?
  }

  lemma {:induction false} HappeningIsReaders(r: Reader, others: seq<Event>)
    ensures forall e | e in Happening(r, others) :: IsReaders(e)
    decreases |others|
  {
    if others != [] {
      HappeningIsReaders(r, others[..|others| - 1]);
    }
  }

  /** The reader has stopped, and every open future has failed. */
  predicate StopsReader(e: Event) {
    e.ReaderFails? || e.PutTimesOut?
  }

  predicate IsResultOf(e: Event, id: int) {
    e.ResultFrame? && e.frame.id == id
  }

  /** What becomes of the future of a command issued just before these events. */
  function Fate(events: seq<Event>, id: int): Future {
    if events == [] then Open
    else if IsResultOf(events[0], id) then Completed(events[0].frame)
    else if StopsReader(events[0]) then Disconnected
    else Fate(events[1..], id)
  }

  function Result(future: Future): Option<Frame> {
    if future.Completed? && future.frame.success then Some(future.frame) else None
  }

  /** A command is completed by a frame exactly if that is the first of its id to be taken while
      nothing has stopped the reader. */
  lemma {:induction false} FateIsFirstResult(events: seq<Event>, id: int, f: Frame)
    ensures Fate(events, id) == Completed(f) <==>
      exists k :: 0 <= k < |events| && events[k] == ResultFrame(f) && f.id == id && Undecided(events[..k], id)
  {
    if events != [] {
      var e, rest := events[0], events[1..];
      FateIsFirstResult(rest, id, f);
      if k :| 0 <= k < |rest| && rest[k] == ResultFrame(f) && f.id == id && Undecided(rest[..k], id) {
        if !IsResultOf(e, id) && !StopsReader(e) {
          assert events[..k + 1] == [e] + rest[..k] && events[k + 1] == rest[k];
          assert Undecided(events[..k + 1], id);
        }
      }
      if IsResultOf(e, id) {
        assert events[..0] == [];
      }
      if k :| 0 < k < |events| && events[k] == ResultFrame(f) && f.id == id && Undecided(events[..k], id) {
        assert events[..k][0] == e && rest[..k - 1] == events[..k][1..] && rest[k - 1] == events[k];
        assert Undecided(rest[..k - 1], id);
      }
    }
  }

  predicate Undecided(events: seq<Event>, id: int) {
    forall e | e in events :: !IsResultOf(e, id) && !StopsReader(e)
  }

  /** What a command returns. */
  function AnswerTo(r: Reader, turn: CommandTurn): Option<Frame> {
    if turn.sendFails then None
    else
      var id := r.messageId + 1;
      Result(Fate(Happening(r.(messageId := id), turn.sending + turn.waiting), id))
  }

  function CommandAfter(r: Reader, turn: CommandTurn): Reader {
    ReaderAfter(r.(messageId := r.messageId + 1), if turn.sendFails then turn.sending else turn.sending + turn.waiting)
  }

  /** Where the subscriptions lead, if all of them succeed. */
  function Subscribed(r: Reader, subscriptions: seq<CommandTurn>): Option<Reader>
    decreases |subscriptions|
  {
    if subscriptions == [] then Some(r)
    else if AnswerTo(r, subscriptions[0]).None? then None
    else Subscribed(CommandAfter(r, subscriptions[0]), subscriptions[1..])
  }

  /** What a listener yields: in each turn, as long as the reader runs, the head of the queue. */
  function Heard(r: Reader, turns: seq<seq<Event>>): seq<int>
    decreases |turns|
  {
    if turns == [] || !r.reading then []
    else
      var after := ReaderAfter(r, turns[0]);
      if after.queue == [] then Heard(after, turns[1..])
      else [after.queue[0]] + Heard(after.(queue := after.queue[1..]), turns[1..])
  }

  /** One turn of a listener. */
  predicate Hears(r: Reader, turn: seq<Event>, head: seq<int>, next: Reader) {
    var after := ReaderAfter(r, turn);
    if after.queue == [] then head == [] && next == after
    else head == [after.queue[0]] && next == after.(queue := after.queue[1..])
  }

  lemma HeardOn(r: Reader, turns: seq<seq<Event>>, got: seq<int>, head: seq<int>, next: Reader)
    requires turns != [] && r.reading && Hears(r, turns[0], head, next)
    ensures got + head + Heard(next, turns[1..]) == got + Heard(r, turns)
  {
    HeardFirst(r, turns, head, next);
    Associate(got, head, Heard(next, turns[1..]));
  }

  lemma HeardFirst(r: Reader, turns: seq<seq<Event>>, head: seq<int>, next: Reader)
    requires turns != [] && r.reading && Hears(r, turns[0], head, next)
    ensures Heard(r, turns) == head + Heard(next, turns[1..])
  {
    assert [] + Heard(next, turns[1..]) == Heard(next, turns[1..]);
  }

  /** Whatever arrives meanwhile, every queued event is yielded that has a turn before the reader
      stops. */
  lemma {:induction false} QueuedIsHeard(r: Reader, turns: seq<seq<Event>>)
    requires r.reading && |turns| <= |r.queue|
    requires forall i | 0 <= i < |turns| :: forall e | e in turns[i] :: !StopsReader(e)
    ensures Heard(r, turns) == r.queue[..|turns|]
    decreases |turns|
  {
    if turns != [] {
      QueueOnlyGrows(r, turns[0]);
      var after := ReaderAfter(r, turns[0]);
      var next := after.(queue := after.queue[1..]);
      assert r.queue[1..] <= next.queue;
      QueuedIsHeard(next, turns[1..]);
      assert after.queue[0] == r.queue[0] && next.queue[..|turns| - 1] == r.queue[1..][..|turns| - 1];
      assert r.queue[..|turns|] == [r.queue[0]] + r.queue[1..][..|turns| - 1];
    }
  }

  lemma {:induction false} QueueOnlyGrows(r: Reader, others: seq<Event>)
    requires r.reading && forall e | e in others :: !StopsReader(e)
    ensures ReaderAfter(r, others).reading && r.queue <= ReaderAfter(r, others).queue
    decreases |others|
  {
    if others != [] {
      var n := |others| - 1;
      QueueOnlyGrows(r, others[..n]);
      assert others[n] in others;
    }
  }

  predicate JustIssued(s: State, id: int) {
    id in s.pending && id in s.futures && s.futures[id].Open?
  }

  lemma {:induction false} FutureIsFate(s: State, events: seq<Event>, id: int)
    requires JustIssued(s, id) && Trace(s, events) && forall e | e in events :: IsReaders(e)
    ensures id in End(s, events).futures && End(s, events).futures[id] == Fate(events, id)
    decreases |events|
  {
    if events != [] {
      var e, rest := events[0], events[1..];
      var t := Next(s, e);
      assert IsReaders(e);
      if IsResultOf(e, id) || StopsReader(e) {
        ReadersKeepSettled(t, rest, id);
      } else {
        FutureIsFate(t, rest, id);
      }
    }
  }

  lemma {:induction false} ReadersKeepSettled(s: State, events: seq<Event>, id: int)
    requires id in s.futures && !s.futures[id].Open?
    requires Trace(s, events) && forall e | e in events :: IsReaders(e)
    ensures id in End(s, events).futures && End(s, events).futures[id] == s.futures[id]
    decreases |events|
  {
    if events != [] {
      assert IsReaders(events[0]);
      ReadersKeepSettled(Next(s, events[0]), events[1..], id);
    }
  }

  /** What happens around one command: at the await of its send, whether that fails, and while it
      waits for the result. A wait that ends with the future still open has timed out. */
  datatype CommandTurn = CommandTurn(sending: seq<Event>, sendFails: bool, waiting: seq<Event>)

  /** Pending commands have a future, ids come from the shared counter, an open future is pending,
      and a completed one holds a frame of its own id that was received. */
  ghost predicate Correlated(s: State) {
    && s.pending <= s.futures.Keys
    && (forall id | id in s.futures :: id <= s.messageId)
    && (forall id | id in s.futures && s.futures[id].Open? :: id in s.pending)
    && (forall id | id in s.futures && s.futures[id].Completed? ::
          s.futures[id].frame.id == id && s.futures[id].frame in s.frames)
  }

  /** The events yielded, queued and being put are the well-formed events received, in order; once
      the reader has stopped, a leading part of them. */
  ghost predicate InOrder(s: State) {
    var taken := s.yielded + s.queue + (if s.putting.Some? then [s.putting.value] else []);
    && taken <= s.received
    && (s.reading ==> taken == s.received)
    && |s.queue| <= QUEUE_LIMIT
    && (s.closed ==> !s.reading && s.pending == {})
  }

  lemma StepKeepsCorrelated(s: State, e: Event)
    requires Correlated(s) && Enabled(s, e)
    ensures Correlated(Next(s, e))
  {
  }

  lemma StepKeepsOrder(s: State, e: Event)
    requires InOrder(s) && Enabled(s, e)
    ensures InOrder(Next(s, e))
  {
  }

  /** A future that is no longer open never changes, and a new id has never been used. */
  lemma CompletesOnce(s: State, e: Event, id: int)
    requires Correlated(s) && Enabled(s, e) && id in s.futures && !s.futures[id].Open?
    ensures id in Next(s, e).futures && Next(s, e).futures[id] == s.futures[id]
  {
  }

  function Step(s: State, e: Event): Option<State> {
    if Enabled(s, e) then Some(Next(s, e)) else None
  }

  ghost predicate Trace(s: State, events: seq<Event>) {
    Traces.Trace(Step, s, events)
  }

  function End(s: State, events: seq<Event>): State
    requires Trace(s, events)
  {
    Traces.End(Step, s, events)
  }

  ghost predicate Reached(before: State, events: seq<Event>, s: State) {
    Traces.Reached(Step, before, events, s)
  }

  lemma {:induction false} RunsStayCorrelated(s: State, events: seq<Event>)
    requires Correlated(s) && InOrder(s) && Trace(s, events)
    ensures Correlated(End(s, events)) && InOrder(End(s, events))
    decreases |events|
  {
    if events != [] {
      StepKeepsCorrelated(s, events[0]);
      StepKeepsOrder(s, events[0]);
      RunsStayCorrelated(Next(s, events[0]), events[1..]);
    }
  }

  /** The command ids this connection issues in a run, in order. */
  function Issued(s: State, events: seq<Event>): seq<int>
    requires Trace(s, events)
    decreases |events|
  {
    if events == [] then []
    else (if events[0].Issue? then [s.messageId + 1] else []) + Issued(Next(s, events[0]), events[1..])
  }

  /** Command ids strictly increase, above every id the client ever used on any connection. */
  lemma {:induction false} IdsIncrease(s: State, events: seq<Event>)
    requires Trace(s, events)
    ensures forall i | 0 <= i < |Issued(s, events)| :: s.messageId < Issued(s, events)[i]
    ensures forall i, j | 0 <= i < j < |Issued(s, events)| :: Issued(s, events)[i] < Issued(s, events)[j]
    decreases |events|
  {
    if events != [] {
      IdsIncrease(Next(s, events[0]), events[1..]);
    }
  }

  /** In every run of a connection: a completed future holds a received frame of its own id; the
      events yielded are a leading part of the well-formed events received; and once the connection
      is torn down no command is pending and no future is left open. */
  lemma ResultsReachTheirCommand(messageId: int, events: seq<Event>)
    requires Trace(Initial(messageId), events)
    ensures var s := End(Initial(messageId), events);
      && (forall id | id in s.futures && s.futures[id].Completed? ::
            s.futures[id].frame.id == id && s.futures[id].frame in s.frames)
      && s.yielded <= s.received
      && (s.closed ==> s.pending == {} && forall id | id in s.futures :: !s.futures[id].Open?)
  {
    RunsStayCorrelated(Initial(messageId), events);
  }

  /** Over any run, a settled future keeps what it was settled with. */
  lemma {:induction false} SettledForGood(s: State, events: seq<Event>, id: int)
    requires Correlated(s) && Trace(s, events) && id in s.futures && !s.futures[id].Open?
    ensures id in End(s, events).futures && End(s, events).futures[id] == s.futures[id]
    decreases |events|
  {
    if events != [] {
      StepKeepsCorrelated(s, events[0]);
      CompletesOnce(s, events[0], id);
      SettledForGood(Next(s, events[0]), events[1..], id);
    }
  }

  /** A finished command leaves no pending entry, then or later. */
  lemma {:induction false} FinishedIsGone(s: State, events: seq<Event>, id: int)
    requires Correlated(s) && Trace(s, events) && id in s.futures && id !in s.pending
    ensures id !in End(s, events).pending
    decreases |events|
  {
    if events != [] {
      StepKeepsCorrelated(s, events[0]);
      FinishedIsGone(Next(s, events[0]), events[1..], id);
    }
  }
}
