// Realtime delivery: the in-process event bus and the WebSocket connections that
// subscribe to it.

module Cable {
  import opened Prelude

  datatype EventType =
    | ConversationCreated | ConversationUpdated | ConversationRead | MessageCreated
    | NotificationCreated | PresenceUpdate | TypingOn | TypingOff

  datatype Message = Message(account: int, event: EventType, data: int)

  /** The event types every connection forwards. */
  const FORWARD_EVENTS: seq<EventType> :=
    [ConversationCreated, ConversationUpdated, ConversationRead, MessageCreated,
     NotificationCreated, PresenceUpdate, TypingOn, TypingOff]

  // ---- The bus; a handler is named by its connection ----

  type Handlers = map<EventType, set<nat>>

  function On(h: Handlers, event: EventType): set<nat> {
    if event in h then h[event] else {}
  }

  function Subscribe(h: Handlers, event: EventType, id: nat): Handlers {
    h[event := On(h, event) + {id}]
  }

  function Unsubscribe(h: Handlers, event: EventType, id: nat): Handlers {
    if event in h then h[event := h[event] - {id}] else h
  }

  function SubscribeAll(h: Handlers, events: seq<EventType>, id: nat): Handlers
    decreases |events|
  {
    if events == [] then h else SubscribeAll(Subscribe(h, events[0], id), events[1..], id)
  }

  function UnsubscribeAll(h: Handlers, events: seq<EventType>, id: nat): Handlers
    decreases |events|
  {
    if events == [] then h else UnsubscribeAll(Unsubscribe(h, events[0], id), events[1..], id)
  }

  lemma {:induction false} SubscribeAllOn(h: Handlers, events: seq<EventType>, id: nat, e: EventType, other: nat)
    ensures other in On(SubscribeAll(h, events, id), e) <==> other in On(h, e) || (other == id && e in events)
    ensures other in On(UnsubscribeAll(h, events, id), e) <==> other in On(h, e) && !(other == id && e in events)
    decreases |events|
  {
    if events != [] {
      SubscribeAllOn(Subscribe(h, events[0], id), events[1..], id, e, other);
      SubscribeAllOn(Unsubscribe(h, events[0], id), events[1..], id, e, other);
    }
  }

  // ---- Connections ----

  datatype Frame =
    | Welcome
    | Confirmed(account: int) | Rejected | Unsubscribed
    | EventFrame(message: Message)
    | CloseRequest(code: int)

  /** `lookups` are the membership queries that have not been answered yet. */
  datatype Socket = Socket(open: bool, rooms: set<int>, lookups: multiset<int>, frames: seq<Frame>)

  datatype Hub = Hub(handlers: Handlers, sockets: map<nat, Socket>)

  datatype Step =
    | Open(id: nat)
    | Unauthorized(id: nat)
    | Ask(id: nat, target: Option<int>)              // subscribe; None: malformed identifier
    | Reply(id: nat, account: int, member: bool)     // the membership lookup answers
    | Leave(id: nat)                                 // unsubscribe
    | ClientEvent(id: nat, message: Message)         // typing or presence heartbeat
    | Publish(message: Message)
    | Close(id: nat)

  predicate Enabled(hub: Hub, step: Step) {
    match step
    case Open(id) => id !in hub.sockets
    case Unauthorized(id) => id !in hub.sockets
    case Reply(id, account, _) => id in hub.sockets && account in hub.sockets[id].lookups
    case Publish(_) => true
    case _ => step.id in hub.sockets && hub.sockets[step.id].open
  }

  function Send(s: Socket, f: Frame): Socket {
    s.(frames := s.frames + [f])
  }

  /** The handlers of the connections `ids` look at their own rooms. */
  function DeliverTo(sockets: map<nat, Socket>, ids: set<nat>, m: Message): map<nat, Socket> {
    map id | id in sockets ::
      if id in ids && m.account in sockets[id].rooms then Send(sockets[id], EventFrame(m)) else sockets[id]
  }

  function Deliver(hub: Hub, m: Message): Hub {
    hub.(sockets := DeliverTo(hub.sockets, On(hub.handlers, m.event), m))
  }

  predicate Connects(step: Step) {
    step.Open? || step.Unauthorized?
  }

  /** The connection as it starts: accepted, or told to close for want of a valid token. */
  function Started(step: Step): Socket {
    if step.Open? then Socket(true, {}, multiset{}, [Welcome])
    else Socket(false, {}, multiset{}, [CloseRequest(4401)])
  }

  /** What a step of its own does to a connection. */
  function Acted(s: Socket, step: Step): Socket {
    match step
    case Ask(_, target) =>
      if target.None? then Send(s, Rejected) else s.(lookups := s.lookups + multiset{target.value})
    case Reply(_, account, member) =>
      var answered := s.(lookups := s.lookups - multiset{account});
      if member then Send(answered.(rooms := s.rooms + {account}), Confirmed(account))
      else Send(answered, CloseRequest(4403))
    case Leave(_) => Send(s, Unsubscribed)
    case Close(_) => s.(open := false)
    case _ => s
  }

  function NextHandlers(h: Handlers, step: Step): Handlers {
    match step
    case Open(id) => SubscribeAll(h, FORWARD_EVENTS, id)
    case Close(id) => UnsubscribeAll(h, FORWARD_EVENTS, id)
    case _ => h
  }

  function Next(hub: Hub, step: Step): Hub
    requires Enabled(hub, step)
  {
    if step.Publish? then Deliver(hub, step.message)
    else if step.ClientEvent? then
      if step.message.account in hub.sockets[step.id].rooms then Deliver(hub, step.message) else hub
    else
      Hub(NextHandlers(hub.handlers, step),
          hub.sockets[step.id := if Connects(step) then Started(step) else Acted(hub.sockets[step.id], step)])
  }

  // ---- Runs ----

  type Stepper = (Hub, Step) -> Option<Hub>

  const STEPPER: Stepper := (hub, step) => if Enabled(hub, step) then Some(Next(hub, step)) else None

  const EMPTY := Hub(map[], map[])

  function Steps(next: Stepper, steps: seq<Step>, n: nat): Option<Hub>
    requires n <= |steps|
  {
    if n == 0 then Some(EMPTY)
    else
      var before := Steps(next, steps, n - 1);
      if before.None? then None else next(before.value, steps[n - 1])
  }

  /** The hub after the first n steps, if they were all possible. */
  function After(steps: seq<Step>, n: nat): Option<Hub>
    requires n <= |steps|
  {
    Steps(STEPPER, steps, n)
  }

  predicate IsRun(steps: seq<Step>) {
    After(steps, |steps|).Some?
  }

  ghost predicate Kept(next: Stepper, inv: (Hub, nat) -> bool, steps: seq<Step>, n: nat) {
    forall h, k: nat | k < n && k < |steps| && inv(h, k) && next(h, steps[k]).Some? ::
      inv(next(h, steps[k]).value, k + 1)
  }

  /** The induction principle of runs. */
  lemma {:induction false} RunInduction(next: Stepper, inv: (Hub, nat) -> bool, steps: seq<Step>, n: nat)
    requires n <= |steps| && Steps(next, steps, n).Some?
    requires inv(EMPTY, 0) && Kept(next, inv, steps, n)
    ensures inv(Steps(next, steps, n).value, n)
  {
    if n > 0 {
      RunInduction(next, inv, steps, n - 1);
    }
  }

  lemma {:induction false} PrefixRuns(next: Stepper, steps: seq<Step>, n: nat, m: nat)
    requires n <= m <= |steps| && Steps(next, steps, m).Some?
    ensures Steps(next, steps, n).Some?
  {
    if n < m {
      PrefixRuns(next, steps, n, m - 1);
    }
  }

  // ---- What the history says ----

  predicate OpenAt(steps: seq<Step>, id: nat, n: nat)
    requires n <= |steps|
  {
    exists j | 0 <= j < n :: steps[j] == Open(id) && forall k | j < k < n :: steps[k] != Close(id)
  }

  /** A membership lookup for the account has succeeded on this connection. */
  predicate Admitted(steps: seq<Step>, id: nat, account: int, n: nat)
    requires n <= |steps|
  {
    exists j | 0 <= j < n :: steps[j] == Reply(id, account, true)
  }

  /** The message that step n puts on the bus. */
  function Published(steps: seq<Step>, n: nat): Option<Message>
    requires n < |steps|
  {
    match steps[n]
    case Publish(m) => Some(m)
    case ClientEvent(id, m) => if Admitted(steps, id, m.account, n) then Some(m) else None
    case _ => None
  }

  /** The messages published among the first n steps while connection `id` was open and
      after it had been admitted to their account, in order. */
  function Expected(steps: seq<Step>, id: nat, n: nat): seq<Message>
    requires n <= |steps|
  {
    if n == 0 then []
    else
      var m := Published(steps, n - 1);
      Expected(steps, id, n - 1)
      + if m.Some? && OpenAt(steps, id, n - 1) && Admitted(steps, id, m.value.account, n - 1) then [m.value] else []
  }

  function Events(frames: seq<Frame>): seq<Message> {
    if frames == [] then []
    else
      var last := frames[|frames| - 1];
      Events(frames[..|frames| - 1]) + if last.EventFrame? then [last.message] else []
  }

  lemma EventsSend(s: Socket, f: Frame)
    ensures Events(Send(s, f).frames) == Events(s.frames) + if f.EventFrame? then [f.message] else []
  {
  }

  // ---- Connection state agrees with the history ----

  lemma OpenAtStep(steps: seq<Step>, id: nat, n: nat)
    requires n < |steps|
    ensures OpenAt(steps, id, n + 1) <==> steps[n] == Open(id) || (OpenAt(steps, id, n) && steps[n] != Close(id))
  {
  }

  lemma AdmittedStep(steps: seq<Step>, id: nat, account: int, n: nat)
    requires n < |steps|
    ensures Admitted(steps, id, account, n + 1)
       <==> steps[n] == Reply(id, account, true) || Admitted(steps, id, account, n)
  {
  }

  /** Openness, the handlers on the bus and the rooms of a connection. */
  predicate Agrees(hub: Hub, steps: seq<Step>, id: nat, account: int, e: EventType, n: nat)
    requires n <= |steps|
  {
    && (id in hub.sockets && hub.sockets[id].open <==> OpenAt(steps, id, n))
    && (id in On(hub.handlers, e) <==> OpenAt(steps, id, n))
    && (id in hub.sockets && account in hub.sockets[id].rooms <==> Admitted(steps, id, account, n))
  }

  lemma EveryTypeForwarded(e: EventType)
    ensures e in FORWARD_EVENTS
  {
  }

  ghost predicate AllAgree(hub: Hub, steps: seq<Step>, n: nat) {
    n <= |steps| && forall id, account, e :: Agrees(hub, steps, id, account, e, n)
  }

  /** How one step changes openness and rooms of a connection. */
  lemma NextSocket(hub: Hub, step: Step, id: nat, account: int)
    requires Enabled(hub, step)
    ensures var next := Next(hub, step);
            && (id in next.sockets && next.sockets[id].open
                <==> step == Open(id) || (id in hub.sockets && hub.sockets[id].open && step != Close(id)))
            && (id in next.sockets && account in next.sockets[id].rooms
                <==> step == Reply(id, account, true) || (id in hub.sockets && account in hub.sockets[id].rooms))
  {
  }

  lemma HandlersAgree(hub: Hub, step: Step, id: nat, e: EventType)
    requires Enabled(hub, step)
    ensures id in On(Next(hub, step).handlers, e)
       <==> step == Open(id) || (id in On(hub.handlers, e) && step != Close(id))
  {
    EveryTypeForwarded(e);
    if step.Open? || step.Close? {
      SubscribeAllOn(hub.handlers, FORWARD_EVENTS, step.id, e, id);
    }
  }

  lemma AgreesStep(hub: Hub, steps: seq<Step>, n: nat, id: nat, account: int, e: EventType)
    requires n < |steps| && Enabled(hub, steps[n])
    requires Agrees(hub, steps, id, account, e, n)
    ensures Agrees(Next(hub, steps[n]), steps, id, account, e, n + 1)
  {
    OpenAtStep(steps, id, n);
    AdmittedStep(steps, id, account, n);
    NextSocket(hub, steps[n], id, account);
    HandlersAgree(hub, steps[n], id, e);
  }

  lemma AllAgreeStep(hub: Hub, steps: seq<Step>, n: nat, m: nat)
    requires n < |steps| && m == n + 1 && Enabled(hub, steps[n]) && AllAgree(hub, steps, n)
    ensures AllAgree(Next(hub, steps[n]), steps, m)
  {
    var after := Next(hub, steps[n]);
    forall id, account, e ensures Agrees(after, steps, id, account, e, m) {
      AgreesStep(hub, steps, n, id, account, e);
    }
  }

  ghost function Agreement(steps: seq<Step>): (Hub, nat) -> bool {
    (h: Hub, k: nat) => AllAgree(h, steps, k)
  }

  lemma AllAgreeKept(steps: seq<Step>)
    ensures Kept(STEPPER, Agreement(steps), steps, |steps|)
    ensures AllAgree(EMPTY, steps, 0)
  {
    forall h, k: nat | k < |steps| && AllAgree(h, steps, k) && STEPPER(h, steps[k]).Some?
      ensures AllAgree(STEPPER(h, steps[k]).value, steps, k + 1)
    {
      AllAgreeStep(h, steps, k, k + 1);
    }
  }

  /** In every run, openness, handlers and rooms are what the history says. */
  lemma StateAgrees(steps: seq<Step>, n: nat)
    requires n <= |steps| && After(steps, n).Some?
    ensures AllAgree(After(steps, n).value, steps, n)
  {
    AllAgreeKept(steps);
    RunInduction(STEPPER, Agreement(steps), steps, n);
  }

  // ---- Delivery ----

  ghost function EventsOf(hub: Hub, id: nat): seq<Message> {
    if id in hub.sockets then Events(hub.sockets[id].frames) else []
  }

  lemma DeliverStep(hub: Hub, m: Message, id: nat)
    ensures EventsOf(Deliver(hub, m), id)
         == EventsOf(hub, id)
            + if id in hub.sockets && id in On(hub.handlers, m.event) && m.account in hub.sockets[id].rooms
              then [m] else []
  {
  }

  ghost predicate Delivered(hub: Hub, steps: seq<Step>, id: nat, n: nat) {
    AllAgree(hub, steps, n) && EventsOf(hub, id) == Expected(steps, id, n)
  }

  /** A step that publishes nothing sends no event frame. */
  lemma QuietStep(hub: Hub, step: Step, id: nat)
    requires Enabled(hub, step) && !step.Publish?
    requires step.ClientEvent? ==> step.message.account !in hub.sockets[step.id].rooms
    ensures EventsOf(Next(hub, step), id) == EventsOf(hub, id)
  {
    if id in hub.sockets {
      var s := hub.sockets[id];
      EventsSend(s, if step.Ask? then Rejected else if step.Leave? then Unsubscribed
                    else if step.Reply? && step.member then Confirmed(step.account) else CloseRequest(4403));
    } else {
      assert Events([Welcome]) == [] && Events([CloseRequest(4401)]) == [];
    }
  }

  lemma DeliveredStep(hub: Hub, steps: seq<Step>, id: nat, n: nat)
    requires n < |steps| && Enabled(hub, steps[n]) && Delivered(hub, steps, id, n)
    ensures EventsOf(Next(hub, steps[n]), id) == Expected(steps, id, n + 1)
  {
    var step := steps[n];
    var m := Published(steps, n);
    if step.ClientEvent? {
      assert Agrees(hub, steps, step.id, step.message.account, TypingOn, n);
    }
    if m.Some? {
      assert Agrees(hub, steps, id, m.value.account, m.value.event, n);
      DeliverStep(hub, m.value, id);
    } else {
      QuietStep(hub, step, id);
    }
  }

  lemma DeliveredUpTo(steps: seq<Step>, id: nat, n: nat)
    requires n <= |steps| && After(steps, n).Some?
    ensures EventsOf(After(steps, n).value, id) == Expected(steps, id, n)
  {
    ghost var inv: (Hub, nat) -> bool := (h: Hub, k: nat) => Delivered(h, steps, id, k);
    AllAgreeKept(steps);
    forall h, k: nat | k < |steps| && inv(h, k) && STEPPER(h, steps[k]).Some?
      ensures inv(STEPPER(h, steps[k]).value, k + 1)
    {
      DeliveredStep(h, steps, id, k);
      assert Agreement(steps)(STEPPER(h, steps[k]).value, k + 1);
    }
    RunInduction(STEPPER, inv, steps, n);
  }

  /** In every run, the event frames of a connection are exactly the publications made
      while it was open and after it was admitted to their account, in order. */
  lemma DeliveryExact(steps: seq<Step>, id: nat)
    requires IsRun(steps)
    ensures EventsOf(After(steps, |steps|).value, id) == Expected(steps, id, |steps|)
  {
    DeliveredUpTo(steps, id, |steps|);
  }

  // ---- Which steps are possible, and what a connection is answered ----

  /** The frames that answer a step of the connection itself. */
  function Answer(step: Step): seq<Frame> {
    match step
    case Open(_) => [Welcome]
    case Unauthorized(_) => [CloseRequest(4401)]
    case Ask(_, None) => [Rejected]
    case Reply(_, account, true) => [Confirmed(account)]
    case Reply(_, _, false) => [CloseRequest(4403)]
    case Leave(_) => [Unsubscribed]
    case _ => []
  }

  predicate IsOwn(step: Step, id: nat) {
    !step.Publish? && step.id == id
  }

  /** The answers to what connection `id` did among the first n steps. */
  function Answers(steps: seq<Step>, id: nat, n: nat): seq<Frame>
    requires n <= |steps|
  {
    if n == 0 then []
    else Answers(steps, id, n - 1) + if IsOwn(steps[n - 1], id) then Answer(steps[n - 1]) else []
  }

  function Waiting(step: Step, id: nat, account: int): int {
    if step == Ask(id, Some(account)) then 1
    else if step.Reply? && step.id == id && step.account == account then -1
    else 0
  }

  /** How many lookups of the account have been asked for and not answered. */
  function Unanswered(steps: seq<Step>, id: nat, account: int, n: nat): int
    requires n <= |steps|
  {
    if n == 0 then 0 else Unanswered(steps, id, account, n - 1) + Waiting(steps[n - 1], id, account)
  }

  predicate Known(steps: seq<Step>, id: nat, n: nat)
    requires n <= |steps|
  {
    exists j | 0 <= j < n :: steps[j] == Open(id) || steps[j] == Unauthorized(id)
  }

  /** Every frame but the event frames. */
  function Plain(frames: seq<Frame>): seq<Frame> {
    if frames == [] then []
    else
      var last := frames[|frames| - 1];
      Plain(frames[..|frames| - 1]) + if last.EventFrame? then [] else [last]
  }

  ghost function PlainOf(hub: Hub, id: nat): seq<Frame> {
    if id in hub.sockets then Plain(hub.sockets[id].frames) else []
  }

  ghost function LookupsOf(hub: Hub, id: nat, account: int): int {
    if id in hub.sockets then hub.sockets[id].lookups[account] else 0
  }

  lemma PlainSend(s: Socket, f: Frame)
    ensures Plain(Send(s, f).frames) == Plain(s.frames) + if f.EventFrame? then [] else [f]
  {
  }

  lemma AnswerStep(hub: Hub, step: Step, id: nat)
    requires Enabled(hub, step)
    ensures PlainOf(Next(hub, step), id) == PlainOf(hub, id) + if IsOwn(step, id) then Answer(step) else []
  {
    if id in hub.sockets {
      var s := hub.sockets[id];
      if step.Publish? || step.ClientEvent? {
        PlainSend(s, EventFrame(step.message));
      } else if IsOwn(step, id) && Answer(step) != [] {
        PlainSend(s, Answer(step)[0]);
      }
    } else if IsOwn(step, id) {
      assert Plain(Answer(step)) == Answer(step);
    }
  }

  lemma LookupStep(hub: Hub, step: Step, id: nat, account: int)
    requires Enabled(hub, step)
    ensures LookupsOf(Next(hub, step), id, account) == LookupsOf(hub, id, account) + Waiting(step, id, account)
    ensures id in Next(hub, step).sockets <==> id in hub.sockets || step == Open(id) || step == Unauthorized(id)
  {
  }

  /** What the history says of a connection's frames and lookups. */
  ghost predicate Accounted(hub: Hub, steps: seq<Step>, id: nat, account: int, n: nat) {
    && n <= |steps|
    && (id in hub.sockets <==> Known(steps, id, n))
    && PlainOf(hub, id) == Answers(steps, id, n)
    && LookupsOf(hub, id, account) == Unanswered(steps, id, account, n)
  }

  lemma KnownStep(steps: seq<Step>, id: nat, n: nat)
    requires n < |steps|
    ensures Known(steps, id, n + 1) <==> Known(steps, id, n) || steps[n] == Open(id) || steps[n] == Unauthorized(id)
  {
  }

  lemma AccountedStep(hub: Hub, steps: seq<Step>, id: nat, account: int, n: nat)
    requires n < |steps| && Enabled(hub, steps[n]) && Accounted(hub, steps, id, account, n)
    ensures Accounted(Next(hub, steps[n]), steps, id, account, n + 1)
  {
    AnswerStep(hub, steps[n], id);
    LookupStep(hub, steps[n], id, account);
    KnownStep(steps, id, n);
  }

  /** In every run the frames of a connection that are no event frames are exactly the answers to its
      own steps, in order, and the lookups it waits for are those asked and not answered. */
  lemma AnswersExact(steps: seq<Step>, id: nat, account: int, n: nat)
    requires n <= |steps| && After(steps, n).Some?
    ensures PlainOf(After(steps, n).value, id) == Answers(steps, id, n)
    ensures LookupsOf(After(steps, n).value, id, account) == Unanswered(steps, id, account, n)
    ensures id in After(steps, n).value.sockets <==> Known(steps, id, n)
  {
    ghost var inv: (Hub, nat) -> bool := (h: Hub, k: nat) => Accounted(h, steps, id, account, k);
    forall h, k: nat | k < |steps| && inv(h, k) && STEPPER(h, steps[k]).Some?
      ensures inv(STEPPER(h, steps[k]).value, k + 1)
    {
      AccountedStep(h, steps, id, account, k);
    }
    RunInduction(STEPPER, inv, steps, n);
  }

  /** A connection starts once, speaks while it is open, and a lookup that was asked for answers,
      also after the close; anything may be published at any time. */
  predicate PossibleAt(steps: seq<Step>, n: nat)
    requires n < |steps|
  {
    match steps[n]
    case Open(id) => !Known(steps, id, n)
    case Unauthorized(id) => !Known(steps, id, n)
    case Reply(id, account, _) => Unanswered(steps, id, account, n) > 0
    case Publish(_) => true
    case _ => OpenAt(steps, steps[n].id, n)
  }

  /** A run can go on with a step exactly when the history so far makes it possible. */
  lemma PossibleIff(steps: seq<Step>, n: nat)
    requires n < |steps|
    ensures After(steps, 0).Some?
    ensures After(steps, n + 1).Some? <==> After(steps, n).Some? && PossibleAt(steps, n)
  {
    if After(steps, n).Some? && !steps[n].Publish? {
      var account := if steps[n].Reply? then steps[n].account else 0;
      AnswersExact(steps, steps[n].id, account, n);
      StateAgrees(steps, n);
      assert Agrees(After(steps, n).value, steps, steps[n].id, account, TypingOn, n);
    }
  }

  // ---- Confirmation first, nothing after close ----

  predicate ConfirmedBefore(frames: seq<Frame>, p: int, account: int) {
    exists q | 0 <= q < p && q < |frames| :: frames[q] == Confirmed(account)
  }

  predicate FramesOrdered(s: Socket) {
    && (forall p | 0 <= p < |s.frames| && s.frames[p].EventFrame? ::
          ConfirmedBefore(s.frames, p, s.frames[p].message.account))
    && (forall account | account in s.rooms :: ConfirmedBefore(s.frames, |s.frames|, account))
    && (forall p | 0 <= p < |s.frames| && s.frames[p].Confirmed? :: s.frames[p].account in s.rooms)
  }

  lemma SendOrdered(s: Socket, f: Frame)
    requires FramesOrdered(s)
    requires f.EventFrame? ==> f.message.account in s.rooms
    ensures FramesOrdered(Send(s.(rooms := s.rooms + if f.Confirmed? then {f.account} else {}), f))
  {
    var t := Send(s.(rooms := s.rooms + if f.Confirmed? then {f.account} else {}), f);
    forall p, account | 0 <= p <= |s.frames| && ConfirmedBefore(s.frames, p, account)
      ensures ConfirmedBefore(t.frames, p, account) && ConfirmedBefore(t.frames, |t.frames|, account)
    {
      var q :| 0 <= q < p && q < |s.frames| && s.frames[q] == Confirmed(account);
      assert t.frames[q] == Confirmed(account);
    }
    assert t.frames[|s.frames|] == f;
  }

  lemma DeliverOrdered(hub: Hub, m: Message, id: nat)
    requires id in hub.sockets && FramesOrdered(hub.sockets[id])
    ensures FramesOrdered(Deliver(hub, m).sockets[id])
  {
    var s := hub.sockets[id];
    assert s.rooms + {} == s.rooms;
    if m.account in s.rooms {
      SendOrdered(s, EventFrame(m));
    }
  }

  lemma ReplyOrdered(hub: Hub, id: nat, account: int, member: bool)
    requires Enabled(hub, Reply(id, account, member)) && FramesOrdered(hub.sockets[id])
    ensures FramesOrdered(Next(hub, Reply(id, account, member)).sockets[id])
  {
    var s := hub.sockets[id].(lookups := hub.sockets[id].lookups - multiset{account});
    assert s.rooms + {} == s.rooms;
    SendOrdered(s, if member then Confirmed(account) else CloseRequest(4403));
  }

  lemma AnswerOrdered(hub: Hub, step: Step)
    requires Enabled(hub, step) && (step.Ask? || step.Leave? || step.Close?) && FramesOrdered(hub.sockets[step.id])
    ensures FramesOrdered(Acted(hub.sockets[step.id], step))
  {
    assert hub.sockets[step.id].rooms + {} == hub.sockets[step.id].rooms;
    SendOrdered(hub.sockets[step.id], if step.Ask? then Rejected else Unsubscribed);
  }

  lemma NextOrdered(hub: Hub, step: Step, id: nat)
    requires Enabled(hub, step)
    requires id in hub.sockets ==> FramesOrdered(hub.sockets[id])
    ensures id in Next(hub, step).sockets ==> FramesOrdered(Next(hub, step).sockets[id])
  {
    if id in hub.sockets {
      if step.ClientEvent? || step.Publish? {
        DeliverOrdered(hub, step.message, id);
      } else if step.Reply? {
        if step.id == id {
          ReplyOrdered(hub, id, step.account, step.member);
        }
      } else if step.id == id && !Connects(step) {
        AnswerOrdered(hub, step);
      }
    }
  }

  /** Every event frame follows a confirmation for its account on the same connection,
      and every confirmation answers a membership lookup that succeeded. */
  lemma ConfirmedFirst(steps: seq<Step>, id: nat, n: nat)
    requires n <= |steps| && After(steps, n).Some? && id in After(steps, n).value.sockets
    ensures var s := After(steps, n).value.sockets[id];
            && FramesOrdered(s)
            && forall p | 0 <= p < |s.frames| && s.frames[p].Confirmed? :: Admitted(steps, id, s.frames[p].account, n)
  {
    ghost var inv: (Hub, nat) -> bool := (h: Hub, k: nat) => id in h.sockets ==> FramesOrdered(h.sockets[id]);
    forall h, k: nat | k < |steps| && inv(h, k) && STEPPER(h, steps[k]).Some?
      ensures inv(STEPPER(h, steps[k]).value, k + 1)
    {
      NextOrdered(h, steps[k], id);
    }
    RunInduction(STEPPER, inv, steps, n);
    StateAgrees(steps, n);
    var hub := After(steps, n).value;
    forall p | 0 <= p < |hub.sockets[id].frames| && hub.sockets[id].frames[p].Confirmed?
      ensures Admitted(steps, id, hub.sockets[id].frames[p].account, n)
    {
      assert Agrees(hub, steps, id, hub.sockets[id].frames[p].account, TypingOn, n);
    }
  }

  /** Connection `id` exists and no step from c on, up to n, has opened it. */
  ghost predicate Gone(hub: Hub, steps: seq<Step>, id: nat, c: nat, n: nat) {
    id in hub.sockets && forall j | c < j < n && j < |steps| :: steps[j] != Open(id)
  }

  lemma GoneStep(hub: Hub, steps: seq<Step>, id: nat, c: nat, n: nat)
    requires n < |steps| && Enabled(hub, steps[n])
    requires if n == c then steps[c] == Close(id) else Gone(hub, steps, id, c, n)
    ensures Gone(Next(hub, steps[n]), steps, id, c, n + 1) || n < c
  {
  }

  /** A closed connection never opens again ... */
  lemma NeverReopened(steps: seq<Step>, id: nat, c: nat, n: nat)
    requires c < n <= |steps| && After(steps, n).Some? && steps[c] == Close(id)
    ensures forall k | c < k < n :: steps[k] != Open(id)
  {
    ghost var inv: (Hub, nat) -> bool := (h: Hub, k: nat) => k > c ==> Gone(h, steps, id, c, k);
    forall h, k: nat | k < |steps| && inv(h, k) && STEPPER(h, steps[k]).Some?
      ensures inv(STEPPER(h, steps[k]).value, k + 1)
    {
      if k >= c {
        GoneStep(h, steps, id, c, k);
      }
    }
    RunInduction(STEPPER, inv, steps, n);
  }

  lemma {:induction false} ExpectsNothing(steps: seq<Step>, id: nat, c: nat, n: nat)
    requires c < n <= |steps| && steps[c] == Close(id)
    requires forall k | c < k < n :: steps[k] != Open(id)
    ensures !OpenAt(steps, id, n) && Expected(steps, id, n) == Expected(steps, id, c)
  {
    OpenAtStep(steps, id, n - 1);
    if c < n - 1 {
      ExpectsNothing(steps, id, c, n - 1);
    }
  }

  /** ... and no event frame follows its close. */
  lemma NothingAfterClose(steps: seq<Step>, id: nat, c: nat, n: nat)
    requires c < n <= |steps| && After(steps, n).Some? && steps[c] == Close(id)
    ensures After(steps, c).Some?
    ensures EventsOf(After(steps, n).value, id) == EventsOf(After(steps, c).value, id)
  {
    PrefixRuns(STEPPER, steps, c, n);
    DeliveredUpTo(steps, id, n);
    DeliveredUpTo(steps, id, c);
    NeverReopened(steps, id, c, n);
    ExpectsNothing(steps, id, c, n);
  }

  // ---- The server ----

  lemma DeliverOne(sockets: map<nat, Socket>, ids: set<nat>, id: nat, m: Message)
    requires id !in ids
    ensures DeliverTo(sockets, ids + {id}, m)
         == if id in sockets && m.account in sockets[id].rooms
            then DeliverTo(sockets, ids, m)[id := Send(sockets[id], EventFrame(m))]
            else DeliverTo(sockets, ids, m)
  {
  }

  class CableServer {
    var handlers: Handlers
    var sockets: map<nat, Socket>

    function State(): Hub
      reads this
    {
      Hub(handlers, sockets)
    }

    constructor ()
      ensures State() == Hub(map[], map[])
    {
      handlers, sockets := map[], map[];
    }

    method SendTo(id: nat, frame: Frame)
      requires id in sockets
      modifies this`sockets
      ensures sockets == old(sockets)[id := Send(old(sockets)[id], frame)]
    {
      sockets := sockets[id := sockets[id].(frames := sockets[id].frames + [frame])];
    }

    /** The handler of one connection. */
    method Handle(id: nat, m: Message)
      modifies this`sockets
      ensures sockets == if id in old(sockets) && m.account in old(sockets)[id].rooms
                         then old(sockets)[id := Send(old(sockets)[id], EventFrame(m))] else old(sockets)
    {
      if id in sockets && m.account in sockets[id].rooms {
        SendTo(id, EventFrame(m));
      }
    }

    method PublishMessage(m: Message)
      modifies this`sockets
      ensures State() == Deliver(old(State()), m)
    {
      var waiting := On(handlers, m.event);
      ghost var served: set<nat> := {};
      assert sockets == DeliverTo(sockets, {}, m);
      while waiting != {}
        invariant waiting + served == On(handlers, m.event) && waiting !! served
        invariant sockets == DeliverTo(old(sockets), served, m)
        decreases |waiting|
      {
        var id :| id in waiting;
        DeliverOne(old(sockets), served, id, m);
        assert id in sockets ==> sockets[id] == old(sockets)[id];
        Handle(id, m);
        waiting := waiting - {id};
        served := served + {id};
      }
      assert served == On(handlers, m.event);
    }

    method SubscribeTo(events: seq<EventType>, id: nat)
      modifies this`handlers
      ensures handlers == SubscribeAll(old(handlers), events, id)
    {
      for i := 0 to |events|
        invariant SubscribeAll(handlers, events[i..], id) == SubscribeAll(old(handlers), events, id)
      {
        handlers := Subscribe(handlers, events[i], id);
        assert events[i..][1..] == events[i + 1..];
      }
    }

    method UnsubscribeFrom(events: seq<EventType>, id: nat)
      modifies this`handlers
      ensures handlers == UnsubscribeAll(old(handlers), events, id)
    {
      for i := 0 to |events|
        invariant UnsubscribeAll(handlers, events[i..], id) == UnsubscribeAll(old(handlers), events, id)
      {
        handlers := Unsubscribe(handlers, events[i], id);
        assert events[i..][1..] == events[i + 1..];
      }
    }

    method OnOpen(id: nat)
      requires Enabled(State(), Open(id))
      modifies this
      ensures State() == Next(old(State()), Open(id))
    {
      sockets := sockets[id := Socket(true, {}, multiset{}, [Welcome])];
      SubscribeTo(FORWARD_EVENTS, id);
    }

    method OnSubscribe(id: nat, target: Option<int>)
      requires Enabled(State(), Ask(id, target))
      modifies this`sockets
      ensures State() == Next(old(State()), Ask(id, target))
    {
      if target.None? {
        SendTo(id, Rejected);
      } else {
        sockets := sockets[id := sockets[id].(lookups := sockets[id].lookups + multiset{target.value})];
      }
    }

    method OnMembership(id: nat, account: int, member: bool)
      requires Enabled(State(), Reply(id, account, member))
      modifies this`sockets
      ensures State() == Next(old(State()), Reply(id, account, member))
    {
      sockets := sockets[id := sockets[id].(lookups := sockets[id].lookups - multiset{account})];
      if !member {
        SendTo(id, CloseRequest(4403));
        return;
      }
      sockets := sockets[id := sockets[id].(rooms := sockets[id].rooms + {account})];
      SendTo(id, Confirmed(account));
    }

    /** Unsubscribing is only acknowledged; the room stays. */
    method OnUnsubscribe(id: nat)
      requires Enabled(State(), Leave(id))
      modifies this`sockets
      ensures State() == Next(old(State()), Leave(id))
    {
      SendTo(id, Unsubscribed);
    }

    method OnClientEvent(id: nat, m: Message)
      requires Enabled(State(), ClientEvent(id, m))
      modifies this`sockets
      ensures State() == Next(old(State()), ClientEvent(id, m))
    {
      if m.account in sockets[id].rooms {
        PublishMessage(m);
      }
    }

    method OnClose(id: nat)
      requires Enabled(State(), Close(id))
      modifies this
      ensures State() == Next(old(State()), Close(id))
    {
      UnsubscribeFrom(FORWARD_EVENTS, id);
      sockets := sockets[id := sockets[id].(open := false)];
    }
  }
}
