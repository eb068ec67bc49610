// The feedback loop of the automation engine: published updates and posted messages set
// off the undelayed rules that listen to them, in whatever order, until no event is left.

module CascadeRuns {
  import opened Prelude
  import opened JsValues
  import opened Conditions
  import opened ConversationActions
  import opened ActionLaws
  import opened ConversationStores
  import opened Cascade

  /** The account's undelayed rules for `conversation_updated` and for `message_created`. */
  datatype RuleBook = RuleBook(onUpdate: seq<Rule>, onMessage: seq<Rule>) {
    function For(byMessage: bool): seq<Rule> {
      if byMessage then onMessage else onUpdate
    }
  }

  /** Events that are published and not handled yet. */
  datatype Queue = Queue(updates: nat, messages: nat)

  const EMPTY := Queue(0, 0)

  /** What the bus and the conditions leave open at each step: which event comes next when
      there are both, and which rules fire on a posted message (true) or an update (false). */
  datatype Schedule = Schedule(messageFirst: nat -> bool, fires: (nat, bool) -> Fires)

  datatype Config = Config(state: State, queue: Queue)

  predicate TakesMessage(sch: Schedule, q: Queue, step: nat) {
    q.messages > 0 && (q.updates == 0 || sch.messageFirst(step))
  }

  ghost function RunEvent(env: Env, book: RuleBook, sch: Schedule, c: Config, step: nat): Handled {
    var byMessage := TakesMessage(sch, c.queue, step);
    RunRules(env, book.For(byMessage), sch.fires(step, byMessage), c.state, 0)
  }

  /** Handles one event; what it publishes and posts joins the queue. */
  ghost function HandleOne(env: Env, book: RuleBook, sch: Schedule, c: Config, step: nat): Config
    requires c.queue != EMPTY
  {
    var q, h := c.queue, RunEvent(env, book, sch, c, step);
    Config(h.state,
           if TakesMessage(sch, q, step) then Queue(q.updates + h.published, q.messages - 1 + h.posted)
           else Queue(q.updates - 1 + h.published, q.messages + h.posted))
  }

  /** The queue runs empty within n events. */
  ghost predicate EndsWithin(env: Env, book: RuleBook, sch: Schedule, c: Config, step: nat, n: nat)
    decreases n
  {
    c.queue == EMPTY || (n > 0 && EndsWithin(env, book, sch, HandleOne(env, book, sch, c, step), step + 1, n - 1))
  }

  ghost predicate Ends(env: Env, book: RuleBook, sch: Schedule, c: Config) {
    exists n: nat :: EndsWithin(env, book, sch, c, 0, n)
  }

  // ---- A bound for every schedule ----

  function JointOps(env: Env, book: RuleBook): (ops: seq<Op>)
    ensures AllWellFormed(env, ops)
  {
    AllOps(env, book.onUpdate) + AllOps(env, book.onMessage)
  }

  /** All rules together are calm, and rules on messages post none. */
  ghost predicate Settles(env: Env, book: RuleBook, hasContact: bool) {
    Calm(JointOps(env, book), hasContact) && PostsPerEvent(env, book.onMessage, 0) == 0
  }

  ghost predicate Sound(env: Env, book: RuleBook, c: Config) {
    Valid(c.state) && Settles(env, book, c.state.contact.Some?)
  }

  ghost function Distance(env: Env, book: RuleBook, s: State): nat {
    |Off(s, JointOps(env, book))|
  }

  lemma OneStep(env: Env, book: RuleBook, sch: Schedule, c: Config, step: nat)
    requires Sound(env, book, c) && c.queue != EMPTY
    ensures var next, h := HandleOne(env, book, sch, c, step), RunEvent(env, book, sch, c, step);
            && Sound(env, book, next)
            && Distance(env, book, next.state) + h.published <= Distance(env, book, c.state)
            && h.posted <= if TakesMessage(sch, c.queue, step) then 0 else PostsPerEvent(env, book.onUpdate, 0)
  {
    var byMessage := TakesMessage(sch, c.queue, step);
    EventProgress(env, book.For(byMessage), JointOps(env, book), sch.fires(step, byMessage), c.state, 0);
    PostedAtMost(env, book.For(byMessage), sch.fires(step, byMessage), c.state, 0);
  }

  /** How many updates and messages are handled until the queue is empty. That the function
      is total for settling rules is the termination of the cascade. */
  ghost function EventsHandled(env: Env, book: RuleBook, sch: Schedule, c: Config, step: nat): Queue
    requires Sound(env, book, c)
    decreases Distance(env, book, c.state), c.queue.updates, c.queue.messages
  {
    if c.queue == EMPTY then EMPTY
    else
      OneStep(env, book, sch, c, step);
      var rest := EventsHandled(env, book, sch, HandleOne(env, book, sch, c, step), step + 1);
      if TakesMessage(sch, c.queue, step) then rest.(messages := rest.messages + 1)
      else rest.(updates := rest.updates + 1)
  }

  /** Updates are paid for by fields that reach their goal, messages by handled updates. */
  predicate PaidFor(handled: Queue, q: Queue, off: nat, posts: nat) {
    && q.updates <= handled.updates <= q.updates + off
    && q.messages <= handled.messages <= q.messages + posts * handled.updates
  }

  lemma PaidForStep(
    handled: Queue, rest: Queue, q: Queue, after: Queue, h: Handled, off: nat, left: nat, posts: nat, byMessage: bool)
    requires PaidFor(rest, after, left, posts) && left + h.published <= off
    requires h.posted <= if byMessage then 0 else posts
    requires if byMessage then handled == rest.(messages := rest.messages + 1) && q.messages > 0
                               && after == Queue(q.updates + h.published, q.messages - 1 + h.posted)
             else handled == rest.(updates := rest.updates + 1) && q.updates > 0
                  && after == Queue(q.updates - 1 + h.published, q.messages + h.posted)
    ensures PaidFor(handled, q, off, posts)
  {
    assert posts * (rest.updates + 1) == posts * rest.updates + posts;
  }

  lemma {:induction false} EventsPaidFor(env: Env, book: RuleBook, sch: Schedule, c: Config, step: nat)
    requires Sound(env, book, c)
    ensures PaidFor(EventsHandled(env, book, sch, c, step), c.queue,
                    Distance(env, book, c.state), PostsPerEvent(env, book.onUpdate, 0))
    decreases Distance(env, book, c.state), c.queue.updates, c.queue.messages
  {
    if c.queue != EMPTY {
      var next := HandleOne(env, book, sch, c, step);
      OneStep(env, book, sch, c, step);
      EventsPaidFor(env, book, sch, next, step + 1);
      PaidForStep(EventsHandled(env, book, sch, c, step), EventsHandled(env, book, sch, next, step + 1),
                  c.queue, next.queue, RunEvent(env, book, sch, c, step),
                  Distance(env, book, c.state), Distance(env, book, next.state),
                  PostsPerEvent(env, book.onUpdate, 0), TakesMessage(sch, c.queue, step));
    } else {
      assert PostsPerEvent(env, book.onUpdate, 0) * 0 == 0;
    }
  }

  lemma MultiplyGrows(k: nat, a: nat, b: nat)
    requires a <= b
    ensures k * a <= k * b
  {
  }

  /** With settling rules, whatever their conditions, whatever the guard skips and in whatever
      order events are taken: at most as many updates as were queued plus one for every field
      or label the rules can write, and at most the queued messages plus the posts of those
      updates. */
  lemma CascadeBound(env: Env, book: RuleBook, sch: Schedule, c: Config)
    requires Sound(env, book, c)
    ensures var handled := EventsHandled(env, book, sch, c, 0);
            var updates := c.queue.updates + |Fields(JointOps(env, book))|;
            && handled.updates <= updates
            && handled.messages <= c.queue.messages + PostsPerEvent(env, book.onUpdate, 0) * updates
  {
    EventsPaidFor(env, book, sch, c, 0);
    SubsetSize(Off(c.state, JointOps(env, book)), Fields(JointOps(env, book)));
    MultiplyGrows(PostsPerEvent(env, book.onUpdate, 0), EventsHandled(env, book, sch, c, 0).updates,
                  c.queue.updates + |Fields(JointOps(env, book))|);
  }

  // ---- Exactly when the cascade ends ----

  /** Every active rule fires on its event and none throws. */
  ghost predicate Unconditional(env: Env, book: RuleBook, sch: Schedule) {
    && NoneThrows(env, book.onUpdate) && NoneThrows(env, book.onMessage)
    && forall i, byMessage :: AlwaysFires(sch.fires(i, byMessage), book.For(byMessage))
  }

  /** Update events settle: together with the rules on messages when they post any, else
      on their own. */
  ghost predicate LoopSettles(env: Env, book: RuleBook, hasContact: bool) {
    if PostsPerEvent(env, book.onUpdate, 0) > 0 then Settles(env, book, hasContact)
    else Calm(AllOps(env, book.onUpdate), hasContact)
  }

  /** The condition on rules, queue and state: no message is pending that sets off an endless
      echo, and update events settle, unless none is pending and none will be published. */
  ghost predicate WillEnd(env: Env, book: RuleBook, c: Config) {
    && (c.queue.messages > 0 ==> PostsPerEvent(env, book.onMessage, 0) == 0)
    && (LoopSettles(env, book, c.state.contact.Some?)
        || (c.queue.updates == 0 && (c.queue.messages > 0 ==> RulesIdle(env, book.onMessage, c.state, 0))))
  }

  lemma BothIdleAreCalm(env: Env, book: RuleBook, s: State)
    requires RulesIdle(env, book.onUpdate, s, 0) && RulesIdle(env, book.onMessage, s, 0)
    ensures Calm(JointOps(env, book), s.contact.Some?)
  {
    forall op | op in JointOps(env, book) ensures !Raises(op) && AgreesWith(s, op) {
      if op in AllOps(env, book.onUpdate) {
        OpsFrom(env, book.onUpdate, |book.onUpdate|, op);
      } else {
        OpsFrom(env, book.onMessage, |book.onMessage|, op);
      }
    }
    IdleIsConflictFree(s, JointOps(env, book));
  }

  /** What one event of rules that always fire and never throw does. */
  lemma FiredEvent(env: Env, book: RuleBook, sch: Schedule, c: Config, step: nat)
    requires Valid(c.state) && Unconditional(env, book, sch)
    ensures var h := RunEvent(env, book, sch, c, step);
            var rules := book.For(TakesMessage(sch, c.queue, step));
            && Valid(h.state) && h.state.contact == c.state.contact
            && (h.published == 0 <==> RulesIdle(env, rules, c.state, 0))
            && (h.published == 0 ==> SameFields(c.state, h.state))
            && h.posted == PostsPerEvent(env, rules, 0)
  {
    var byMessage := TakesMessage(sch, c.queue, step);
    var rules, fires := book.For(byMessage), sch.fires(step, byMessage);
    RunRulesKeeps(env, rules, fires, c.state, 0);
    QuietEventIff(env, rules, fires, c.state, 0);
    PostedAtMost(env, rules, fires, c.state, 0);
  }

  lemma MessageStep(env: Env, book: RuleBook, sch: Schedule, c: Config, step: nat)
    requires Valid(c.state) && Unconditional(env, book, sch) && TakesMessage(sch, c.queue, step)
    ensures WillEnd(env, book, HandleOne(env, book, sch, c, step)) <==> WillEnd(env, book, c)
  {
    var h := RunEvent(env, book, sch, c, step);
    FiredEvent(env, book, sch, c, step);
    if h.published == 0 {
      SameFieldsSameRules(env, book.onMessage, c.state, h.state, 0);
    }
  }

  lemma UpdateStep(env: Env, book: RuleBook, sch: Schedule, c: Config, step: nat)
    requires Valid(c.state) && Unconditional(env, book, sch)
    requires c.queue != EMPTY && !TakesMessage(sch, c.queue, step)
    ensures WillEnd(env, book, HandleOne(env, book, sch, c, step)) <==> WillEnd(env, book, c)
  {
    var h := RunEvent(env, book, sch, c, step);
    FiredEvent(env, book, sch, c, step);
    if h.published == 0 {
      SameFieldsSameRules(env, book.onMessage, c.state, h.state, 0);
      IdleRulesAreCalm(env, book.onUpdate, c.state);
      if RulesIdle(env, book.onMessage, c.state, 0) {
        BothIdleAreCalm(env, book, c.state);
      }
    }
  }

  lemma {:induction false} EndedWillEnd(env: Env, book: RuleBook, sch: Schedule, c: Config, step: nat, n: nat)
    requires Valid(c.state) && Unconditional(env, book, sch) && EndsWithin(env, book, sch, c, step, n)
    ensures WillEnd(env, book, c)
    decreases n
  {
    if c.queue != EMPTY {
      FiredEvent(env, book, sch, c, step);
      EndedWillEnd(env, book, sch, HandleOne(env, book, sch, c, step), step + 1, n - 1);
      if TakesMessage(sch, c.queue, step) {
        MessageStep(env, book, sch, c, step);
      } else {
        UpdateStep(env, book, sch, c, step);
      }
    }
  }

  /** With settling rules every schedule ends. */
  lemma {:induction false} SettlingEnds(env: Env, book: RuleBook, sch: Schedule, c: Config, step: nat) returns (n: nat)
    requires Sound(env, book, c)
    ensures EndsWithin(env, book, sch, c, step, n)
    decreases Distance(env, book, c.state), c.queue.updates, c.queue.messages
  {
    n := 0;
    if c.queue != EMPTY {
      OneStep(env, book, sch, c, step);
      var rest := SettlingEnds(env, book, sch, HandleOne(env, book, sch, c, step), step + 1);
      n := rest + 1;
    }
  }

  /** Without new messages only the rules on updates matter: the queued messages run out. */
  lemma {:induction false} SilentEnds(env: Env, book: RuleBook, sch: Schedule, c: Config, step: nat) returns (n: nat)
    requires Valid(c.state) && Unconditional(env, book, sch)
    requires PostsPerEvent(env, book.onUpdate, 0) == 0 && Calm(AllOps(env, book.onUpdate), c.state.contact.Some?)
    requires c.queue.messages > 0 ==> PostsPerEvent(env, book.onMessage, 0) == 0
    ensures EndsWithin(env, book, sch, c, step, n)
    decreases c.queue.messages, |Off(c.state, AllOps(env, book.onUpdate))|, c.queue.updates
  {
    n := 0;
    if c.queue != EMPTY {
      FiredEvent(env, book, sch, c, step);
      if !TakesMessage(sch, c.queue, step) {
        EventProgress(env, book.onUpdate, AllOps(env, book.onUpdate), sch.fires(step, false), c.state, 0);
      }
      var rest := SilentEnds(env, book, sch, HandleOne(env, book, sch, c, step), step + 1);
      n := rest + 1;
    }
  }

  /** Messages whose rules are idle run out without publishing an update. */
  lemma {:induction false} IdleEnds(env: Env, book: RuleBook, sch: Schedule, c: Config, step: nat) returns (n: nat)
    requires Valid(c.state) && Unconditional(env, book, sch)
    requires c.queue.updates == 0 && PostsPerEvent(env, book.onMessage, 0) == 0
    requires RulesIdle(env, book.onMessage, c.state, 0)
    ensures EndsWithin(env, book, sch, c, step, n)
    decreases c.queue.messages
  {
    n := 0;
    if c.queue != EMPTY {
      FiredEvent(env, book, sch, c, step);
      SameFieldsSameRules(env, book.onMessage, c.state, RunEvent(env, book, sch, c, step).state, 0);
      var rest := IdleEnds(env, book, sch, HandleOne(env, book, sch, c, step), step + 1);
      n := rest + 1;
    }
  }

  /** When every active rule fires and none throws, the cascade ends exactly under this
      condition, whatever the order in which events are taken. */
  lemma CascadeEndsIff(env: Env, book: RuleBook, sch: Schedule, c: Config)
    requires Valid(c.state) && Unconditional(env, book, sch)
    ensures Ends(env, book, sch, c) <==> WillEnd(env, book, c)
  {
    forall n: nat | EndsWithin(env, book, sch, c, 0, n) ensures WillEnd(env, book, c) {
      EndedWillEnd(env, book, sch, c, 0, n);
    }
    if WillEnd(env, book, c) {
      var n := 0;
      if c.queue == EMPTY {
      } else if !LoopSettles(env, book, c.state.contact.Some?) {
        n := IdleEnds(env, book, sch, c, 0);
      } else if PostsPerEvent(env, book.onUpdate, 0) > 0 {
        n := SettlingEnds(env, book, sch, c, 0);
      } else {
        n := SilentEnds(env, book, sch, c, 0);
      }
      assert EndsWithin(env, book, sch, c, 0, n);
    }
  }

  // ---- The engine ----

  /** Facts, guard and order of events of one run; `message` is the message that the event
      handled at a step is about. */
  datatype Surroundings = Surroundings(
    bg: Background, message: nat -> Option<MessageFacts>, skips: nat -> nat -> bool, messageFirst: nat -> bool)

  function MessageAt(sur: Surroundings, step: nat, byMessage: bool): Option<MessageFacts> {
    if byMessage then sur.message(step) else None
  }

  function ScheduleOf(env: Env, book: RuleBook, sur: Surroundings): Schedule {
    Schedule(sur.messageFirst, (step: nat, byMessage: bool) =>
      RuleFires(env, sur.bg, MessageAt(sur, step, byMessage), book.For(byMessage), sur.skips(step)))
  }

  /** The listener of the event that comes next. */
  method HandleNext(env: Env, book: RuleBook, sur: Surroundings, store: ConversationStore, queue: Queue, step: nat)
    returns (next: Queue)
    requires Valid(store.Rows()) && queue != EMPTY
    modifies store
    ensures Valid(store.Rows()) && store.contact == old(store.contact)
    ensures Config(store.Rows(), next)
         == HandleOne(env, book, ScheduleOf(env, book, sur), Config(old(store.Rows()), queue), step)
  {
    var byMessage := TakesMessage(ScheduleOf(env, book, sur), queue, step);
    ghost var fires := ScheduleOf(env, book, sur).fires(step, byMessage);
    assert fires == RuleFires(env, sur.bg, MessageAt(sur, step, byMessage), book.For(byMessage), sur.skips(step));
    var published, posted := HandleEvent(
      env, sur.bg, MessageAt(sur, step, byMessage), book.For(byMessage), sur.skips(step), store);
    if byMessage {
      next := Queue(queue.updates + published, queue.messages - 1 + posted);
    } else {
      next := Queue(queue.updates - 1 + published, queue.messages + posted);
    }
  }

  /** Handles events until the queue is empty; it terminates for settling rules. */
  method Drain(env: Env, book: RuleBook, sur: Surroundings, store: ConversationStore, initial: Queue)
    returns (updates: nat, messages: nat)
    requires Sound(env, book, Config(store.Rows(), initial))
    modifies store
    ensures Queue(updates, messages)
         == EventsHandled(env, book, ScheduleOf(env, book, sur), Config(old(store.Rows()), initial), 0)
    ensures Valid(store.Rows())
  {
    var queue := initial;
    updates, messages := 0, 0;
    ghost var sch := ScheduleOf(env, book, sur);
    ghost var left := EventsHandled(env, book, sch, Config(store.Rows(), initial), 0);
    ghost var total := left;
    while queue != EMPTY
      invariant Sound(env, book, Config(store.Rows(), queue))
      invariant left == EventsHandled(env, book, sch, Config(store.Rows(), queue), updates + messages)
      invariant updates + left.updates == total.updates && messages + left.messages == total.messages
      decreases left.updates + left.messages
    {
      ghost var c := Config(store.Rows(), queue);
      OneStep(env, book, sch, c, updates + messages);
      var byMessage := TakesMessage(ScheduleOf(env, book, sur), queue, updates + messages);
      queue := HandleNext(env, book, sur, store, queue, updates + messages);
      left := EventsHandled(env, book, sch, Config(store.Rows(), queue), updates + messages + 1);
      if byMessage {
        messages := messages + 1;
      } else {
        updates := updates + 1;
      }
    }
  }
}
