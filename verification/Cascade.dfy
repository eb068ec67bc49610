// One event of the automation engine: the undelayed rules for `conversation_updated` or
// for `message_created` run in order on a conversation. Every rule run that changes
// something publishes `conversation.updated`, and every message a rule posts publishes
// `message.created`.

module Cascade {
  import opened Prelude
  import opened JsValues
  import opened Conditions
  import opened ConversationActions
  import opened ConversationFields
  import opened ActionLaws
  import opened ConversationStores

  datatype Rule = Rule(active: bool, conditions: seq<Condition>, actions: seq<ActionItem>)

  /** Facts that no action of this engine changes. */
  datatype Background = Background(inbox: int, contact: Option<ContactFacts>, pools: seq<map<string, Value>>)

  function IdValue(id: Option<int>): Value {
    if id.Some? then Num(id.value as real) else Null
  }

  function StatusName(s: Status): string {
    match s case Open => "open" case Resolved => "resolved" case Pending => "pending" case Snoozed => "snoozed"
  }

  function PriorityName(p: Option<int>): Value {
    if p.None? then Str("none")
    else if 0 <= p.value < 5 then Str(["none", "low", "medium", "high", "urgent"][p.value])
    else Null
  }

  /** `message` is the message of a `message_created` event. */
  function Facts(bg: Background, message: Option<MessageFacts>, s: State): FactBag {
    FactBag(Str(StatusName(s.status)), PriorityName(s.priority), Num(bg.inbox as real),
            IdValue(s.team), IdValue(s.assignee), Distinct(CurrentLabels(s)), message, bg.contact, bg.pools)
  }

  /** How many updates were published and messages posted. */
  datatype Handled = Handled(state: State, published: nat, posted: nat)

  /** Whether rule k runs on a conversation in state s. */
  type Fires = (State, nat) -> bool

  /** Rule k runs when its conditions hold and the re-entrance guard does not skip it
      as already running. */
  function RuleFires(
    env: Env, bg: Background, message: Option<MessageFacts>, rules: seq<Rule>, skip: nat -> bool): Fires
  {
    (s: State, k: nat) => k < |rules| && Matches(env.host, Facts(bg, message, s), rules[k].conditions) && !skip(k)
  }

  /** One event: the active rules in order, from rule k on. A rule that throws is logged
      and the next one runs. */
  ghost function RunRules(env: Env, rules: seq<Rule>, fires: Fires, s: State, k: nat): Handled
    requires k <= |rules|
    decreases |rules| - k
  {
    if k == |rules| then Handled(s, 0, 0)
    else if rules[k].active && fires(s, k) then
      var o := Apply(env, s, rules[k].actions);
      var rest := RunRules(env, rules, fires, o.state, k + 1);
      Handled(rest.state, rest.published + (if Publishes(o) then 1 else 0),
              rest.posted + Posted(Performed(env, rules[k].actions)))
    else RunRules(env, rules, fires, s, k + 1)
  }

  lemma {:induction false} RunRulesKeeps(env: Env, rules: seq<Rule>, fires: Fires, s: State, k: nat)
    requires k <= |rules| && Valid(s)
    ensures Valid(RunRules(env, rules, fires, s, k).state)
    ensures RunRules(env, rules, fires, s, k).state.contact == s.contact
    decreases |rules| - k
  {
    if k < |rules| {
      if rules[k].active && fires(s, k) {
        ApplyKeeps(env, s, rules[k].actions);
        RunRulesKeeps(env, rules, fires, Apply(env, s, rules[k].actions).state, k + 1);
      } else {
        RunRulesKeeps(env, rules, fires, s, k + 1);
      }
    }
  }

  /** The messages an event posts are the `message.created` entries it adds to the bus. */
  lemma {:induction false} PostedIsPublished(env: Env, rules: seq<Rule>, fires: Fires, s: State, k: nat)
    requires k <= |rules| && Valid(s)
    ensures var h := RunRules(env, rules, fires, s, k);
            MessageEvents(h.state.events) == MessageEvents(s.events) + h.posted
    decreases |rules| - k
  {
    if k < |rules| {
      if rules[k].active && fires(s, k) {
        ApplyKeeps(env, s, rules[k].actions);
        ApplyPosts(env, s, rules[k].actions);
        PostedIsPublished(env, rules, fires, Apply(env, s, rules[k].actions).state, k + 1);
      } else {
        PostedIsPublished(env, rules, fires, s, k + 1);
      }
    }
  }

  /** The messages that the active rules from k on post when all of them fire. */
  function PostsPerEvent(env: Env, rules: seq<Rule>, k: nat): nat
    requires k <= |rules|
    decreases |rules| - k
  {
    if k == |rules| then 0
    else (if rules[k].active then Posted(Performed(env, rules[k].actions)) else 0) + PostsPerEvent(env, rules, k + 1)
  }

  /** The conditions of every active rule hold in every state and the guard skips none. */
  ghost predicate AlwaysFires(fires: Fires, rules: seq<Rule>) {
    forall s, k | 0 <= k < |rules| && rules[k].active :: fires(s, k)
  }

  lemma {:induction false} PostedAtMost(env: Env, rules: seq<Rule>, fires: Fires, s: State, k: nat)
    requires k <= |rules|
    ensures RunRules(env, rules, fires, s, k).posted <= PostsPerEvent(env, rules, k)
    ensures AlwaysFires(fires, rules) ==> RunRules(env, rules, fires, s, k).posted == PostsPerEvent(env, rules, k)
    decreases |rules| - k
  {
    if k < |rules| {
      if rules[k].active && fires(s, k) {
        PostedAtMost(env, rules, fires, Apply(env, s, rules[k].actions).state, k + 1);
      } else {
        PostedAtMost(env, rules, fires, s, k + 1);
      }
    }
  }

  // ---- The measure ----

  function FieldsOf(op: Op): set<Field> {
    match op
    case SetAssignee(_) => {Assignee}
    case SetTeam(_) => {Team}
    case SetStatus(_) => {StatusField}
    case SetPriority(_) => {Priority}
    case Snooze(_) => {StatusField, SnoozeTime}
    case Mute(_) => {Blocked}
    case AddLabels(ts) => set t | t in ts :: Tagged(t)
    case RemoveLabels(ts) => set t | t in ts :: Tagged(t)
    case _ => {}
  }

  function Fields(ops: seq<Op>): set<Field> {
    set op, f | op in ops && f in FieldsOf(op) :: f
  }

  /** The operations that the active rules before rule k can perform. */
  function OpsBefore(env: Env, rules: seq<Rule>, k: nat): (ops: seq<Op>)
    requires k <= |rules|
    ensures AllWellFormed(env, ops)
    ensures forall j, op | 0 <= j < k && rules[j].active && op in Performed(env, rules[j].actions) :: op in ops
  {
    if k == 0 then []
    else
      OpsBefore(env, rules, k - 1) + if rules[k - 1].active then Performed(env, rules[k - 1].actions) else []
  }

  /** All operations the active rules can perform. */
  function AllOps(env: Env, rules: seq<Rule>): (ops: seq<Op>)
    ensures AllWellFormed(env, ops)
    ensures forall r, op | r in rules && r.active && op in Performed(env, r.actions) :: op in ops
  {
    OpsBefore(env, rules, |rules|)
  }

  /** No operation raises the `changed` flag every time it runs, and no two write different
      values to one field or label. */
  ghost predicate Calm(ops: seq<Op>, hasContact: bool) {
    && (forall op | op in ops :: !Raises(op))
    && NonConflicting(ops, hasContact)
  }

  ghost predicate AtGoal(s: State, ops: seq<Op>, f: Field) {
    forall op | op in ops && Write(op, s.contact.Some?, f).Some? ::
      Write(op, s.contact.Some?, f) == Some(View(s, f))
  }

  /** The writable fields that some rule still wants to move. */
  ghost function Off(s: State, ops: seq<Op>): set<Field> {
    set f | f in Fields(ops) && !AtGoal(s, ops, f)
  }

  lemma {:induction false} SubsetSize<T>(a: set<T>, b: set<T>)
    requires a <= b
    ensures |a| <= |b|
    ensures a != b ==> |a| < |b|
  {
    if a != {} {
      var x :| x in a;
      SubsetSize(a - {x}, b - {x});
      assert a - {x} == b - {x} ==> a == (a - {x}) + {x} == (b - {x}) + {x} == b;
    } else if b != {} {
      var y :| y in b;
      assert |b| == |b - {y}| + 1;
    }
  }

  lemma WritesAreFields(op: Op, hasContact: bool, f: Field)
    requires Write(op, hasContact, f).Some?
    ensures f in FieldsOf(op)
  {
  }

  lemma WritesReachGoal(s: State, s': State, ops: seq<Op>, op: Op, f: Field)
    requires op in ops && NonConflicting(ops, s.contact.Some?) && s'.contact == s.contact
    requires Write(op, s.contact.Some?, f) == Some(View(s', f))
    ensures AtGoal(s', ops, f)
  {
  }

  lemma GoalsKept(env: Env, s: State, ops: seq<Op>, op: Op, f: Field)
    requires Valid(s) && AllWellFormed(env, ops) && op in ops
    requires NonConflicting(ops, s.contact.Some?)
    ensures var s' := Exec(env, s, op).state;
            AtGoal(s, ops, f) || Write(op, s.contact.Some?, f).Some? ==> AtGoal(s', ops, f)
  {
    ExecWrites(env, s, op, f);
    if Write(op, s.contact.Some?, f).Some? {
      WritesReachGoal(s, Exec(env, s, op).state, ops, op, f);
    }
  }

  lemma MovedField(env: Env, s: State, op: Op) returns (f: Field)
    requires Valid(s) && WellFormed(env, op) && !Raises(op) && Exec(env, s, op).changed
    ensures f in FieldsOf(op)
    ensures Write(op, s.contact.Some?, f).Some? && Write(op, s.contact.Some?, f) != Some(View(s, f))
  {
    IdleExec(env, s, op);
    f :| Write(op, s.contact.Some?, f).Some? && Write(op, s.contact.Some?, f) != Some(View(s, f));
    WritesAreFields(op, s.contact.Some?, f);
  }

  /** A calm operation never takes a field away from its goal, and when it raises the
      `changed` flag it brings at least one there. */
  lemma ExecProgress(env: Env, s: State, ops: seq<Op>, op: Op)
    requires Valid(s) && AllWellFormed(env, ops) && op in ops
    requires Calm(ops, s.contact.Some?)
    ensures var e := Exec(env, s, op);
            && Off(e.state, ops) <= Off(s, ops)
            && (e.changed ==> Off(e.state, ops) != Off(s, ops))
  {
    var s' := Exec(env, s, op).state;
    forall f ensures AtGoal(s, ops, f) ==> AtGoal(s', ops, f) {
      GoalsKept(env, s, ops, op, f);
    }
    if Exec(env, s, op).changed {
      var f := MovedField(env, s, op);
      GoalsKept(env, s, ops, op, f);
      assert f in Fields(ops) && f in Off(s, ops) && f !in Off(s', ops);
    }
  }

  lemma {:induction false} ExecAllProgress(env: Env, s: State, ops: seq<Op>, run: seq<Op>)
    requires Valid(s) && AllWellFormed(env, ops) && Calm(ops, s.contact.Some?)
    requires forall op | op in run :: op in ops
    ensures var e := ExecAll(env, s, run);
            && Valid(e.state) && e.state.contact == s.contact
            && Off(e.state, ops) <= Off(s, ops)
            && (e.changed ==> Off(e.state, ops) != Off(s, ops))
    decreases |run|
  {
    if run != [] {
      assert run[0] in run;
      ExecProgress(env, s, ops, run[0]);
      ExecWrites(env, s, run[0], Assignee);
      ExecAllProgress(env, Exec(env, s, run[0]).state, ops, run[1..]);
    }
  }

  lemma SameViewSameOff(s: State, s': State, ops: seq<Op>)
    requires s'.contact == s.contact && forall f :: View(s', f) == View(s, f)
    ensures Off(s', ops) == Off(s, ops)
  {
  }

  lemma ApplyProgress(env: Env, s: State, ops: seq<Op>, items: seq<ActionItem>)
    requires Valid(s) && AllWellFormed(env, ops) && Calm(ops, s.contact.Some?)
    requires forall op | op in Performed(env, items) :: op in ops
    ensures var o := Apply(env, s, items);
            && Valid(o.state) && o.state.contact == s.contact
            && |Off(o.state, ops)| + (if Publishes(o) then 1 else 0) <= |Off(s, ops)|
  {
    var e := ExecAll(env, s, Performed(env, items));
    ExecAllProgress(env, s, ops, Performed(env, items));
    ApplyKeeps(env, s, items);
    ApplyIsExecAll(env, s, items);
    SameViewSameOff(e.state, Final(env, s, items), ops);
    SubsetSize(Off(e.state, ops), Off(s, ops));
  }

  /** Every update that an event publishes is paid for by a field that reached its goal, for
      rules that are calm among the operations `ops`. */
  lemma {:induction false} EventProgress(
    env: Env, rules: seq<Rule>, ops: seq<Op>, fires: Fires, s: State, k: nat)
    requires k <= |rules| && Valid(s) && AllWellFormed(env, ops) && Calm(ops, s.contact.Some?)
    requires forall op | op in AllOps(env, rules) :: op in ops
    ensures var h := RunRules(env, rules, fires, s, k);
            && Valid(h.state) && h.state.contact == s.contact
            && |Off(h.state, ops)| + h.published <= |Off(s, ops)|
    decreases |rules| - k
  {
    if k < |rules| {
      if rules[k].active && fires(s, k) {
        ApplyProgress(env, s, ops, rules[k].actions);
        EventProgress(env, rules, ops, fires, Apply(env, s, rules[k].actions).state, k + 1);
      } else {
        EventProgress(env, rules, ops, fires, s, k + 1);
      }
    }
  }

  // ---- Quiescence is a fixed point ----

  ghost predicate NoneThrows(env: Env, rules: seq<Rule>) {
    forall r | r in rules && r.active :: !Throws(env, r.actions)
  }

  lemma {:induction false} UnchangedRun(env: Env, s: State, ops: seq<Op>)
    requires Valid(s) && AllWellFormed(env, ops) && forall op | op in ops :: !Noisy(op)
    requires !ExecAll(env, s, ops).changed
    ensures ExecAll(env, s, ops).state == s
    decreases |ops|
  {
    if ops != [] {
      assert ops[0] in ops;
      ExecSilent(env, s, ops[0]);
      UnchangedRun(env, s, ops[1..]);
    }
  }

  /** When no rule throws, an event that publishes nothing changed nothing: the cascade
      ends in a state that a further event leaves alone. */
  lemma {:induction false} QuietEventChangesNothing(env: Env, rules: seq<Rule>, fires: Fires, s: State, k: nat)
    requires k <= |rules| && Valid(s)
    requires NoneThrows(env, rules) && forall op | op in AllOps(env, rules) :: !Noisy(op)
    requires RunRules(env, rules, fires, s, k).published == 0
    ensures RunRules(env, rules, fires, s, k).state == s
    decreases |rules| - k
  {
    if k < |rules| {
      if rules[k].active && fires(s, k) {
        var ops := Performed(env, rules[k].actions);
        ApplyIsExecAll(env, s, rules[k].actions);
        RunIsExecAll(env, s, false, [], rules[k].actions);
        assert forall op | op in ops :: op in AllOps(env, rules);
        UnchangedRun(env, s, ops);
      }
      QuietEventChangesNothing(env, rules, fires, s, k + 1);
    }
  }

  // ---- Rules that always fire ----

  /** Rules without conditions always fire. */
  lemma UnconditionalFires(
    env: Env, bg: Background, message: Option<MessageFacts>, rules: seq<Rule>, skip: nat -> bool)
    requires forall k: nat | k < |rules| && rules[k].active :: rules[k].conditions == [] && !skip(k)
    ensures AlwaysFires(RuleFires(env, bg, message, rules, skip), rules)
  {
  }

  lemma {:induction false} OpsFrom(env: Env, rules: seq<Rule>, k: nat, op: Op)
    requires k <= |rules| && op in OpsBefore(env, rules, k)
    ensures exists j :: 0 <= j < k && rules[j].active && op in Performed(env, rules[j].actions)
  {
    if rules[k - 1].active && op in Performed(env, rules[k - 1].actions) {
    } else {
      OpsFrom(env, rules, k - 1, op);
    }
  }

  ghost predicate RulesIdle(env: Env, rules: seq<Rule>, s: State, k: nat) {
    forall j | k <= j < |rules| && rules[j].active :: AllIdle(s, Performed(env, rules[j].actions))
  }

  lemma QuietApply(env: Env, s: State, items: seq<ActionItem>)
    requires Valid(s) && !Throws(env, items)
    ensures var o := Apply(env, s, items);
            && (!Publishes(o) <==> AllIdle(s, Performed(env, items)))
            && (!Publishes(o) ==> SameFields(s, o.state))
  {
    ApplyIsExecAll(env, s, items);
    ApplyKeeps(env, s, items);
    IdleRun(env, s, Performed(env, items));
  }

  lemma SameFieldsSameRules(env: Env, rules: seq<Rule>, s: State, s': State, k: nat)
    requires SameFields(s, s')
    ensures RulesIdle(env, rules, s', k) <==> RulesIdle(env, rules, s, k)
  {
    forall j | k <= j < |rules| && rules[j].active
      ensures AllIdle(s', Performed(env, rules[j].actions)) <==> AllIdle(s, Performed(env, rules[j].actions))
    {
      SameFieldsSameIdle(s, s', Performed(env, rules[j].actions));
    }
  }

  /** When every active rule fires and none throws, an event publishes nothing exactly when
      all their operations are idle. */
  lemma {:induction false} QuietEventIff(env: Env, rules: seq<Rule>, fires: Fires, s: State, k: nat)
    requires k <= |rules| && Valid(s) && NoneThrows(env, rules) && AlwaysFires(fires, rules)
    ensures RunRules(env, rules, fires, s, k).published == 0 <==> RulesIdle(env, rules, s, k)
    ensures RulesIdle(env, rules, s, k) ==> SameFields(s, RunRules(env, rules, fires, s, k).state)
    decreases |rules| - k
  {
    if k < |rules| {
      if rules[k].active {
        var o := Apply(env, s, rules[k].actions);
        QuietApply(env, s, rules[k].actions);
        ApplyKeeps(env, s, rules[k].actions);
        if !Publishes(o) {
          SameFieldsSameRules(env, rules, s, o.state, k + 1);
        }
        QuietEventIff(env, rules, fires, o.state, k + 1);
      } else {
        QuietEventIff(env, rules, fires, s, k + 1);
      }
    }
  }

  lemma IdleRulesAreCalm(env: Env, rules: seq<Rule>, s: State)
    requires RulesIdle(env, rules, s, 0)
    ensures Calm(AllOps(env, rules), s.contact.Some?)
  {
    forall op | op in AllOps(env, rules) ensures !Raises(op) && AgreesWith(s, op) {
      OpsFrom(env, rules, |rules|, op);
    }
    IdleIsConflictFree(s, AllOps(env, rules));
  }

  /** Rules that are not calm republish every event, from every state. */
  lemma RestlessRepublishes(env: Env, rules: seq<Rule>, fires: Fires, s: State)
    requires Valid(s) && NoneThrows(env, rules) && AlwaysFires(fires, rules)
    requires !Calm(AllOps(env, rules), s.contact.Some?)
    ensures RunRules(env, rules, fires, s, 0).published >= 1
  {
    QuietEventIff(env, rules, fires, s, 0);
    if RulesIdle(env, rules, s, 0) {
      IdleRulesAreCalm(env, rules, s);
    }
  }

  // ---- When a rule acts ----

  /** What the conditions see of a conversation. */
  lemma FactsMeaning(bg: Background, message: Option<MessageFacts>, s: State)
    ensures var bag := Facts(bg, message, s);
            && bag.status == Str(match s.status case Open => "open" case Resolved => "resolved"
                                                case Pending => "pending" case Snoozed => "snoozed")
            && (s.priority == None ==> bag.priority == Str("none"))
            && (s.priority == Some(1) ==> bag.priority == Str("low"))
            && (s.priority == Some(2) ==> bag.priority == Str("medium"))
            && (s.priority == Some(3) ==> bag.priority == Str("high"))
            && (s.priority == Some(4) ==> bag.priority == Str("urgent"))
            && (s.priority == Some(0) ==> bag.priority == Str("none"))
            && (s.priority.Some? && !(0 <= s.priority.value <= 4) ==> bag.priority == Null)
            && bag.inbox == Num(bg.inbox as real)
            && bag.team == (match s.team case None => Null case Some(id) => Num(id as real))
            && bag.assignee == (match s.assignee case None => Null case Some(id) => Num(id as real))
            && (forall t :: t in bag.labels <==> t in CurrentLabels(s))
            && bag.message == message && bag.contact == bg.contact && bag.pools == bg.pools
  {
  }

  /** The list is empty, or some condition carries it on the columns of s. */
  ghost predicate RuleHolds(env: Env, bg: Background, message: Option<MessageFacts>, s: State, cs: seq<Condition>) {
    cs == [] || exists j: nat | j < |cs| :: Carries(env.host, Facts(bg, message, s), cs, j, |cs|)
  }

  /** The turn of one rule: an active rule that is not skipped acts iff its conditions hold in
      the state before; otherwise nothing happens. */
  ghost predicate RuleTurn(env: Env, bg: Background, message: Option<MessageFacts>, rule: Rule, skipped: bool,
                           before: Handled, after: Handled)
  {
    if rule.active && !skipped && RuleHolds(env, bg, message, before.state, rule.conditions) then
      var o := Apply(env, before.state, rule.actions);
      && after.state == o.state
      && after.published == before.published + (if o.error == None && o.changed then 1 else 0)
      && after.posted + MessageEvents(before.state.events)
         == before.posted + MessageEvents(after.state.events)
    else after == before
  }

  /** The states that the rules from k on leave, one after the other. */
  ghost predicate EventTrace(env: Env, bg: Background, message: Option<MessageFacts>, rules: seq<Rule>,
                             skip: nat -> bool, k: nat, start: Handled, trace: seq<Handled>)
    requires k <= |rules|
  {
    && |trace| == |rules| - k + 1 && trace[0] == start
    && forall i: nat | i < |rules| - k ::
         RuleTurn(env, bg, message, rules[k + i], skip(k + i), trace[i], trace[i + 1])
  }

  lemma HoldsIffMatches(env: Env, bg: Background, message: Option<MessageFacts>, s: State, cs: seq<Condition>)
    ensures RuleHolds(env, bg, message, s, cs) <==> Matches(env.host, Facts(bg, message, s), cs)
  {
    if cs != [] {
      MatchesMeaning(env.host, Facts(bg, message, s), cs);
    }
  }

  /** What rule k does when its turn comes. */
  ghost function Turned(env: Env, fires: Fires, rules: seq<Rule>, k: nat, before: Handled): Handled
    requires k < |rules|
  {
    if rules[k].active && fires(before.state, k) then
      var o := Apply(env, before.state, rules[k].actions);
      Handled(o.state, before.published + (if Publishes(o) then 1 else 0),
              before.posted + Posted(Performed(env, rules[k].actions)))
    else before
  }

  lemma TurnedIsTurn(env: Env, bg: Background, message: Option<MessageFacts>, rules: seq<Rule>, skip: nat -> bool,
                     k: nat, before: Handled)
    requires k < |rules| && Valid(before.state)
    ensures var after := Turned(env, RuleFires(env, bg, message, rules, skip), rules, k, before);
            Valid(after.state) && RuleTurn(env, bg, message, rules[k], skip(k), before, after)
  {
    HoldsIffMatches(env, bg, message, before.state, rules[k].conditions);
    ApplyKeeps(env, before.state, rules[k].actions);
    ApplyPosts(env, before.state, rules[k].actions);
  }

  lemma TracePrepend(env: Env, bg: Background, message: Option<MessageFacts>, rules: seq<Rule>, skip: nat -> bool,
                     k: nat, start: Handled, next: Handled, rest: seq<Handled>)
    requires k < |rules| && RuleTurn(env, bg, message, rules[k], skip(k), start, next)
    requires EventTrace(env, bg, message, rules, skip, k + 1, next, rest)
    ensures EventTrace(env, bg, message, rules, skip, k, start, [start] + rest)
    ensures ([start] + rest)[|rules| - k] == rest[|rules| - k - 1]
  {
    var trace := [start] + rest;
    forall i: nat | i < |rules| - k
      ensures RuleTurn(env, bg, message, rules[k + i], skip(k + i), trace[i], trace[i + 1])
    {
      if i > 0 {
        assert RuleTurn(env, bg, message, rules[k + 1 + (i - 1)], skip(k + 1 + (i - 1)), rest[i - 1], rest[i]);
      }
    }
  }

  ghost function Plus(h: Handled, rest: Handled): Handled {
    Handled(rest.state, h.published + rest.published, h.posted + rest.posted)
  }

  lemma RunIsTurns(env: Env, rules: seq<Rule>, fires: Fires, k: nat, h: Handled)
    requires k < |rules|
    ensures var next := Turned(env, fires, rules, k, h);
            Plus(h, RunRules(env, rules, fires, h.state, k))
            == Plus(next, RunRules(env, rules, fires, next.state, k + 1))
  {
  }

  lemma TraceOfNone(env: Env, bg: Background, message: Option<MessageFacts>, rules: seq<Rule>, skip: nat -> bool,
                    fires: Fires, start: Handled)
    ensures EventTrace(env, bg, message, rules, skip, |rules|, start, [start])
    ensures Plus(start, RunRules(env, rules, fires, start.state, |rules|)) == start
  {
  }

  lemma {:induction false} TraceTo(
    env: Env, bg: Background, message: Option<MessageFacts>, rules: seq<Rule>, skip: nat -> bool, fires: Fires,
    k: nat, start: Handled, end: Handled) returns (trace: seq<Handled>)
    requires k <= |rules| && Valid(start.state) && fires == RuleFires(env, bg, message, rules, skip)
    requires end == Plus(start, RunRules(env, rules, fires, start.state, k))
    ensures EventTrace(env, bg, message, rules, skip, k, start, trace)
    ensures trace[|rules| - k] == end
    decreases |rules| - k
  {
    if k == |rules| {
      TraceOfNone(env, bg, message, rules, skip, fires, start);
      trace := [start];
    } else {
      var next := Turned(env, fires, rules, k, start);
      TurnedIsTurn(env, bg, message, rules, skip, k, start);
      RunIsTurns(env, rules, fires, k, start);
      var rest := TraceTo(env, bg, message, rules, skip, fires, k + 1, next, end);
      TracePrepend(env, bg, message, rules, skip, k, start, next, rest);
      trace := [start] + rest;
    }
  }

  /** An event is the turns of its rules, in order. */
  lemma TraceOfEvent(env: Env, bg: Background, message: Option<MessageFacts>, rules: seq<Rule>, skip: nat -> bool,
                     s: State) returns (trace: seq<Handled>)
    requires Valid(s)
    ensures EventTrace(env, bg, message, rules, skip, 0, Handled(s, 0, 0), trace)
    ensures trace[|rules|] == RunRules(env, rules, RuleFires(env, bg, message, rules, skip), s, 0)
  {
    var fires := RuleFires(env, bg, message, rules, skip);
    trace := TraceTo(env, bg, message, rules, skip, fires, 0, Handled(s, 0, 0), RunRules(env, rules, fires, s, 0));
  }

  lemma {:induction false} NothingHolds(env: Env, bg: Background, message: Option<MessageFacts>, rules: seq<Rule>,
                                        skip: nat -> bool, start: Handled, trace: seq<Handled>, n: nat)
    requires EventTrace(env, bg, message, rules, skip, 0, start, trace) && n <= |rules|
    requires forall k: nat | k < |rules| && rules[k].active && !skip(k) ::
               !RuleHolds(env, bg, message, start.state, rules[k].conditions)
    ensures trace[n] == start
  {
    if n > 0 {
      NothingHolds(env, bg, message, rules, skip, start, trace, n - 1);
      assert RuleTurn(env, bg, message, rules[0 + (n - 1)], skip(0 + (n - 1)), trace[n - 1], trace[n]);
    }
  }

  // ---- The listener ----

  /** The loop over the rules. */
  method RunAll(env: Env, bg: Background, message: Option<MessageFacts>, rules: seq<Rule>, skip: nat -> bool,
                store: ConversationStore) returns (published: nat, posted: nat)
    requires Valid(store.Rows())
    modifies store
    ensures Handled(store.Rows(), published, posted)
         == RunRules(env, rules, RuleFires(env, bg, message, rules, skip), old(store.Rows()), 0)
    ensures Valid(store.Rows()) && store.contact == old(store.contact)
  {
    published, posted := 0, 0;
    ghost var fires := RuleFires(env, bg, message, rules, skip);
    ghost var all := RunRules(env, rules, fires, store.Rows(), 0);
    RunRulesKeeps(env, rules, fires, store.Rows(), 0);
    for k := 0 to |rules|
      invariant Valid(store.Rows())
      invariant var rest := RunRules(env, rules, fires, store.Rows(), k);
                Handled(rest.state, published + rest.published, posted + rest.posted) == all
    {
      var holds := MatchesConditions(env.host, Facts(bg, message, store.Rows()), rules[k].conditions);
      assert fires(store.Rows(), k) == (holds && !skip(k));
      if rules[k].active && holds && !skip(k) {
        ApplyPosts(env, store.Rows(), rules[k].actions);
        var before := MessageEvents(store.events);
        var applied, error, again := store.ApplyActionItems(env, rules[k].actions);
        published := published + if again then 1 else 0;
        posted := posted + MessageEvents(store.events) - before;
      }
    }
  }

  /** runRulesFor on the tables of the store; `message` is the message of a
      `message_created` event. */
  method HandleEvent(env: Env, bg: Background, message: Option<MessageFacts>, rules: seq<Rule>, skip: nat -> bool,
                     store: ConversationStore) returns (published: nat, posted: nat)
    requires Valid(store.Rows())
    modifies store
    ensures Handled(store.Rows(), published, posted)
         == RunRules(env, rules, RuleFires(env, bg, message, rules, skip), old(store.Rows()), 0)
    ensures exists trace :: EventTrace(env, bg, message, rules, skip, 0, Handled(old(store.Rows()), 0, 0), trace)
                            && trace[|rules|] == Handled(store.Rows(), published, posted)
    ensures (forall k: nat | k < |rules| && rules[k].active && !skip(k) ::
               !RuleHolds(env, bg, message, old(store.Rows()), rules[k].conditions))
            ==> store.Rows() == old(store.Rows()) && published == 0 && posted == 0
    ensures Valid(store.Rows()) && store.contact == old(store.contact)
  {
    ghost var start := Handled(store.Rows(), 0, 0);
    ghost var trace := TraceOfEvent(env, bg, message, rules, skip, start.state);
    published, posted := RunAll(env, bg, message, rules, skip, store);
    assert trace[|rules|] == Handled(store.Rows(), published, posted);
    if forall k: nat | k < |rules| && rules[k].active && !skip(k) ::
         !RuleHolds(env, bg, message, start.state, rules[k].conditions) {
      NothingHolds(env, bg, message, rules, skip, start, trace, |rules|);
    }
  }

  // ---- Two instances ----

  const ALWAYS: Fires := (s, k) => true

  /** A single unconditional snooze rule republishes every event, from every state. */
  lemma SnoozeNeverQuiesces(env: Env, until: real, s: State)
    ensures var rules := [Rule(true, [], [ActionItem(SnoozeConversation, [Num(until)])])];
            RunRules(env, rules, ALWAYS, s, 0).published == 1
  {
    var items := [ActionItem(SnoozeConversation, [Num(until)])];
    var rules := [Rule(true, [], items)];
    assert SnoozeEpoch(env.host, items[0].params) == Some(until);
    SingleAction(env, s, items[0], Snooze(until));
    assert RunRules(env, rules, ALWAYS, Apply(env, s, items).state, 1).published == 0;
  }

  lemma PriorityRun(env: Env, s: State, name: string, p: Option<int>)
    requires env.host.trim(env.host.text(Str(name))) == name && PriorityNamed(name) == Some(p)
    requires name != ""
    ensures var o := Apply(env, s, [ActionItem(ChangePriority, [Str(name)])]);
            o.state.priority == p && Publishes(o) == (s.priority != p)
  {
    var item := ActionItem(ChangePriority, [Str(name)]);
    assert StrParam(env.host, item.params) == Some(name);
    assert Decode(env, item) == Do(SetPriority(p));
    SingleAction(env, s, item, SetPriority(p));
  }

  /** Two unconditional rules that write different priorities republish every event. */
  lemma ConflictNeverQuiesces(env: Env, s: State)
    requires env.host.trim(env.host.text(Str("low"))) == "low"
    requires env.host.trim(env.host.text(Str("high"))) == "high"
    ensures var rules := [Rule(true, [], [ActionItem(ChangePriority, [Str("low")])]),
                          Rule(true, [], [ActionItem(ChangePriority, [Str("high")])])];
            RunRules(env, rules, ALWAYS, s, 0).published >= 1
  {
    var low := [ActionItem(ChangePriority, [Str("low")])];
    var high := [ActionItem(ChangePriority, [Str("high")])];
    var rules := [Rule(true, [], low), Rule(true, [], high)];
    PriorityRun(env, s, "low", Some(1));
    var s1 := Apply(env, s, low).state;
    PriorityRun(env, s1, "high", Some(3));
    assert RunRules(env, rules, ALWAYS, s1, 1).published == 1;
  }
}
