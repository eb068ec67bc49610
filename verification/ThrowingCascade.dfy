// When rules may throw: a rule that throws keeps what its earlier actions wrote but
// publishes no update. For rules on updates that always fire and post no message, exactly
// when the cascade ends.

module ThrowingCascade {
  import opened Prelude
  import opened ConversationActions
  import opened ActionLaws
  import opened Cascade
  import opened CascadeRuns

  /** State t is state s after the operations, as far as fields and labels go. */
  ghost predicate AfterOps(s: State, t: State, ops: seq<Op>) {
    && Valid(t) && t.contact == s.contact
    && forall f :: View(t, f) == LastValue(ops, s.contact.Some?, f).GetOr(View(s, f))
  }

  lemma ApplyAfter(env: Env, s: State, t: State, ops: seq<Op>, items: seq<ActionItem>)
    requires AfterOps(s, t, ops)
    ensures AfterOps(s, Final(env, t, items), ops + Performed(env, items))
  {
    var run := Performed(env, items);
    ApplyKeeps(env, t, items);
    ApplyIsExecAll(env, t, items);
    forall f ensures View(Final(env, t, items), f) == LastValue(ops + run, s.contact.Some?, f).GetOr(View(s, f)) {
      ExecAllLast(env, t, run, f);
      LastValueConcat(ops, run, s.contact.Some?, f);
    }
  }

  /** An operation would change nothing in state s after `ops`. */
  ghost predicate IdleAfter(s: State, ops: seq<Op>, op: Op) {
    && !Raises(op)
    && forall f | Write(op, s.contact.Some?, f).Some? ::
         Write(op, s.contact.Some?, f) == Some(LastValue(ops, s.contact.Some?, f).GetOr(View(s, f)))
  }

  ghost predicate RuleIdleAfter(env: Env, s: State, ops: seq<Op>, items: seq<ActionItem>) {
    forall op | op in Performed(env, items) :: IdleAfter(s, ops, op)
  }

  /** No rule that can publish would change anything in an event from state s. */
  ghost predicate EventIdle(env: Env, rules: seq<Rule>, s: State, k: nat) {
    forall j: nat | k <= j < |rules| && rules[j].active && !Throws(env, rules[j].actions) ::
      RuleIdleAfter(env, s, OpsBefore(env, rules, j), rules[j].actions)
  }

  lemma PublishesIff(env: Env, s: State, t: State, ops: seq<Op>, items: seq<ActionItem>)
    requires AfterOps(s, t, ops)
    ensures Publishes(Apply(env, t, items)) <==> !Throws(env, items) && !RuleIdleAfter(env, s, ops, items)
  {
    var run := Performed(env, items);
    ApplyIsExecAll(env, t, items);
    IdleRun(env, t, run);
    forall op | op in run ensures IdleAfter(s, ops, op) <==> !Raises(op) && AgreesWith(t, op) {
    }
  }

  lemma EventIdleFrom(env: Env, rules: seq<Rule>, s: State, k: nat)
    requires k < |rules|
    ensures EventIdle(env, rules, s, k)
       <==> EventIdle(env, rules, s, k + 1)
            && (rules[k].active && !Throws(env, rules[k].actions)
                ==> RuleIdleAfter(env, s, OpsBefore(env, rules, k), rules[k].actions))
  {
  }

  lemma {:induction false} EventAfter(env: Env, rules: seq<Rule>, fires: Fires, s: State, t: State, k: nat)
    requires k <= |rules| && AlwaysFires(fires, rules) && AfterOps(s, t, OpsBefore(env, rules, k))
    ensures AfterOps(s, RunRules(env, rules, fires, t, k).state, AllOps(env, rules))
    decreases |rules| - k
  {
    if k < |rules| {
      if rules[k].active {
        ApplyAfter(env, s, t, OpsBefore(env, rules, k), rules[k].actions);
        EventAfter(env, rules, fires, s, Final(env, t, rules[k].actions), k + 1);
      } else {
        assert OpsBefore(env, rules, k + 1) == OpsBefore(env, rules, k);
        EventAfter(env, rules, fires, s, t, k + 1);
      }
    }
  }

  lemma RuleFirst(env: Env, rules: seq<Rule>, fires: Fires, t: State, k: nat)
    requires k < |rules| && rules[k].active && fires(t, k)
    ensures RunRules(env, rules, fires, t, k).published == 0
       <==> !Publishes(Apply(env, t, rules[k].actions))
            && RunRules(env, rules, fires, Final(env, t, rules[k].actions), k + 1).published == 0
  {
  }

  /** Whether an event of rules that always fire publishes, seen from the state s it started in. */
  lemma {:induction false} EventPublishesIff(env: Env, rules: seq<Rule>, fires: Fires, s: State, t: State, k: nat)
    requires k <= |rules| && AlwaysFires(fires, rules) && AfterOps(s, t, OpsBefore(env, rules, k))
    ensures RunRules(env, rules, fires, t, k).published == 0 <==> EventIdle(env, rules, s, k)
    decreases |rules| - k
  {
    if k < |rules| {
      if rules[k].active {
        var u := Final(env, t, rules[k].actions);
        assert RunRules(env, rules, fires, u, k + 1).published == 0 <==> EventIdle(env, rules, s, k + 1) by {
          ApplyAfter(env, s, t, OpsBefore(env, rules, k), rules[k].actions);
          EventPublishesIff(env, rules, fires, s, u, k + 1);
        }
        PublishesIff(env, s, t, OpsBefore(env, rules, k), rules[k].actions);
        RuleFirst(env, rules, fires, t, k);
      } else {
        assert OpsBefore(env, rules, k + 1) == OpsBefore(env, rules, k);
        EventPublishesIff(env, rules, fires, s, t, k + 1);
      }
      EventIdleFrom(env, rules, s, k);
    }
  }

  // ---- After the first event ----

  ghost predicate RepeatsLast(ops: seq<Op>, hasContact: bool, op: Op) {
    forall f | Write(op, hasContact, f).Some? :: Write(op, hasContact, f) == LastValue(ops, hasContact, f)
  }

  /** Going round the rules, an operation of rule j never always raises the flag and writes
      what the last write to the same field before it wrote. */
  ghost predicate RepeatsRound(env: Env, rules: seq<Rule>, hasContact: bool, j: nat, op: Op)
    requires j < |rules|
  {
    !Raises(op) && RepeatsLast(AllOps(env, rules) + OpsBefore(env, rules, j), hasContact, op)
  }

  /** So does every operation of the rules that do not throw. */
  ghost predicate RoundIdle(env: Env, rules: seq<Rule>, hasContact: bool) {
    forall j: nat | j < |rules| && rules[j].active && !Throws(env, rules[j].actions) ::
      forall op | op in Performed(env, rules[j].actions) :: RepeatsRound(env, rules, hasContact, j, op)
  }

  lemma {:induction false} WrittenHasLast(ops: seq<Op>, hasContact: bool, op: Op, f: Field)
    requires op in ops && Write(op, hasContact, f).Some?
    ensures LastValue(ops, hasContact, f).Some?
  {
    if op != ops[0] {
      WrittenHasLast(ops[1..], hasContact, op, f);
    }
  }

  lemma RoundIdleOp(env: Env, rules: seq<Rule>, s: State, t: State, j: nat, op: Op)
    requires j < |rules| && rules[j].active && op in Performed(env, rules[j].actions)
    requires AfterOps(s, t, AllOps(env, rules))
    ensures IdleAfter(t, OpsBefore(env, rules, j), op) <==> RepeatsRound(env, rules, s.contact.Some?, j, op)
  {
    var all, before, c := AllOps(env, rules), OpsBefore(env, rules, j), s.contact.Some?;
    forall f | Write(op, c, f).Some?
      ensures Some(LastValue(before, c, f).GetOr(View(t, f))) == LastValue(all + before, c, f)
    {
      WrittenHasLast(all, c, op, f);
      LastValueConcat(all, before, c, f);
    }
  }

  /** After a first event every further one publishes nothing, or every further one publishes:
      which of the two depends on the rules alone. */
  lemma LaterEvents(env: Env, rules: seq<Rule>, s: State, t: State)
    requires AfterOps(s, t, AllOps(env, rules))
    ensures EventIdle(env, rules, t, 0) <==> RoundIdle(env, rules, s.contact.Some?)
  {
    forall j: nat | j < |rules| && rules[j].active
      ensures RuleIdleAfter(env, t, OpsBefore(env, rules, j), rules[j].actions)
         <==> forall op | op in Performed(env, rules[j].actions) :: RepeatsRound(env, rules, s.contact.Some?, j, op)
    {
      forall op | op in Performed(env, rules[j].actions)
        ensures IdleAfter(t, OpsBefore(env, rules, j), op) <==> RepeatsRound(env, rules, s.contact.Some?, j, op)
      {
        RoundIdleOp(env, rules, s, t, j, op);
      }
    }
  }

  lemma AfterTwice(s: State, t: State, u: State, ops: seq<Op>)
    requires AfterOps(s, t, ops) && AfterOps(t, u, ops)
    ensures AfterOps(s, u, ops)
  {
  }

  // ---- The loop ----

  /** Rules on updates that always fire and post nothing; no message is pending. */
  ghost predicate UpdatesOnly(env: Env, book: RuleBook, sch: Schedule, c: Config) {
    && Valid(c.state) && c.queue.messages == 0 && PostsPerEvent(env, book.onUpdate, 0) == 0
    && forall i :: AlwaysFires(sch.fires(i, false), book.onUpdate)
  }

  lemma UpdateOnce(env: Env, book: RuleBook, sch: Schedule, c: Config, step: nat)
    requires UpdatesOnly(env, book, sch, c) && c.queue.updates > 0
    ensures var next := HandleOne(env, book, sch, c, step);
            && UpdatesOnly(env, book, sch, next)
            && AfterOps(c.state, next.state, AllOps(env, book.onUpdate))
            && next.queue.updates >= c.queue.updates - 1
            && (next.queue.updates == c.queue.updates - 1 <==> EventIdle(env, book.onUpdate, c.state, 0))
  {
    EventAfter(env, book.onUpdate, sch.fires(step, false), c.state, c.state, 0);
    EventPublishesIff(env, book.onUpdate, sch.fires(step, false), c.state, c.state, 0);
    PostedAtMost(env, book.onUpdate, sch.fires(step, false), c.state, 0);
  }

  lemma {:induction false} LaterEndsIff(
    env: Env, book: RuleBook, sch: Schedule, s: State, c: Config, step: nat, n: nat)
    requires UpdatesOnly(env, book, sch, c)
    requires AfterOps(s, c.state, AllOps(env, book.onUpdate))
    ensures EndsWithin(env, book, sch, c, step, n) ==>
              c.queue.updates == 0 || RoundIdle(env, book.onUpdate, s.contact.Some?)
    ensures RoundIdle(env, book.onUpdate, s.contact.Some?) && c.queue.updates <= n ==>
              EndsWithin(env, book, sch, c, step, n)
    decreases n
  {
    if n > 0 && c.queue.updates > 0 {
      var next := HandleOne(env, book, sch, c, step);
      UpdateOnce(env, book, sch, c, step);
      LaterEvents(env, book.onUpdate, s, c.state);
      AfterTwice(s, c.state, next.state, AllOps(env, book.onUpdate));
      LaterEndsIff(env, book, sch, s, next, step + 1, n - 1);
    }
  }

  /** Rules that may throw, always fire and post no message stop publishing updates exactly when
      going round them writes nothing new, or the only pending event changes nothing at once. */
  lemma ThrowingEndsIff(env: Env, book: RuleBook, sch: Schedule, c: Config)
    requires UpdatesOnly(env, book, sch, c) && c.queue.updates > 0
    ensures Ends(env, book, sch, c)
       <==> RoundIdle(env, book.onUpdate, c.state.contact.Some?)
            || (c.queue.updates == 1 && EventIdle(env, book.onUpdate, c.state, 0))
  {
    var next := HandleOne(env, book, sch, c, 0);
    UpdateOnce(env, book, sch, c, 0);
    forall n: nat | EndsWithin(env, book, sch, c, 0, n)
      ensures next.queue.updates == 0 || RoundIdle(env, book.onUpdate, c.state.contact.Some?)
    {
      LaterEndsIff(env, book, sch, c.state, next, 1, n - 1);
    }
    var n := next.queue.updates;
    LaterEndsIff(env, book, sch, c.state, next, 1, n);
    if RoundIdle(env, book.onUpdate, c.state.contact.Some?) || n == 0 {
      assert EndsWithin(env, book, sch, c, 0, n + 1);
    }
  }
}
