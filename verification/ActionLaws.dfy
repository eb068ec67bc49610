// What a list of actions means: for every field and label the last write wins,
// running a list twice is running it once, and exactly the lists without
// conflicting writes fall silent the second time.

module ActionLaws {
  import opened Prelude
  import opened JsValues
  import opened ConversationActions
  import opened ConversationFields

  // ---- Fields and the writes an operation makes ----

  datatype Field = Assignee | Team | StatusField | Priority | SnoozeTime | Blocked | Tagged(title: string)

  datatype Val = Ref(id: Option<int>) | Stat(status: Status) | Time(at: Option<real>) | Flag(on: bool)

  function View(s: State, f: Field): Val {
    match f
    case Assignee => Ref(s.assignee)
    case Team => Ref(s.team)
    case StatusField => Stat(s.status)
    case Priority => Ref(s.priority)
    case SnoozeTime => Time(s.snoozedUntil)
    case Blocked => Flag(s.blocked)
    case Tagged(t) => Flag(t in CurrentLabels(s))
  }

  function Write(op: Op, hasContact: bool, f: Field): Option<Val> {
    match op
    case SetAssignee(a) => if f == Assignee then Some(Ref(a)) else None
    case SetTeam(t) => if f == Team then Some(Ref(t)) else None
    case SetStatus(v) => if f == StatusField then Some(Stat(v)) else None
    case SetPriority(p) => if f == Priority then Some(Ref(p)) else None
    case Snooze(u) =>
      if f == StatusField then Some(Stat(Snoozed)) else if f == SnoozeTime then Some(Time(Some(u))) else None
    case Mute(m) => if f == Blocked && hasContact then Some(Flag(m)) else None
    case AddLabels(ts) => if f.Tagged? && f.title in ts then Some(Flag(true)) else None
    case RemoveLabels(ts) => if f.Tagged? && f.title in ts then Some(Flag(false)) else None
    case _ => None
  }

  /** Operations that act again every time they run. */
  predicate Noisy(op: Op) {
    op.Snooze? || op.Mute? || op.PostMessage? || op.PostNote?
  }

  /** Operations that raise the `changed` flag every time they run. */
  predicate Raises(op: Op) {
    op.Snooze? || op.Mute? || op.PostMessage?
  }

  ghost predicate AllWellFormed(env: Env, ops: seq<Op>) {
    forall op | op in ops :: WellFormed(env, op)
  }

  /** The operations a list performs before the first action that throws. */
  function Performed(env: Env, items: seq<ActionItem>): (ops: seq<Op>)
    ensures AllWellFormed(env, ops)
    ensures |ops| <= |items|
  {
    if items == [] then []
    else
      match Decode(env, items[0])
      case Fail(_) => []
      case Do(op) => [op] + Performed(env, items[1..])
  }

  predicate Throws(env: Env, items: seq<ActionItem>) {
    items != [] && (Decode(env, items[0]).Fail? || Throws(env, items[1..]))
  }

  ghost function ExecAll(env: Env, s: State, ops: seq<Op>): Effect
    decreases |ops|
  {
    if ops == [] then Effect(s, false)
    else
      var first := Exec(env, s, ops[0]);
      var rest := ExecAll(env, first.state, ops[1..]);
      Effect(rest.state, first.changed || rest.changed)
  }

  lemma {:induction false} RunIsExecAll(
    env: Env, s: State, changed: bool, applied: seq<ActionName>, items: seq<ActionItem>)
    ensures var o := RunFrom(env, s, changed, applied, items);
            var e := ExecAll(env, s, Performed(env, items));
            && o.state == e.state
            && o.changed == (changed || e.changed)
            && o.error.Some? == Throws(env, items)
    decreases |items|
  {
    if items != [] && Decode(env, items[0]).Do? {
      var op := Decode(env, items[0]).op;
      var eff := Exec(env, s, op);
      RunIsExecAll(env, eff.state, changed || eff.changed, applied + [items[0].name], items[1..]);
      assert Performed(env, items)[1..] == Performed(env, items[1..]);
    }
  }

  lemma SingleAction(env: Env, s: State, item: ActionItem, op: Op)
    requires Decode(env, item) == Do(op)
    ensures RunFrom(env, s, false, [], [item])
         == Outcome(Exec(env, s, op).state, Exec(env, s, op).changed, [item.name], None)
  {
    var e := Exec(env, s, op);
    assert [item][1..] == [];
    assert RunFrom(env, e.state, e.changed, [item.name], []) == Outcome(e.state, e.changed, [item.name], None);
    assert [] + [item.name] == [item.name];
  }

  // ---- Labels ----

  lemma {:induction false} TitlesAppend(labels: map<int, string>, taggings: seq<int>, id: int)
    ensures Titles(labels, taggings + [id])
         == Titles(labels, taggings) + (if id in labels && labels[id] != "" then [labels[id]] else [])
  {
    if taggings == [] {
      assert taggings + [id] == [id];
    } else {
      assert (taggings + [id])[1..] == taggings[1..] + [id];
      TitlesAppend(labels, taggings[1..], id);
    }
  }

  lemma {:induction false} TitlesExtend(labels: map<int, string>, taggings: seq<int>, id: int, title: string)
    requires id !in taggings
    ensures Titles(labels[id := title], taggings) == Titles(labels, taggings)
  {
    if taggings != [] {
      TitlesExtend(labels, taggings[1..], id, title);
    }
  }

  ghost predicate NamedBy(labels: map<int, string>, taggings: seq<int>, t: string) {
    t != "" && exists i | i in labels :: i in taggings && labels[i] == t
  }

  lemma {:induction false} TitlesMember(labels: map<int, string>, taggings: seq<int>, t: string)
    ensures t in Titles(labels, taggings) <==> NamedBy(labels, taggings, t)
  {
    if taggings != [] {
      TitlesMember(labels, taggings[1..], t);
      assert forall i :: i in taggings <==> i == taggings[0] || i in taggings[1..];
    }
  }

  lemma {:induction false} WithoutMember(taggings: seq<int>, id: int, i: int)
    ensures i in Without(taggings, id) <==> i in taggings && i != id
  {
    if taggings != [] {
      WithoutMember(taggings[1..], id, i);
    }
  }

  lemma TitlesWithout(labels: map<int, string>, taggings: seq<int>, id: int, t: string)
    requires id in labels
    requires forall i, j | i in labels && j in labels && labels[i] == labels[j] :: i == j
    ensures forall i | i in Without(taggings, id) :: i in taggings
    ensures t in Titles(labels, Without(taggings, id)) <==> t in Titles(labels, taggings) && t != labels[id]
  {
    forall i ensures i in Without(taggings, id) <==> i in taggings && i != id {
      WithoutMember(taggings, id, i);
    }
    TitlesMember(labels, Without(taggings, id), t);
    TitlesMember(labels, taggings, t);
  }

  /** Everything but the labels and their taggings. */
  predicate SameRow(a: State, b: State) {
    a == b.(labels := a.labels, nextLabel := a.nextLabel, taggings := a.taggings)
  }

  lemma TagLaw(env: Env, s: State, title: string)
    requires Valid(s) && title != "" && Clean(env.host, title) == title
    ensures Valid(Tag(env, s, title)) && SameRow(Tag(env, s, title), s)
    ensures CurrentLabels(Tag(env, s, title)) == CurrentLabels(s) + [title]
  {
    var r := Tag(env, s, title);
    if LabelId(s.labels, title).None? {
      assert forall i | i in s.labels :: s.labels[i] != title;
      TitlesExtend(s.labels, s.taggings, s.nextLabel, title);
    }
    TitlesAppend(r.labels, s.taggings, r.taggings[|s.taggings|]);
  }

  lemma {:induction false} TagEachLaw(env: Env, s: State, titles: seq<string>)
    requires Valid(s) && AllClean(env.host, titles)
    ensures Valid(TagEach(env, s, titles)) && SameRow(TagEach(env, s, titles), s)
    ensures CurrentLabels(TagEach(env, s, titles)) == CurrentLabels(s) + titles
    decreases |titles|
  {
    if titles != [] {
      TagLaw(env, s, titles[0]);
      TagEachLaw(env, Tag(env, s, titles[0]), titles[1..]);
      assert titles == [titles[0]] + titles[1..];
    } else {
      assert CurrentLabels(s) + titles == CurrentLabels(s);
    }
  }

  lemma {:induction false} NotATitle(labels: map<int, string>, taggings: seq<int>, title: string)
    requires forall i | i in labels :: labels[i] != title
    ensures title !in Titles(labels, taggings)
  {
    if taggings != [] {
      NotATitle(labels, taggings[1..], title);
    }
  }

  lemma UntagLaw(s: State, title: string, t: string)
    requires Valid(s) && title != ""
    ensures Valid(Untag(s, title)) && SameRow(Untag(s, title), s)
    ensures t in CurrentLabels(Untag(s, title)) <==> t in CurrentLabels(s) && t != title
  {
    var found := LabelId(s.labels, title);
    if found.Some? {
      TitlesWithout(s.labels, s.taggings, found.value, t);
    } else {
      assert forall i | i in s.labels :: s.labels[i] != title;
      NotATitle(s.labels, s.taggings, title);
    }
  }

  lemma {:induction false} UntagEachLaw(s: State, titles: seq<string>, t: string)
    requires Valid(s) && "" !in titles
    ensures Valid(UntagEach(s, titles)) && SameRow(UntagEach(s, titles), s)
    ensures t in CurrentLabels(UntagEach(s, titles)) <==> t in CurrentLabels(s) && t !in titles
    decreases |titles|
  {
    if titles != [] {
      assert titles[0] in titles;
      UntagLaw(s, titles[0], t);
      UntagEachLaw(Untag(s, titles[0]), titles[1..], t);
      assert titles == [titles[0]] + titles[1..];
    }
  }

  lemma {:induction false} SelectLaw(titles: seq<string>, have: seq<string>, keep: bool, t: string)
    ensures t in Select(titles, have, keep) <==> t in titles && (t in have) == keep
  {
    if titles != [] {
      SelectLaw(titles[1..], have, keep, t);
      assert titles == [titles[0]] + titles[1..];
    }
  }

  lemma CleanSubset(host: Host, some: seq<string>, all: seq<string>)
    requires AllClean(host, all) && forall i | 0 <= i < |some| :: some[i] in all
    ensures AllClean(host, some)
    ensures "" !in some
  {
  }

  lemma SelectLaws(titles: seq<string>, have: seq<string>, keep: bool)
    ensures forall t :: t in Select(titles, have, keep) <==> t in titles && (t in have) == keep
  {
    forall t ensures t in Select(titles, have, keep) <==> t in titles && (t in have) == keep {
      SelectLaw(titles, have, keep, t);
    }
  }

  // ---- One operation ----

  ghost predicate CacheCurrent(s: State) {
    s.cachedLabels == Join(CurrentLabels(s))
  }

  lemma AddLabelsLaw(env: Env, s: State, titles: seq<string>)
    requires Valid(s) && WellFormed(env, AddLabels(titles))
    ensures var s' := Exec(env, s, AddLabels(titles)).state;
            && Valid(s')
            && SameRow(s', s.(cachedLabels := s'.cachedLabels, messages := s'.messages))
            && (forall t :: t in CurrentLabels(s') <==> t in CurrentLabels(s) || t in titles)
            && (CacheCurrent(s) ==> CacheCurrent(s'))
  {
    var missing := Select(titles, CurrentLabels(s), false);
    SelectLaws(titles, CurrentLabels(s), false);
    CleanSubset(env.host, missing, titles);
    TagEachLaw(env, s, missing);
    assert missing == [] ==> forall t | t in titles :: t !in missing;
  }

  predicate NoRepeats(titles: seq<string>) {
    forall i, j | 0 <= i < j < |titles| :: titles[i] != titles[j]
  }

  /** Only titles of `have` occur in the list more than once. */
  predicate RepeatsOnly(titles: seq<string>, have: seq<string>) {
    forall i, j | 0 <= i < j < |titles| && titles[i] == titles[j] :: titles[i] in have
  }

  lemma RepeatsOnlyTail(titles: seq<string>, have: seq<string>)
    requires titles != []
    ensures RepeatsOnly(titles, have)
       <==> (titles[0] in titles[1..] ==> titles[0] in have) && RepeatsOnly(titles[1..], have)
  {
    var tail := titles[1..];
    if RepeatsOnly(titles, have) {
      forall i, j | 0 <= i < j < |tail| && tail[i] == tail[j] ensures tail[i] in have {
        assert titles[i + 1] == titles[j + 1];
      }
    }
    if (titles[0] in tail ==> titles[0] in have) && RepeatsOnly(tail, have) {
      forall i, j | 0 <= i < j < |titles| && titles[i] == titles[j] ensures titles[i] in have {
        assert titles[j] == tail[j - 1];
        if i > 0 {
          assert titles[i] == tail[i - 1];
        }
      }
    }
  }

  lemma NoRepeatsTail(titles: seq<string>)
    requires titles != []
    ensures NoRepeats(titles) <==> titles[0] !in titles[1..] && NoRepeats(titles[1..])
  {
    RepeatsOnlyTail(titles, []);
    assert forall some: seq<string> :: NoRepeats(some) <==> RepeatsOnly(some, []);
  }

  lemma {:induction false} SelectRepeats(titles: seq<string>, have: seq<string>)
    ensures NoRepeats(Select(titles, have, false)) <==> RepeatsOnly(titles, have)
  {
    if titles != [] {
      SelectRepeats(titles[1..], have);
      RepeatsOnlyTail(titles, have);
      if titles[0] !in have {
        SelectLaw(titles[1..], have, false, titles[0]);
        NoRepeatsTail(Select(titles, have, false));
        assert Select(titles, have, false)[1..] == Select(titles[1..], have, false);
      } else {
        assert Select(titles, have, false) == Select(titles[1..], have, false);
      }
    }
  }

  lemma NoRepeatsConcat(a: seq<string>, b: seq<string>)
    requires NoRepeats(a) && forall i | 0 <= i < |b| :: b[i] !in a
    ensures NoRepeats(a + b) <==> NoRepeats(b)
  {
    if NoRepeats(a + b) {
      forall i, j | 0 <= i < j < |b| ensures b[i] != b[j] {
        assert (a + b)[|a| + i] == b[i] && (a + b)[|a| + j] == b[j];
      }
    }
  }

  /** A conversation tagged without repetition stays so under add_label exactly when every
      title listed more than once was already present: nothing stops the same new title
      from being tagged twice. */
  lemma AddLabelsRepeatsIff(env: Env, s: State, titles: seq<string>)
    requires Valid(s) && WellFormed(env, AddLabels(titles)) && NoRepeats(CurrentLabels(s))
    ensures NoRepeats(CurrentLabels(Exec(env, s, AddLabels(titles)).state)) <==> RepeatsOnly(titles, CurrentLabels(s))
  {
    var have := CurrentLabels(s);
    var missing := Select(titles, have, false);
    SelectLaws(titles, have, false);
    CleanSubset(env.host, missing, titles);
    TagEachLaw(env, s, missing);
    SelectRepeats(titles, have);
    forall i | 0 <= i < |missing| ensures missing[i] !in have {
      assert missing[i] in missing;
    }
    NoRepeatsConcat(have, missing);
  }

  lemma TitleTwiceTagsTwice(env: Env, s: State, title: string)
    requires Valid(s) && WellFormed(env, AddLabels([title, title])) && title !in CurrentLabels(s)
    ensures CurrentLabels(Exec(env, s, AddLabels([title, title])).state) == CurrentLabels(s) + [title, title]
  {
    assert [title, title][1..] == [title] && [title][1..] == [];
    assert Select([title], CurrentLabels(s), false) == [title];
    assert Select([title, title], CurrentLabels(s), false) == [title, title];
    TagEachLaw(env, s, [title, title]);
  }

  lemma RemoveLabelsLaw(env: Env, s: State, titles: seq<string>)
    requires Valid(s) && WellFormed(env, RemoveLabels(titles))
    ensures var s' := Exec(env, s, RemoveLabels(titles)).state;
            && Valid(s')
            && SameRow(s', s.(cachedLabels := s'.cachedLabels, messages := s'.messages))
            && (forall t :: t in CurrentLabels(s') <==> t in CurrentLabels(s) && t !in titles)
            && (CacheCurrent(s) ==> CacheCurrent(s'))
  {
    var doomed := Select(titles, CurrentLabels(s), true);
    SelectLaws(titles, CurrentLabels(s), true);
    CleanSubset(env.host, doomed, titles);
    UntagEachLaw(s, doomed, "");
    forall t ensures t in CurrentLabels(UntagEach(s, doomed)) <==> t in CurrentLabels(s) && t !in doomed {
      UntagEachLaw(s, doomed, t);
    }
    assert doomed == [] ==> forall t | t in titles :: t !in doomed;
  }

  lemma PlainKeeps(env: Env, s: State, op: Op)
    requires Valid(s) && !op.AddLabels? && !op.RemoveLabels?
    ensures var s' := Exec(env, s, op).state;
            && Valid(s')
            && s'.contact == s.contact
            && CurrentLabels(s') == CurrentLabels(s)
            && s'.cachedLabels == s.cachedLabels
  {
  }

  lemma PlainViews(env: Env, s: State, op: Op, f: Field)
    requires Valid(s) && !op.AddLabels? && !op.RemoveLabels?
    ensures View(Exec(env, s, op).state, f) == Write(op, s.contact.Some?, f).GetOr(View(s, f))
  {
    PlainKeeps(env, s, op);
  }

  /** One operation leaves in every field what it writes there, or what was there;
      it keeps the tables well formed and the label cache current. */
  lemma ExecWrites(env: Env, s: State, op: Op, f: Field)
    requires Valid(s) && WellFormed(env, op)
    ensures var s' := Exec(env, s, op).state;
            && Valid(s')
            && s'.contact == s.contact
            && View(s', f) == Write(op, s.contact.Some?, f).GetOr(View(s, f))
            && (CacheCurrent(s) ==> CacheCurrent(s'))
  {
    if op.AddLabels? {
      AddLabelsLaw(env, s, op.titles);
    } else if op.RemoveLabels? {
      RemoveLabelsLaw(env, s, op.titles);
    } else {
      PlainKeeps(env, s, op);
      PlainViews(env, s, op, f);
    }
  }

  /** Nothing was posted, and the `changed` flag stays down. */
  predicate Silent(s: State, e: Effect) {
    !e.changed && e.state.messages == s.messages && e.state.events == s.events
  }

  ghost predicate AgreesWith(s: State, op: Op) {
    forall f | Write(op, s.contact.Some?, f).Some? :: Write(op, s.contact.Some?, f) == Some(View(s, f))
  }

  lemma AgreesIffNothingToDo(s: State, op: Op)
    requires op.AddLabels? || op.RemoveLabels?
    ensures AgreesWith(s, op) <==> Select(op.titles, CurrentLabels(s), op.RemoveLabels?) == []
  {
    var chosen := Select(op.titles, CurrentLabels(s), op.RemoveLabels?);
    SelectLaws(op.titles, CurrentLabels(s), op.RemoveLabels?);
    if chosen != [] {
      assert chosen[0] in chosen;
      assert Write(op, s.contact.Some?, Tagged(chosen[0])) == Some(Flag(op.AddLabels?));
    } else {
      assert forall t | t in op.titles :: t !in chosen;
    }
  }

  lemma LabelsSilent(env: Env, s: State, op: Op)
    requires Valid(s) && WellFormed(env, op) && (op.AddLabels? || op.RemoveLabels?)
    ensures AgreesWith(s, op) ==> Exec(env, s, op) == Effect(s, false)
    ensures !AgreesWith(s, op) ==> Exec(env, s, op).changed && !Silent(s, Exec(env, s, op))
  {
    AgreesIffNothingToDo(s, op);
  }

  /** An operation is silent exactly when it writes what is already there; then it
      changes no row at all. */
  lemma ExecSilent(env: Env, s: State, op: Op)
    requires Valid(s) && WellFormed(env, op)
    ensures Silent(s, Exec(env, s, op)) <==> !Noisy(op) && AgreesWith(s, op)
    ensures Silent(s, Exec(env, s, op)) ==> Exec(env, s, op).state == s
    ensures !Noisy(op) ==> Exec(env, s, op).changed == !AgreesWith(s, op)
  {
    var c := s.contact.Some?;
    if op.AddLabels? || op.RemoveLabels? {
      LabelsSilent(env, s, op);
    } else if !Noisy(op) && !op.PostWebhook? {
      var f := if op.SetAssignee? then Assignee else if op.SetTeam? then Team
               else if op.SetStatus? then StatusField else Priority;
      assert forall g :: Write(op, c, g).Some? <==> g == f;
      assert AgreesWith(s, op) <==> Write(op, c, f) == Some(View(s, f));
    }
  }

  // ---- Lists of operations ----

  /** Operation i makes the last write to f. */
  predicate LastWriter(ops: seq<Op>, hasContact: bool, f: Field, i: nat) {
    && i < |ops|
    && Write(ops[i], hasContact, f).Some?
    && forall k | i < k < |ops| :: Write(ops[k], hasContact, f).None?
  }

  predicate NeverWritten(ops: seq<Op>, hasContact: bool, f: Field) {
    forall k | 0 <= k < |ops| :: Write(ops[k], hasContact, f).None?
  }

  lemma {:induction false} ExecAllKeeps(env: Env, s: State, ops: seq<Op>)
    requires Valid(s) && AllWellFormed(env, ops)
    ensures var s' := ExecAll(env, s, ops).state;
            Valid(s') && s'.contact == s.contact && (CacheCurrent(s) ==> CacheCurrent(s'))
    decreases |ops|
  {
    if ops != [] {
      ExecWrites(env, s, ops[0], Assignee);
      ExecAllKeeps(env, Exec(env, s, ops[0]).state, ops[1..]);
    }
  }

  lemma {:induction false} Untouched(env: Env, s: State, ops: seq<Op>, f: Field)
    requires Valid(s) && AllWellFormed(env, ops)
    requires NeverWritten(ops, s.contact.Some?, f)
    ensures View(ExecAll(env, s, ops).state, f) == View(s, f)
    decreases |ops|
  {
    if ops != [] {
      ExecWrites(env, s, ops[0], f);
      Untouched(env, Exec(env, s, ops[0]).state, ops[1..], f);
    }
  }

  lemma {:induction false} LastWriteWins(env: Env, s: State, ops: seq<Op>, f: Field, i: nat)
    requires Valid(s) && AllWellFormed(env, ops)
    requires LastWriter(ops, s.contact.Some?, f, i)
    ensures Some(View(ExecAll(env, s, ops).state, f)) == Write(ops[i], s.contact.Some?, f)
    decreases |ops|
  {
    var s1 := Exec(env, s, ops[0]).state;
    ExecWrites(env, s, ops[0], f);
    if i == 0 {
      Untouched(env, s1, ops[1..], f);
    } else {
      assert forall k | 0 <= k < |ops| - 1 :: ops[1..][k] == ops[k + 1];
      LastWriteWins(env, s1, ops[1..], f, i - 1);
    }
  }

  lemma {:induction false} SomeLastWriter(ops: seq<Op>, hasContact: bool, f: Field, n: nat) returns (i: nat)
    requires n <= |ops|
    requires forall k | n <= k < |ops| :: Write(ops[k], hasContact, f).None?
    requires !NeverWritten(ops, hasContact, f)
    ensures LastWriter(ops, hasContact, f, i)
  {
    if n == 0 {
      assert false;
    } else if Write(ops[n - 1], hasContact, f).Some? {
      i := n - 1;
    } else {
      i := SomeLastWriter(ops, hasContact, f, n - 1);
    }
  }

  ghost function Final(env: Env, s: State, items: seq<ActionItem>): State {
    Apply(env, s, items).state
  }

  lemma ApplyIsExecAll(env: Env, s: State, items: seq<ActionItem>)
    ensures var e := ExecAll(env, s, Performed(env, items));
            && Final(env, s, items).(events := e.state.events) == e.state
            && Publishes(Apply(env, s, items)) == (!Throws(env, items) && e.changed)
            && (forall f :: View(Final(env, s, items), f) == View(e.state, f))
  {
    RunIsExecAll(env, s, false, [], items);
  }

  /** For every action list, also one that throws half way: a field ends up with the
      last value written to it, or untouched. */
  lemma LastWriterNormalForm(env: Env, s: State, items: seq<ActionItem>, f: Field)
    requires Valid(s)
    ensures var ops := Performed(env, items);
            var c := s.contact.Some?;
            && (forall i: nat | LastWriter(ops, c, f, i) ::
                  Write(ops[i], c, f) == Some(View(Final(env, s, items), f)))
            && (NeverWritten(ops, c, f) ==> View(Final(env, s, items), f) == View(s, f))
  {
    var ops := Performed(env, items);
    var c := s.contact.Some?;
    ApplyIsExecAll(env, s, items);
    if NeverWritten(ops, c, f) {
      Untouched(env, s, ops, f);
    }
    forall i: nat | LastWriter(ops, c, f, i)
      ensures Write(ops[i], c, f) == Some(View(Final(env, s, items), f))
    {
      LastWriteWins(env, s, ops, f, i);
    }
  }

  lemma ApplyKeeps(env: Env, s: State, items: seq<ActionItem>)
    requires Valid(s)
    ensures Valid(Final(env, s, items)) && Final(env, s, items).contact == s.contact
    ensures CacheCurrent(s) ==> CacheCurrent(Final(env, s, items))
  {
    ApplyIsExecAll(env, s, items);
    ExecAllKeeps(env, s, Performed(env, items));
  }

  /** Running a list a second time changes no field and no label. */
  lemma TwiceIsOnce(env: Env, s: State, items: seq<ActionItem>, f: Field)
    requires Valid(s)
    ensures View(Final(env, Final(env, s, items), items), f) == View(Final(env, s, items), f)
  {
    var once := Final(env, s, items);
    var ops := Performed(env, items);
    ApplyKeeps(env, s, items);
    LastWriterNormalForm(env, s, items, f);
    LastWriterNormalForm(env, once, items, f);
    if !NeverWritten(ops, s.contact.Some?, f) {
      var i := SomeLastWriter(ops, s.contact.Some?, f, |ops|);
    }
  }

  // ---- Silence of the second run ----

  ghost predicate Compatible(a: Op, b: Op, hasContact: bool) {
    forall f | Write(a, hasContact, f).Some? && Write(b, hasContact, f).Some? ::
      Write(a, hasContact, f) == Write(b, hasContact, f)
  }

  ghost predicate NonConflicting(ops: seq<Op>, hasContact: bool) {
    forall i, j | 0 <= i < |ops| && 0 <= j < |ops| :: Compatible(ops[i], ops[j], hasContact)
  }

  ghost predicate AllQuiet(s: State, ops: seq<Op>) {
    forall op | op in ops :: !Noisy(op) && AgreesWith(s, op)
  }

  lemma OneGrows(env: Env, s: State, op: Op)
    requires Valid(s) && WellFormed(env, op)
    ensures var e := Exec(env, s, op);
            && |s.messages| <= |e.state.messages| && |s.events| <= |e.state.events|
            && (Silent(s, e) || e.changed || |s.messages| < |e.state.messages|)
  {
    match op
    case AddLabels(titles) =>
      var missing := Select(titles, CurrentLabels(s), false);
      SelectLaws(titles, CurrentLabels(s), false);
      CleanSubset(env.host, missing, titles);
      TagEachLaw(env, s, missing);
    case RemoveLabels(titles) =>
      var doomed := Select(titles, CurrentLabels(s), true);
      SelectLaws(titles, CurrentLabels(s), true);
      CleanSubset(env.host, doomed, titles);
      UntagEachLaw(s, doomed, "");
    case _ =>
  }

  lemma {:induction false} MessagesGrow(env: Env, s: State, ops: seq<Op>)
    requires Valid(s) && AllWellFormed(env, ops)
    ensures |s.messages| <= |ExecAll(env, s, ops).state.messages|
    ensures |s.events| <= |ExecAll(env, s, ops).state.events|
    decreases |ops|
  {
    if ops != [] {
      OneGrows(env, s, ops[0]);
      ExecWrites(env, s, ops[0], Assignee);
      MessagesGrow(env, Exec(env, s, ops[0]).state, ops[1..]);
    }
  }

  lemma {:induction false} SilentRun(env: Env, s: State, ops: seq<Op>)
    requires Valid(s) && AllWellFormed(env, ops)
    ensures Silent(s, ExecAll(env, s, ops)) <==> AllQuiet(s, ops)
    ensures AllQuiet(s, ops) ==> ExecAll(env, s, ops).state == s
    decreases |ops|
  {
    if ops != [] {
      var e := Exec(env, s, ops[0]);
      assert ops[0] in ops;
      ExecWrites(env, s, ops[0], Assignee);
      ExecSilent(env, s, ops[0]);
      OneGrows(env, s, ops[0]);
      assert ops == [ops[0]] + ops[1..];
      if Silent(s, e) {
        SilentRun(env, s, ops[1..]);
      } else {
        MessagesGrow(env, e.state, ops[1..]);
      }
    }
  }

  /** No operation always raises the flag, and each writes what is already there. */
  ghost predicate AllIdle(s: State, ops: seq<Op>) {
    forall op | op in ops :: !Raises(op) && AgreesWith(s, op)
  }

  lemma IdleIsConflictFree(s: State, ops: seq<Op>)
    requires AllIdle(s, ops)
    ensures NonConflicting(ops, s.contact.Some?)
  {
    forall i, j | 0 <= i < |ops| && 0 <= j < |ops|
      ensures Compatible(ops[i], ops[j], s.contact.Some?)
    {
      assert AgreesWith(s, ops[i]) && AgreesWith(s, ops[j]);
    }
  }

  lemma ConflictFreeAgrees(env: Env, s: State, items: seq<ActionItem>, k: nat)
    requires Valid(s)
    requires NonConflicting(Performed(env, items), s.contact.Some?)
    requires k < |Performed(env, items)|
    ensures AgreesWith(Final(env, s, items), Performed(env, items)[k])
  {
    var ops := Performed(env, items);
    var c := s.contact.Some?;
    var once := Final(env, s, items);
    ApplyKeeps(env, s, items);
    forall f | Write(ops[k], c, f).Some?
      ensures Write(ops[k], c, f) == Some(View(once, f))
    {
      assert !NeverWritten(ops, c, f);
      var i := SomeLastWriter(ops, c, f, |ops|);
      LastWriterNormalForm(env, s, items, f);
      assert Compatible(ops[k], ops[i], c);
    }
  }

  lemma ConflictFreeIsQuiet(env: Env, s: State, items: seq<ActionItem>)
    requires Valid(s)
    ensures var ops := Performed(env, items);
            AllQuiet(Final(env, s, items), ops) <==>
              NonConflicting(ops, s.contact.Some?) && forall op | op in ops :: !Noisy(op)
  {
    var ops := Performed(env, items);
    ApplyKeeps(env, s, items);
    if AllQuiet(Final(env, s, items), ops) {
      IdleIsConflictFree(Final(env, s, items), ops);
    }
    if NonConflicting(ops, s.contact.Some?) {
      forall k | 0 <= k < |ops| ensures AgreesWith(Final(env, s, items), ops[k]) {
        ConflictFreeAgrees(env, s, items, k);
      }
    }
  }

  /** The second run posts nothing, raises no flag and so publishes nothing exactly
      when the performed operations contain no always-acting one and no two of
      them write different values to one field or label. */
  lemma SecondRunSilentIff(env: Env, s: State, items: seq<ActionItem>)
    requires Valid(s)
    ensures var ops := Performed(env, items);
            var once := Final(env, s, items);
            var twice := Apply(env, once, items);
            (!twice.changed && twice.state.messages == once.messages && twice.state.events == once.events)
            <==> NonConflicting(ops, s.contact.Some?) && forall op | op in ops :: !Noisy(op)
    ensures var once := Final(env, s, items);
            !Apply(env, once, items).changed ==> !Publishes(Apply(env, once, items))
  {
    var once := Final(env, s, items);
    ApplyKeeps(env, s, items);
    RunIsExecAll(env, once, false, [], items);
    SilentRun(env, once, Performed(env, items));
    ConflictFreeIsQuiet(env, s, items);
  }

  // ---- When the flag stays down ----

  ghost predicate SameFields(s: State, s': State) {
    s'.contact == s.contact && forall f :: View(s', f) == View(s, f)
  }

  lemma IdleExec(env: Env, s: State, op: Op)
    requires Valid(s) && WellFormed(env, op)
    ensures !Exec(env, s, op).changed <==> !Raises(op) && AgreesWith(s, op)
    ensures !Exec(env, s, op).changed ==> SameFields(s, Exec(env, s, op).state)
  {
    ExecSilent(env, s, op);
    if !Exec(env, s, op).changed {
      forall f ensures View(Exec(env, s, op).state, f) == View(s, f) {
        ExecWrites(env, s, op, f);
      }
      ExecWrites(env, s, op, Assignee);
    }
  }

  lemma SameFieldsSameIdle(s: State, s': State, ops: seq<Op>)
    requires SameFields(s, s')
    ensures AllIdle(s', ops) <==> AllIdle(s, ops)
  {
    forall op | op in ops ensures AgreesWith(s', op) <==> AgreesWith(s, op) {
    }
  }

  /** A run raises no flag exactly when all its operations are idle, and then it leaves
      every field and label as it was. */
  lemma {:induction false} IdleRun(env: Env, s: State, ops: seq<Op>)
    requires Valid(s) && AllWellFormed(env, ops)
    ensures !ExecAll(env, s, ops).changed <==> AllIdle(s, ops)
    ensures AllIdle(s, ops) ==> SameFields(s, ExecAll(env, s, ops).state)
    decreases |ops|
  {
    if ops != [] {
      assert ops[0] in ops && ops == [ops[0]] + ops[1..];
      IdleExec(env, s, ops[0]);
      if !Exec(env, s, ops[0]).changed {
        var s' := Exec(env, s, ops[0]).state;
        ExecWrites(env, s, ops[0], Assignee);
        IdleRun(env, s', ops[1..]);
        SameFieldsSameIdle(s, s', ops[1..]);
      }
    }
  }

  /** The second run publishes nothing exactly when the list throws, or no operation always
      raises the flag and no two write different values to one field or label; a private
      note posts again but publishes no conversation update. */
  lemma SecondRunPublishesIff(env: Env, s: State, items: seq<ActionItem>)
    requires Valid(s)
    ensures var ops := Performed(env, items);
            !Publishes(Apply(env, Final(env, s, items), items))
            <==> Throws(env, items)
                 || (NonConflicting(ops, s.contact.Some?) && forall op | op in ops :: !Raises(op))
  {
    var ops, once := Performed(env, items), Final(env, s, items);
    ApplyKeeps(env, s, items);
    ApplyIsExecAll(env, once, items);
    IdleRun(env, once, ops);
    if AllIdle(once, ops) {
      IdleIsConflictFree(once, ops);
    }
    if NonConflicting(ops, s.contact.Some?) {
      forall k | 0 <= k < |ops| ensures AgreesWith(once, ops[k]) {
        ConflictFreeAgrees(env, s, items, k);
      }
    }
  }

  // ---- Posted messages ----

  /** Operations that publish `message.created`. */
  predicate Posts(op: Op) {
    op.PostMessage? || op.PostNote?
  }

  function Posted(ops: seq<Op>): nat {
    if ops == [] then 0 else (if Posts(ops[0]) then 1 else 0) + Posted(ops[1..])
  }

  function MessageEvents(events: seq<Event>): nat {
    if events == [] then 0
    else MessageEvents(events[..|events| - 1]) + if events[|events| - 1].MessageCreated? then 1 else 0
  }

  lemma MessageEventsSnoc(events: seq<Event>, e: Event)
    ensures MessageEvents(events + [e]) == MessageEvents(events) + if e.MessageCreated? then 1 else 0
  {
    assert (events + [e])[..|events|] == events;
  }

  lemma ExecPosts(env: Env, s: State, op: Op)
    requires Valid(s) && WellFormed(env, op)
    ensures MessageEvents(Exec(env, s, op).state.events) == MessageEvents(s.events) + if Posts(op) then 1 else 0
  {
    match op
    case AddLabels(titles) => AddLabelsLaw(env, s, titles);
    case RemoveLabels(titles) => RemoveLabelsLaw(env, s, titles);
    case PostMessage(c) => MessageEventsSnoc(s.events, MessageCreated(c));
    case PostNote(c) => MessageEventsSnoc(s.events, MessageCreated(c));
    case _ =>
  }

  lemma {:induction false} ExecAllPosts(env: Env, s: State, ops: seq<Op>)
    requires Valid(s) && AllWellFormed(env, ops)
    ensures MessageEvents(ExecAll(env, s, ops).state.events) == MessageEvents(s.events) + Posted(ops)
    decreases |ops|
  {
    if ops != [] {
      ExecPosts(env, s, ops[0]);
      ExecWrites(env, s, ops[0], Assignee);
      ExecAllPosts(env, Exec(env, s, ops[0]).state, ops[1..]);
    }
  }

  /** An action list publishes `message.created` once for every posting operation that it
      performs, also when it throws later on. */
  lemma ApplyPosts(env: Env, s: State, items: seq<ActionItem>)
    requires Valid(s)
    ensures MessageEvents(Final(env, s, items).events) == MessageEvents(s.events) + Posted(Performed(env, items))
  {
    RunIsExecAll(env, s, false, [], items);
    ExecAllPosts(env, s, Performed(env, items));
    MessageEventsSnoc(ExecAll(env, s, Performed(env, items)).state.events, ConversationUpdated);
  }

  // ---- The last value written ----

  function LastValue(ops: seq<Op>, hasContact: bool, f: Field): Option<Val> {
    if ops == [] then None
    else
      var later := LastValue(ops[1..], hasContact, f);
      if later.Some? then later else Write(ops[0], hasContact, f)
  }

  lemma {:induction false} LastValueConcat(a: seq<Op>, b: seq<Op>, hasContact: bool, f: Field)
    ensures LastValue(a + b, hasContact, f)
         == if LastValue(b, hasContact, f).Some? then LastValue(b, hasContact, f) else LastValue(a, hasContact, f)
  {
    if a == [] {
      assert a + b == b;
    } else {
      LastValueConcat(a[1..], b, hasContact, f);
      assert (a + b)[1..] == a[1..] + b;
    }
  }

  lemma {:induction false} ExecAllLast(env: Env, s: State, ops: seq<Op>, f: Field)
    requires Valid(s) && AllWellFormed(env, ops)
    ensures View(ExecAll(env, s, ops).state, f) == LastValue(ops, s.contact.Some?, f).GetOr(View(s, f))
    decreases |ops|
  {
    if ops != [] {
      ExecWrites(env, s, ops[0], f);
      ExecAllLast(env, Exec(env, s, ops[0]).state, ops[1..], f);
    }
  }

  // ---- The label cache ----

  /** setConversationLabels leaves exactly the given titles, and a current cache. */
  lemma SetLabelsLaw(env: Env, s: State, titles: seq<string>)
    requires Valid(s)
    ensures var s' := SetLabels(env, s, titles);
            && Valid(s') && CacheCurrent(s')
            && (forall t :: t in CurrentLabels(s') <==> t in CleanTitles(env.host, titles))
            && SameRow(s', s.(cachedLabels := s'.cachedLabels, events := s'.events))
  {
    var empty := s.(taggings := []);
    var normalized := Distinct(CleanTitles(env.host, titles));
    CleanSubset(env.host, normalized, CleanTitles(env.host, titles));
    TagEachLaw(env, empty, normalized);
    assert CurrentLabels(empty) + normalized == normalized;
  }

  // ---- Names that always throw ----

  const PLAIN_HOST: TextHost :=
    Host((v: Value) => if v.Num? then Some(v.n) else None, (v: Value) => if v.Str? then v.s else "",
         s => s, s => s, _ => None)

  /** Parameters with which an action can be performed. */
  function SampleParams(name: ActionName): seq<Value> {
    if name.AssignAgent? || name.AssignTeam? || name.SnoozeShort? || name.SnoozeConversation? then [Num(1.0)]
    else if name.ChangePriority? then [Str("low")]
    else [Str("open")]
  }

  lemma SampleTitles()
    ensures TitlesParam(PLAIN_HOST, [Str("open")]) == ["open"]
  {
    assert TitleItems([Str("open")]) == [Str("open")];
    assert RawTitles(PLAIN_HOST, [Str("open")]) == ["open"];
    assert CleanTitles(PLAIN_HOST, ["open"]) == ["open"];
  }

  lemma SampleDecodes(name: ActionName)
    requires !name.SendEmailToTeam? && !name.SendAttachment? && !name.SendEmailTranscript? && !name.Other?
    ensures Decode(Env(PLAIN_HOST, {1}, {1}, _ => true), ActionItem(name, SampleParams(name))).Do?
  {
    if name.AddLabel? || name.RemoveLabel? {
      SampleTitles();
    } else if name.AssignAgent? || name.AssignTeam? {
      assert NumParam(PLAIN_HOST, [Num(1.0)]) == Some(1);
    }
  }

  /** An action name throws in every environment and with every parameters exactly when it is
      unknown or one of three names that the rule validation accepts. */
  lemma AlwaysThrowsIff(name: ActionName)
    ensures (forall env, params :: Decode(env, ActionItem(name, params)).Fail?)
       <==> name in {SendEmailToTeam, SendAttachment, SendEmailTranscript} || name.Other?
  {
    if name !in {SendEmailToTeam, SendAttachment, SendEmailTranscript} && !name.Other? {
      SampleDecodes(name);
    }
  }
}
