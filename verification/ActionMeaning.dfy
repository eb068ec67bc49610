// What each action leaves behind, said of the raw parameters and of the conversation:
// which column it sets, what it posts and publishes, and which error it throws.

module ActionMeaning {
  import opened Prelude
  import opened JsValues
  import opened ConversationFields
  import opened ConversationActions
  import opened ActionLaws

  ghost function One(env: Env, s: State, name: ActionName, params: seq<Value>): Outcome {
    Apply(env, s, [ActionItem(name, params)])
  }

  /** The action leaves row t, noting and publishing the change unless t is as before. */
  ghost predicate Sets(o: Outcome, name: ActionName, s: State, t: State, what: Activity) {
    && o.error == None && o.applied == [name]
    && o.state == if t == s then s
                  else t.(messages := s.messages + [ActivityMessage(what)], events := s.events + [ConversationUpdated])
  }

  ghost predicate Rejects(o: Outcome, s: State, e: Error) {
    o.error == Some(e) && o.applied == [] && o.state == s
  }

  lemma OneIs(env: Env, s: State, name: ActionName, params: seq<Value>)
    ensures var o := One(env, s, name, params);
            match Decode(env, ActionItem(name, params))
            case Fail(e) => Rejects(o, s, e)
            case Do(op) =>
              var e := Exec(env, s, op);
              && o.error == None && o.applied == [name]
              && o.state == if e.changed then e.state.(events := e.state.events + [ConversationUpdated]) else e.state
  {
    var item := ActionItem(name, params);
    if Decode(env, item).Do? {
      SingleAction(env, s, item, Decode(env, item).op);
    }
  }

  // ---- Status and priority ----

  /** resolve, open and pending set the status they name, whatever the parameters. */
  lemma StatusActions(env: Env, s: State, params: seq<Value>)
    ensures Sets(One(env, s, ResolveConversation, params), ResolveConversation,
                 s, s.(status := Resolved), MarkedAs(Resolved))
    ensures Sets(One(env, s, OpenConversation, params), OpenConversation, s, s.(status := Open), MarkedAs(Open))
    ensures Sets(One(env, s, PendingConversation, params), PendingConversation,
                 s, s.(status := Pending), MarkedAs(Pending))
  {
    OneIs(env, s, ResolveConversation, params);
    OneIs(env, s, OpenConversation, params);
    OneIs(env, s, PendingConversation, params);
  }

  /** The trimmed text of the first parameter, empty when it is missing or null. */
  function FirstText(env: Env, params: seq<Value>): string {
    if params == [] || params[0] in {Null, Undefined} then "" else env.host.trim(env.host.text(params[0]))
  }

  /** change_status sets the status its text names, and rejects any other text. */
  lemma ChangeStatusMeaning(env: Env, s: State, params: seq<Value>)
    ensures var o, text := One(env, s, ChangeStatus, params), FirstText(env, params);
            if text == "open" then Sets(o, ChangeStatus, s, s.(status := Open), MarkedAs(Open))
            else if text == "resolved" then Sets(o, ChangeStatus, s, s.(status := Resolved), MarkedAs(Resolved))
            else if text == "pending" then Sets(o, ChangeStatus, s, s.(status := Pending), MarkedAs(Pending))
            else if text == "snoozed" then Sets(o, ChangeStatus, s, s.(status := Snoozed), MarkedAs(Snoozed))
            else Rejects(o, s, Unprocessable)
  {
    OneIs(env, s, ChangeStatus, params);
  }

  ghost predicate SetsPriority(o: Outcome, s: State, p: Option<int>) {
    Sets(o, ChangePriority, s, s.(priority := p), PriorityChanged(p))
  }

  /** change_priority sets the number of its text, "none" for no priority, and rejects any other. */
  lemma ChangePriorityMeaning(env: Env, s: State, params: seq<Value>)
    ensures var o, text := One(env, s, ChangePriority, params), FirstText(env, params);
            if text == "none" then SetsPriority(o, s, None)
            else if text == "low" then SetsPriority(o, s, Some(1))
            else if text == "medium" then SetsPriority(o, s, Some(2))
            else if text == "high" then SetsPriority(o, s, Some(3))
            else if text == "urgent" then SetsPriority(o, s, Some(4))
            else Rejects(o, s, Unprocessable)
  {
    OneIs(env, s, ChangePriority, params);
  }

  // ---- Assignment ----

  /** The first parameter is there and converts to the integer n. */
  predicate IntegerIs(env: Env, params: seq<Value>, n: int) {
    params != [] && params[0] !in {Null, Undefined, Str("")} && env.host.number(params[0]) == Some(n as real)
  }

  /** Assigning takes a member or a team of the account, and rejects other numbers as not found. */
  lemma AssignMeaning(env: Env, s: State, params: seq<Value>, n: int)
    requires IntegerIs(env, params, n)
    ensures var o := One(env, s, AssignAgent, params);
            if n in env.members then Sets(o, AssignAgent, s, s.(assignee := Some(n)), AssignedTo(Some(n)))
            else Rejects(o, s, NotFound)
    ensures var o := One(env, s, AssignTeam, params);
            if n in env.teams then Sets(o, AssignTeam, s, s.(team := Some(n)), TeamSet(Some(n)))
            else Rejects(o, s, NotFound)
  {
    assert (n as real).Floor == n;
    OneIs(env, s, AssignAgent, params);
    OneIs(env, s, AssignTeam, params);
  }

  lemma IdIsInteger(env: Env, params: seq<Value>)
    ensures var id := NumParam(env.host, params); id.Some? ==> IntegerIs(env, params, id.value)
  {
  }

  /** What is not an integer is no id. */
  lemma AssignRejects(env: Env, s: State, params: seq<Value>)
    requires forall n: int :: !IntegerIs(env, params, n)
    ensures Rejects(One(env, s, AssignAgent, params), s, Unprocessable)
    ensures Rejects(One(env, s, AssignTeam, params), s, Unprocessable)
  {
    IdIsInteger(env, params);
    OneIs(env, s, AssignAgent, params);
    OneIs(env, s, AssignTeam, params);
  }

  lemma UnassignMeaning(env: Env, s: State, params: seq<Value>)
    ensures Sets(One(env, s, RemoveAssignedAgent, params), RemoveAssignedAgent,
                 s, s.(assignee := None), AssignedTo(None))
    ensures Sets(One(env, s, RemoveAssignedTeam, params), RemoveAssignedTeam, s, s.(team := None), TeamSet(None))
  {
    OneIs(env, s, RemoveAssignedAgent, params);
    OneIs(env, s, RemoveAssignedTeam, params);
  }

  // ---- Labels ----

  /** v is one of the listed titles: the parameters, or the entries of a single list. */
  predicate Lists(params: seq<Value>, v: Value) {
    if |params| == 1 && params[0].List? then v in params[0].items else v in params
  }

  /** The text of a listed title reads t once trimmed and lower-cased; null reads as empty. */
  predicate Reads(env: Env, v: Value, t: string) {
    env.host.lower(env.host.trim(if v in {Null, Undefined} then "" else env.host.text(v))) == t
  }

  ghost predicate Names(env: Env, params: seq<Value>, t: string) {
    t != "" && exists v :: (Lists(params, v) || (params == [] && v == Undefined)) && Reads(env, v, t)
  }

  lemma {:induction false} CleanTitlesMembers(host: Host, raw: seq<string>, t: string)
    ensures t in CleanTitles(host, raw) <==> t != "" && exists i | 0 <= i < |raw| :: host.lower(host.trim(raw[i])) == t
  {
    if raw != [] {
      CleanTitlesMembers(host, raw[1..], t);
      if i :| 0 <= i < |raw| && host.lower(host.trim(raw[i])) == t {
        assert i > 0 ==> raw[1..][i - 1] == raw[i];
      }
      if i :| 0 <= i < |raw[1..]| && host.lower(host.trim(raw[1..][i])) == t {
        assert raw[i + 1] == raw[1..][i];
      }
    }
  }

  lemma TitlesAreNamed(env: Env, params: seq<Value>, t: string)
    ensures t in TitlesParam(env.host, params) <==> Names(env, params, t)
  {
    var items := TitleItems(params);
    var raw := RawTitles(env.host, items);
    CleanTitlesMembers(env.host, raw, t);
    if v :| (Lists(params, v) || (params == [] && v == Undefined)) && Reads(env, v, t) {
      assert v in items;
      var i :| 0 <= i < |items| && items[i] == v;
      assert env.host.lower(env.host.trim(raw[i])) == t;
    }
    if i :| 0 <= i < |raw| && env.host.lower(env.host.trim(raw[i])) == t {
      assert items[i] in items && Reads(env, items[i], t);
      assert Lists(params, items[i]) || (params == [] && items[i] == Undefined);
    }
  }

  predicate Notes(s: State, t: State, what: Activity) {
    t.messages == s.messages + [ActivityMessage(what)] && t.events == s.events + [ConversationUpdated]
  }

  ghost predicate LabelsOnly(s: State, t: State) {
    Valid(t) && SameRow(t, s.(cachedLabels := t.cachedLabels, messages := t.messages, events := t.events))
  }

  lemma LabelsPosted(env: Env, s: State, titles: seq<string>)
    requires Valid(s) && AllClean(env.host, titles)
    ensures var added := Select(titles, CurrentLabels(s), false);
            var e := Exec(env, s, AddLabels(titles));
            && e.changed == (added != [])
            && (added != [] ==> e.state.messages == s.messages + [ActivityMessage(LabelsAdded(added))])
            && e.state.events == s.events && (added == [] ==> e.state == s)
    ensures var gone := Select(titles, CurrentLabels(s), true);
            var e := Exec(env, s, RemoveLabels(titles));
            && e.changed == (gone != [])
            && (gone != [] ==> e.state.messages == s.messages + [ActivityMessage(LabelsRemoved(gone))])
            && e.state.events == s.events && (gone == [] ==> e.state == s)
  {
    var added, gone := Select(titles, CurrentLabels(s), false), Select(titles, CurrentLabels(s), true);
    SelectLaws(titles, CurrentLabels(s), false);
    SelectLaws(titles, CurrentLabels(s), true);
    CleanSubset(env.host, added, titles);
    CleanSubset(env.host, gone, titles);
    TagEachLaw(env, s, added);
    UntagEachLaw(s, gone, "");
  }

  lemma AddedTitles(env: Env, s: State, params: seq<Value>)
    requires Valid(s) && TitlesParam(env.host, params) != []
    ensures var o, titles := One(env, s, AddLabel, params), TitlesParam(env.host, params);
            var added := Select(titles, CurrentLabels(s), false);
            && o.error == None && o.applied == [AddLabel] && LabelsOnly(s, o.state)
            && (forall t :: t in CurrentLabels(o.state) <==> t in CurrentLabels(s) || t in titles)
            && if added == [] then o.state == s else Notes(s, o.state, LabelsAdded(added))
  {
    OneIs(env, s, AddLabel, params);
    LabelsPosted(env, s, TitlesParam(env.host, params));
    AddLabelsLaw(env, s, TitlesParam(env.host, params));
  }

  lemma RemovedTitles(env: Env, s: State, params: seq<Value>)
    requires Valid(s) && TitlesParam(env.host, params) != []
    ensures var o, titles := One(env, s, RemoveLabel, params), TitlesParam(env.host, params);
            var gone := Select(titles, CurrentLabels(s), true);
            && o.error == None && o.applied == [RemoveLabel] && LabelsOnly(s, o.state)
            && (forall t :: t in CurrentLabels(o.state) <==> t in CurrentLabels(s) && t !in titles)
            && if gone == [] then o.state == s else Notes(s, o.state, LabelsRemoved(gone))
  {
    OneIs(env, s, RemoveLabel, params);
    LabelsPosted(env, s, TitlesParam(env.host, params));
    RemoveLabelsLaw(env, s, TitlesParam(env.host, params));
  }

  lemma AllNamed(env: Env, params: seq<Value>)
    ensures forall t :: t in TitlesParam(env.host, params) <==> Names(env, params, t)
  {
    forall t ensures t in TitlesParam(env.host, params) <==> Names(env, params, t) {
      TitlesAreNamed(env, params, t);
    }
  }

  /** A label action is rejected exactly when it names no title. */
  lemma LabelRejects(env: Env, s: State, params: seq<Value>)
    ensures (exists t :: Names(env, params, t)) <==> TitlesParam(env.host, params) != []
    ensures !(exists t :: Names(env, params, t))
            ==> Rejects(One(env, s, AddLabel, params), s, Unprocessable)
                && Rejects(One(env, s, RemoveLabel, params), s, Unprocessable)
  {
    var titles := TitlesParam(env.host, params);
    AllNamed(env, params);
    if titles != [] {
      assert Names(env, params, titles[0]);
    }
    OneIs(env, s, AddLabel, params);
    OneIs(env, s, RemoveLabel, params);
  }

  /** add_label leaves the labels there were and the named ones, and says which are new. */
  lemma AddLabelMeaning(env: Env, s: State, params: seq<Value>) returns (added: seq<string>)
    requires Valid(s) && exists t :: Names(env, params, t)
    ensures forall t :: t in added <==> Names(env, params, t) && t !in CurrentLabels(s)
    ensures var o := One(env, s, AddLabel, params);
            && o.error == None && o.applied == [AddLabel] && LabelsOnly(s, o.state)
            && (forall t :: t in CurrentLabels(o.state) <==> t in CurrentLabels(s) || Names(env, params, t))
            && if added == [] then o.state == s else Notes(s, o.state, LabelsAdded(added))
  {
    added := Select(TitlesParam(env.host, params), CurrentLabels(s), false);
    LabelRejects(env, s, params);
    AddedTitles(env, s, params);
    SelectLaws(TitlesParam(env.host, params), CurrentLabels(s), false);
    AllNamed(env, params);
  }

  /** remove_label leaves the labels there were except the named ones, and says which are gone. */
  lemma RemoveLabelMeaning(env: Env, s: State, params: seq<Value>) returns (gone: seq<string>)
    requires Valid(s) && exists t :: Names(env, params, t)
    ensures forall t :: t in gone <==> Names(env, params, t) && t in CurrentLabels(s)
    ensures var o := One(env, s, RemoveLabel, params);
            && o.error == None && o.applied == [RemoveLabel] && LabelsOnly(s, o.state)
            && (forall t :: t in CurrentLabels(o.state) <==> t in CurrentLabels(s) && !Names(env, params, t))
            && if gone == [] then o.state == s else Notes(s, o.state, LabelsRemoved(gone))
  {
    gone := Select(TitlesParam(env.host, params), CurrentLabels(s), true);
    LabelRejects(env, s, params);
    RemovedTitles(env, s, params);
    SelectLaws(TitlesParam(env.host, params), CurrentLabels(s), true);
    AllNamed(env, params);
  }

  lemma {:induction false} DistinctRepeatsNone(titles: seq<string>)
    ensures NoRepeats(Distinct(titles))
  {
    if titles != [] {
      DistinctRepeatsNone(titles[..|titles| - 1]);
    }
  }

  /** Setting the labels leaves exactly the titles given, cleaned, each once, in the rows and in the
      cache, and always publishes; nothing else changes. */
  lemma SetLabelsMeaning(env: Env, s: State, titles: seq<string>)
    requires Valid(s)
    ensures var s' := SetLabels(env, s, titles);
            && (forall t :: t in CurrentLabels(s')
                  <==> t != "" && exists i | 0 <= i < |titles| :: env.host.lower(env.host.trim(titles[i])) == t)
            && NoRepeats(CurrentLabels(s'))
            && s'.cachedLabels == Join(CurrentLabels(s'))
            && s'.events == s.events + [ConversationUpdated]
            && SameRow(s', s.(cachedLabels := s'.cachedLabels, events := s'.events))
  {
    SetLabelsLaw(env, s, titles);
    forall t ensures t in CleanTitles(env.host, titles)
      <==> t != "" && exists i | 0 <= i < |titles| :: env.host.lower(env.host.trim(titles[i])) == t
    {
      CleanTitlesMembers(env.host, titles, t);
    }
    var empty, normalized := s.(taggings := []), Distinct(CleanTitles(env.host, titles));
    CleanSubset(env.host, normalized, CleanTitles(env.host, titles));
    TagEachLaw(env, empty, normalized);
    assert CurrentLabels(empty) + normalized == normalized;
    DistinctRepeatsNone(CleanTitles(env.host, titles));
  }

  /** Tagging creates a label only when no label has the title, and leaves all others alone. */
  lemma LabelsMeaning(env: Env, s: State, title: string)
    requires Valid(s) && env.host.lower(env.host.trim(title)) == title
    ensures Tag(env, s, title).labels
         == if exists id | id in s.labels :: s.labels[id] == title then s.labels else s.labels[s.nextLabel := title]
  {
  }

  /** The cache joins the titles by a comma and a space. */
  lemma {:induction false} CacheMeaning(titles: seq<string>, last: string)
    ensures Join([]) == "" && Join([last]) == last
    ensures titles != [] ==> Join(titles + [last]) == Join(titles) + ", " + last
  {
    if |titles| > 1 {
      CacheMeaning(titles[1..], last);
      assert (titles + [last])[1..] == titles[1..] + [last];
    }
  }

  // ---- Snooze, mute, messages and webhooks ----

  /** The wake time that the first parameter gives, in epoch seconds: a number as it is, a date in
      whole seconds. */
  predicate WakesAt(env: Env, params: seq<Value>, at: real) {
    && params != []
    && if params[0].Num? then at == params[0].n
       else && params[0] !in {Null, Undefined, Bool(false), Str("")}
            && var ms := env.host.parseDate(env.host.text(params[0]));
               ms.Some? && at == at.Floor as real && 1000 * at.Floor <= ms.value < 1000 * at.Floor + 1000
  }

  /** Snoozing sets status and wake time and always notes and publishes. */
  lemma SnoozeMeaning(env: Env, s: State, name: ActionName, params: seq<Value>, at: real)
    requires name in {SnoozeShort, SnoozeConversation} && WakesAt(env, params, at)
    ensures var o := One(env, s, name, params);
            && o.error == None && o.applied == [name]
            && o.state == s.(status := Snoozed, snoozedUntil := Some(at),
                             messages := s.messages + [ActivityMessage(WasSnoozed)],
                             events := s.events + [ConversationUpdated])
  {
    OneIs(env, s, name, params);
    if !params[0].Num? {
      var ms := env.host.parseDate(env.host.text(params[0])).value;
      assert ms / 1000 == at.Floor;
    }
  }

  lemma EpochWakes(env: Env, params: seq<Value>)
    ensures var epoch := SnoozeEpoch(env.host, params); epoch.Some? ==> WakesAt(env, params, epoch.value)
  {
    var epoch := SnoozeEpoch(env.host, params);
    if epoch.Some? && !params[0].Num? {
      var ms := env.host.parseDate(env.host.text(params[0])).value;
      assert 1000 * (ms / 1000) <= ms < 1000 * (ms / 1000) + 1000;
    }
  }

  /** What gives no wake time is rejected. */
  lemma SnoozeRejects(env: Env, s: State, name: ActionName, params: seq<Value>)
    requires name in {SnoozeShort, SnoozeConversation} && forall at: real :: !WakesAt(env, params, at)
    ensures Rejects(One(env, s, name, params), s, Unprocessable)
  {
    EpochWakes(env, params);
    OneIs(env, s, name, params);
  }

  /** Muting blocks the contact, if there is one, unless the parameter says false; it always
      publishes and posts nothing. */
  lemma MuteMeaning(env: Env, s: State, params: seq<Value>)
    ensures var o := One(env, s, MuteConversation, params);
            var muted := params == [] || params[0] !in {Bool(false), Str("false")};
            && o.error == None && o.applied == [MuteConversation]
            && o.state == s.(blocked := if s.contact.Some? then muted else s.blocked,
                             events := s.events + [ConversationUpdated])
  {
    OneIs(env, s, MuteConversation, params);
  }

  /** A message is posted and published and updates the conversation, a note is posted and
      published only; empty text is rejected. */
  lemma PostMeaning(env: Env, s: State, params: seq<Value>)
    ensures var o, text := One(env, s, SendMessage, params), FirstText(env, params);
            if text == "" then Rejects(o, s, Unprocessable)
            else && o.error == None && o.applied == [SendMessage]
                 && o.state == s.(messages := s.messages + [Outgoing(text)],
                                  events := s.events + [MessageCreated(text), ConversationUpdated])
    ensures var o, text := One(env, s, AddPrivateNote, params), FirstText(env, params);
            if text == "" then Rejects(o, s, Unprocessable)
            else && o.error == None && o.applied == [AddPrivateNote]
                 && o.state == s.(messages := s.messages + [PrivateNote(text)],
                                  events := s.events + [MessageCreated(text)])
  {
    OneIs(env, s, SendMessage, params);
    OneIs(env, s, AddPrivateNote, params);
    var text := FirstText(env, params);
    assert s.events + [MessageCreated(text)] + [ConversationUpdated]
        == s.events + [MessageCreated(text), ConversationUpdated];
  }

  /** A webhook changes nothing here; it fails without an address or when the address does. */
  lemma WebhookMeaning(env: Env, s: State, params: seq<Value>)
    ensures var o, url := One(env, s, SendWebhookEvent, params), FirstText(env, params);
            if url == "" then Rejects(o, s, Unprocessable)
            else if !env.delivers(url) then Rejects(o, s, DeliveryFailed)
            else o.error == None && o.applied == [SendWebhookEvent] && o.state == s
  {
    OneIs(env, s, SendWebhookEvent, params);
  }

  lemma UnsupportedMeaning(env: Env, s: State, name: ActionName, params: seq<Value>)
    requires name in {SendEmailToTeam, SendAttachment, SendEmailTranscript} || name.Other?
    ensures Rejects(One(env, s, name, params), s, Unprocessable)
  {
    OneIs(env, s, name, params);
  }

  // ---- Lists ----

  /** A list runs its first part and, unless that throws, the rest from where it ended. */
  lemma {:induction false} RunSplits(
    env: Env, s: State, changed: bool, applied: seq<ActionName>, a: seq<ActionItem>, b: seq<ActionItem>)
    ensures RunFrom(env, s, changed, applied, a + b)
         == (var first := RunFrom(env, s, changed, applied, a);
             if first.error.Some? then first else RunFrom(env, first.state, first.changed, first.applied, b))
    decreases |a|
  {
    if a == [] {
      assert a + b == b;
    } else {
      assert (a + b)[1..] == a[1..] + b;
      if Decode(env, a[0]).Do? {
        var e := Exec(env, s, Decode(env, a[0]).op);
        RunSplits(env, e.state, changed || e.changed, applied + [a[0].name], a[1..], b);
      }
    }
  }
}
