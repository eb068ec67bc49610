// The action interpreter shared by macros and automation rules, seen from one
// conversation: its row, its contact's `blocked` column, the account's labels, the
// conversation's taggings and messages, and what is published on the event bus.

module ConversationActions {
  import opened Prelude
  import opened JsValues
  import opened ConversationFields
  import Conditions

  // ---- Decoding `{ action_name, action_params }` ----

  /** The `action_name` strings the executor or the rule validation knows. */
  datatype ActionName =
    | AssignAgent | RemoveAssignedAgent | AssignTeam | RemoveAssignedTeam
    | AddLabel | RemoveLabel | SendMessage | AddPrivateNote
    | ChangeStatus | ResolveConversation | OpenConversation | PendingConversation
    | ChangePriority | SnoozeShort | SnoozeConversation | MuteConversation | SendWebhookEvent
    | SendEmailToTeam | SendAttachment | SendEmailTranscript | Other(text: string)

  datatype ActionItem = ActionItem(name: ActionName, params: seq<Value>)

  datatype Op =
    | SetAssignee(agent: Option<int>)
    | SetTeam(team: Option<int>)
    | AddLabels(titles: seq<string>)
    | RemoveLabels(titles: seq<string>)
    | PostMessage(content: string)
    | PostNote(content: string)
    | SetStatus(status: Status)
    | SetPriority(priority: Option<int>)
    | Snooze(until: real)
    | Mute(muted: bool)
    | PostWebhook(url: string)

  datatype Error = Unprocessable | NotFound | DeliveryFailed

  datatype Decoded = Do(op: Op) | Fail(error: Error)

  function Clean(host: Host, s: string): string {
    host.lower(host.trim(s))
  }

  /** trim().toLowerCase() applied twice is the same as applied once. */
  ghost predicate CleansOnce(host: Host) {
    forall s :: Clean(host, Clean(host, s)) == Clean(host, s)
  }

  type TextHost = h: Host | CleansOnce(h)
    witness Host(_ => None, _ => "", s => s, s => s, _ => None)

  /** What the actions only read: the account's members and teams, and which
      webhook addresses answer with success. */
  datatype Env = Env(host: TextHost, members: set<int>, teams: set<int>, delivers: string -> bool)

  function StrParam(host: Host, params: seq<Value>): Option<string> {
    if params == [] || IsNullish(params[0]) then None
    else
      var s := host.trim(host.text(params[0]));
      if s == "" then None else Some(s)
  }

  function NumParam(host: Host, params: seq<Value>): Option<int> {
    if params == [] || IsNullish(params[0]) || params[0] == Str("") then None
    else
      var n := host.number(params[0]);
      if n.Some? && n.value == n.value.Floor as real then Some(n.value.Floor) else None
  }

  ghost predicate AllClean(host: Host, titles: seq<string>) {
    forall i | 0 <= i < |titles| :: titles[i] != "" && Clean(host, titles[i]) == titles[i]
  }

  function CleanTitles(host: Host, raw: seq<string>): (titles: seq<string>)
    ensures CleansOnce(host) ==> AllClean(host, titles)
  {
    if raw == [] then []
    else
      var title := Clean(host, raw[0]);
      (if title == "" then [] else [title]) + CleanTitles(host, raw[1..])
  }

  function TitleItems(params: seq<Value>): seq<Value> {
    var raw := if |params| > 1 then List(params) else Conditions.FirstOr(params);
    if raw.List? then raw.items else [raw]
  }

  function TitleText(host: Host, v: Value): string {
    if IsNullish(v) then "" else host.text(v)
  }

  function RawTitles(host: Host, items: seq<Value>): (titles: seq<string>)
    ensures |titles| == |items| && forall i | 0 <= i < |items| :: titles[i] == TitleText(host, items[i])
  {
    seq(|items|, i requires 0 <= i < |items| => TitleText(host, items[i]))
  }

  function TitlesParam(host: Host, params: seq<Value>): seq<string> {
    CleanTitles(host, RawTitles(host, TitleItems(params)))
  }

  function StatusNamed(name: string): Option<Status> {
    if name == "open" then Some(Open)
    else if name == "resolved" then Some(Resolved)
    else if name == "pending" then Some(Pending)
    else if name == "snoozed" then Some(Snoozed)
    else None
  }

  function PriorityNamed(name: string): Option<Option<int>> {
    if name == "none" then Some(None)
    else if name == "low" then Some(Some(1))
    else if name == "medium" then Some(Some(2))
    else if name == "high" then Some(Some(3))
    else if name == "urgent" then Some(Some(4))
    else None
  }

  predicate Falsy(v: Value) {
    IsNullish(v) || v == Bool(false) || v == Num(0.0) || v == Str("")
  }

  function SnoozeEpoch(host: Host, params: seq<Value>): Option<real> {
    var raw := Conditions.FirstOr(params);
    if raw.Num? then Some(raw.n)
    else if Falsy(raw) then None
    else
      var ms := host.parseDate(host.text(raw));
      if ms.Some? then Some((ms.value / 1000) as real) else None
  }

  function Demand<T>(value: Option<T>, op: T -> Op): Decoded {
    if value.Some? then Do(op(value.value)) else Fail(Unprocessable)
  }

  function Decode(env: Env, item: ActionItem): Decoded {
    var p := item.params;
    match item.name
    case AssignAgent =>
      var id := NumParam(env.host, p);
      if id.None? then Fail(Unprocessable)
      else if id.value !in env.members then Fail(NotFound)
      else Do(SetAssignee(id))
    case RemoveAssignedAgent => Do(SetAssignee(None))
    case AssignTeam =>
      var id := NumParam(env.host, p);
      if id.None? then Fail(Unprocessable)
      else if id.value !in env.teams then Fail(NotFound)
      else Do(SetTeam(id))
    case RemoveAssignedTeam => Do(SetTeam(None))
    case AddLabel =>
      var titles := TitlesParam(env.host, p);
      if titles == [] then Fail(Unprocessable) else Do(AddLabels(titles))
    case RemoveLabel =>
      var titles := TitlesParam(env.host, p);
      if titles == [] then Fail(Unprocessable) else Do(RemoveLabels(titles))
    case SendMessage => Demand(StrParam(env.host, p), c => PostMessage(c))
    case AddPrivateNote => Demand(StrParam(env.host, p), c => PostNote(c))
    case ChangeStatus => Demand(StatusNamed(StrParam(env.host, p).GetOr("")), s => SetStatus(s))
    case ResolveConversation => Do(SetStatus(Resolved))
    case OpenConversation => Do(SetStatus(Open))
    case PendingConversation => Do(SetStatus(Pending))
    case ChangePriority => Demand(PriorityNamed(StrParam(env.host, p).GetOr("")), q => SetPriority(q))
    case SnoozeShort => Demand(SnoozeEpoch(env.host, p), t => Snooze(t))
    case SnoozeConversation => Demand(SnoozeEpoch(env.host, p), t => Snooze(t))
    case MuteConversation => Do(Mute(p == [] || (p[0] != Bool(false) && p[0] != Str("false"))))
    case SendWebhookEvent =>
      var url := StrParam(env.host, p);
      if url.None? then Fail(Unprocessable)
      else if !env.delivers(url.value) then Fail(DeliveryFailed)
      else Do(PostWebhook(url.value))
    case _ => Fail(Unprocessable)
  }

  /** The titles an operation names are clean and nonempty. */
  ghost predicate WellFormed(env: Env, op: Op) {
    (op.AddLabels? || op.RemoveLabels?) ==> AllClean(env.host, op.titles)
  }

  // ---- The rows the interpreter works on ----

  datatype Activity =
    | AssignedTo(agent: Option<int>) | TeamSet(team: Option<int>)
    | LabelsAdded(titles: seq<string>) | LabelsRemoved(titles: seq<string>)
    | MarkedAs(status: Status) | PriorityChanged(priority: Option<int>) | WasSnoozed

  datatype Message = ActivityMessage(what: Activity) | Outgoing(content: string) | PrivateNote(content: string)

  datatype Event = MessageCreated(content: string) | ConversationUpdated

  datatype State = State(
    assignee: Option<int>, team: Option<int>, status: Status, priority: Option<int>,
    snoozedUntil: Option<real>, contact: Option<int>, blocked: bool, cachedLabels: string,
    labels: map<int, string>, nextLabel: int, taggings: seq<int>,
    messages: seq<Message>, events: seq<Event>
  )

  /** Label titles are unique in the account; ids are issued in increasing order. */
  ghost predicate Valid(s: State) {
    && (forall i, j | i in s.labels && j in s.labels && s.labels[i] == s.labels[j] :: i == j)
    && (forall i | i in s.labels :: i < s.nextLabel)
    && (forall i | i in s.taggings :: i < s.nextLabel)
  }

  /** Titles of the taggings, by inner join with the labels, empty titles dropped. */
  function Titles(labels: map<int, string>, taggings: seq<int>): seq<string> {
    if taggings == [] then []
    else
      var id := taggings[0];
      (if id in labels && labels[id] != "" then [labels[id]] else []) + Titles(labels, taggings[1..])
  }

  function CurrentLabels(s: State): seq<string> {
    Titles(s.labels, s.taggings)
  }

  function Join(titles: seq<string>): string {
    if titles == [] then ""
    else if |titles| == 1 then titles[0]
    else titles[0] + ", " + Join(titles[1..])
  }

  ghost function LabelId(labels: map<int, string>, title: string): Option<int> {
    if id :| id in labels && labels[id] == title then Some(id) else None
  }

  /** ensureLabel followed by the insertion of one tagging. */
  ghost function Tag(env: Env, s: State, title: string): State {
    var clean := Clean(env.host, title);
    var found := LabelId(s.labels, clean);
    if found.Some? then s.(taggings := s.taggings + [found.value])
    else s.(labels := s.labels[s.nextLabel := clean],
            nextLabel := s.nextLabel + 1,
            taggings := s.taggings + [s.nextLabel])
  }

  ghost function TagEach(env: Env, s: State, titles: seq<string>): State
    decreases |titles|
  {
    if titles == [] then s else TagEach(env, Tag(env, s, titles[0]), titles[1..])
  }

  function Without(taggings: seq<int>, id: int): seq<int> {
    if taggings == [] then []
    else (if taggings[0] == id then [] else [taggings[0]]) + Without(taggings[1..], id)
  }

  ghost function Untag(s: State, title: string): State {
    var found := LabelId(s.labels, title);
    if found.Some? then s.(taggings := Without(s.taggings, found.value)) else s
  }

  ghost function UntagEach(s: State, titles: seq<string>): State
    decreases |titles|
  {
    if titles == [] then s else UntagEach(Untag(s, titles[0]), titles[1..])
  }

  function Select(titles: seq<string>, have: seq<string>, keep: bool): seq<string> {
    if titles == [] then []
    else (if (titles[0] in have) == keep then [titles[0]] else []) + Select(titles[1..], have, keep)
  }

  function Note(s: State, what: Activity): State {
    s.(messages := s.messages + [ActivityMessage(what)])
  }

  function RefreshCache(s: State): State {
    s.(cachedLabels := Join(CurrentLabels(s)))
  }

  datatype Effect = Effect(state: State, changed: bool)

  /** One action: the new rows and whether it sets the `changed` flag. */
  ghost function Exec(env: Env, s: State, op: Op): Effect {
    match op
    case SetAssignee(a) =>
      if s.assignee == a then Effect(s, false) else Effect(Note(s.(assignee := a), AssignedTo(a)), true)
    case SetTeam(t) =>
      if s.team == t then Effect(s, false) else Effect(Note(s.(team := t), TeamSet(t)), true)
    case AddLabels(titles) =>
      var missing := Select(titles, CurrentLabels(s), false);
      if missing == [] then Effect(s, false)
      else Effect(Note(RefreshCache(TagEach(env, s, missing)), LabelsAdded(missing)), true)
    case RemoveLabels(titles) =>
      var doomed := Select(titles, CurrentLabels(s), true);
      if doomed == [] then Effect(s, false)
      else Effect(Note(RefreshCache(UntagEach(s, doomed)), LabelsRemoved(doomed)), true)
    case PostMessage(c) =>
      Effect(s.(messages := s.messages + [Outgoing(c)], events := s.events + [MessageCreated(c)]), true)
    case PostNote(c) =>
      Effect(s.(messages := s.messages + [PrivateNote(c)], events := s.events + [MessageCreated(c)]), false)
    case SetStatus(v) =>
      if s.status == v then Effect(s, false) else Effect(Note(s.(status := v), MarkedAs(v)), true)
    case SetPriority(p) =>
      if s.priority == p then Effect(s, false) else Effect(Note(s.(priority := p), PriorityChanged(p)), true)
    case Snooze(until) =>
      Effect(Note(s.(status := Snoozed, snoozedUntil := Some(until)), WasSnoozed), true)
    case Mute(muted) =>
      Effect(if s.contact.Some? then s.(blocked := muted) else s, true)
    case PostWebhook(_) => Effect(s, false)
  }

  datatype Outcome = Outcome(state: State, changed: bool, applied: seq<ActionName>, error: Option<Error>)

  /** The loop over the action list; it stops at the first action that throws, and
      what the earlier ones wrote stays. */
  ghost function RunFrom(env: Env, s: State, changed: bool, applied: seq<ActionName>, items: seq<ActionItem>): Outcome
    decreases |items|
  {
    if items == [] then Outcome(s, changed, applied, None)
    else
      match Decode(env, items[0])
      case Fail(e) => Outcome(s, changed, applied, Some(e))
      case Do(op) =>
        var eff := Exec(env, s, op);
        RunFrom(env, eff.state, changed || eff.changed, applied + [items[0].name], items[1..])
  }

  ghost predicate Publishes(o: Outcome) {
    o.error.None? && o.changed
  }

  /** applyActionItems: the loop, then one publication when something changed. */
  ghost function Apply(env: Env, s: State, items: seq<ActionItem>): Outcome {
    var o := RunFrom(env, s, false, [], items);
    if Publishes(o) then o.(state := o.state.(events := o.state.events + [ConversationUpdated])) else o
  }

  function Distinct(titles: seq<string>): (r: seq<string>)
    ensures forall t :: t in r <==> t in titles
  {
    if titles == [] then []
    else
      var init := Distinct(titles[..|titles| - 1]);
      var last := titles[|titles| - 1];
      assert titles == titles[..|titles| - 1] + [last];
      if last in init then init else init + [last]
  }

  /** setConversationLabels: replaces the taggings by the given titles. */
  ghost function SetLabels(env: Env, s: State, titles: seq<string>): State {
    var normalized := Distinct(CleanTitles(env.host, titles));
    var tagged := TagEach(env, s.(taggings := []), normalized);
    tagged.(cachedLabels := Join(normalized), events := tagged.events + [ConversationUpdated])
  }
}
