// applyActionItems and setConversationLabels as the service runs them: row by row
// on the tables of one conversation. Every method is tied to its specification in
// ConversationActions.

module ConversationStores {
  import opened Prelude
  import opened JsValues
  import opened ConversationActions
  import opened ConversationFields
  import Laws = ActionLaws

  lemma {:induction false} SelectSnoc(titles: seq<string>, last: string, have: seq<string>, keep: bool)
    ensures Select(titles + [last], have, keep)
         == Select(titles, have, keep) + (if (last in have) == keep then [last] else [])
  {
    if titles == [] {
      assert titles + [last] == [last];
    } else {
      assert (titles + [last])[1..] == titles[1..] + [last];
      SelectSnoc(titles[1..], last, have, keep);
    }
  }

  lemma TagEachNothing(env: Env, s: State)
    ensures TagEach(env, s, []) == s
  {
  }

  lemma {:induction false} TagEachSnoc(env: Env, s: State, titles: seq<string>, last: string)
    ensures TagEach(env, s, titles + [last]) == Tag(env, TagEach(env, s, titles), last)
    decreases |titles|
  {
    if titles == [] {
      assert titles + [last] == [last];
      TagEachNothing(env, Tag(env, s, last));
    } else {
      assert (titles + [last])[1..] == titles[1..] + [last];
      TagEachSnoc(env, Tag(env, s, titles[0]), titles[1..], last);
    }
  }

  lemma RunStep(env: Env, s: State, changed: bool, applied: seq<ActionName>, items: seq<ActionItem>, i: nat)
    requires i < |items| && Valid(s)
    ensures var d := Decode(env, items[i]);
            if d.Fail? then RunFrom(env, s, changed, applied, items[i..]) == Outcome(s, changed, applied, Some(d.error))
            else
              var eff := Exec(env, s, d.op);
              && WellFormed(env, d.op)
              && Valid(eff.state)
              && RunFrom(env, s, changed, applied, items[i..])
                 == RunFrom(env, eff.state, changed || eff.changed, applied + [items[i].name], items[i + 1..])
  {
    assert items[i..][0] == items[i] && items[i..][1..] == items[i + 1..];
    var d := Decode(env, items[i]);
    if d.Do? {
      assert Laws.Performed(env, [items[i]])[0] == d.op;
      Laws.ExecWrites(env, s, d.op, Laws.Assignee);
    }
  }

  class ConversationStore {
    var assignee: Option<int>
    var team: Option<int>
    var status: Status
    var priority: Option<int>
    var snoozedUntil: Option<real>
    var contact: Option<int>
    var blocked: bool
    var cachedLabels: string
    var labels: map<int, string>
    var nextLabel: int
    var taggings: seq<int>
    var messages: seq<Message>
    var events: seq<Event>

    function Rows(): State
      reads this
    {
      State(assignee, team, status, priority, snoozedUntil, contact, blocked, cachedLabels,
            labels, nextLabel, taggings, messages, events)
    }

    method CreateActivityMessage(what: Activity)
      modifies this`messages
      ensures Rows() == Note(old(Rows()), what)
    {
      messages := messages + [ActivityMessage(what)];
    }

    method RefreshLabelCache()
      modifies this`cachedLabels
      ensures Rows() == RefreshCache(old(Rows()))
      ensures Laws.CacheCurrent(Rows())
    {
      cachedLabels := Join(Titles(labels, taggings));
    }

    method EnsureLabel(env: Env, title: string) returns (id: int)
      requires Valid(Rows())
      modifies this`labels, this`nextLabel
      ensures Rows().(taggings := old(taggings) + [id]) == Tag(env, old(Rows()), title)
      ensures taggings == old(taggings)
    {
      var normalized := Clean(env.host, title);
      if existing :| existing in labels && labels[existing] == normalized {
        id := existing;
      } else {
        id := nextLabel;
        labels := labels[id := normalized];
        nextLabel := nextLabel + 1;
      }
    }

    method AddTagging(env: Env, title: string)
      requires Valid(Rows())
      modifies this
      ensures Rows() == Tag(env, old(Rows()), title)
    {
      var id := EnsureLabel(env, title);
      taggings := taggings + [id];
    }

    method AddLabelRows(env: Env, titles: seq<string>) returns (added: seq<string>)
      requires Valid(Rows()) && WellFormed(env, AddLabels(titles))
      modifies this
      ensures added == Select(titles, CurrentLabels(old(Rows())), false)
      ensures Rows() == TagEach(env, old(Rows()), added)
    {
      var have := Titles(labels, taggings);
      ghost var s0 := Rows();
      added := [];
      TagEachNothing(env, s0);
      for i := 0 to |titles|
        invariant Valid(Rows())
        invariant added == Select(titles[..i], have, false)
        invariant Rows() == TagEach(env, s0, added)
      {
        SelectSnoc(titles[..i], titles[i], have, false);
        assert titles[..i + 1] == titles[..i] + [titles[i]];
        if titles[i] !in have {
          Laws.TagLaw(env, Rows(), titles[i]);
          TagEachSnoc(env, s0, added, titles[i]);
          AddTagging(env, titles[i]);
          added := added + [titles[i]];
        }
      }
      assert titles[..|titles|] == titles;
    }

    method RemoveTagging(title: string)
      requires Valid(Rows()) && title != ""
      modifies this
      ensures Rows() == Untag(old(Rows()), title)
      ensures Valid(Rows())
    {
      Laws.UntagLaw(Rows(), title, "");
      if id :| id in labels && labels[id] == title {
        taggings := Without(taggings, id);
      }
    }

    method RemoveLabelRows(env: Env, titles: seq<string>) returns (doomed: seq<string>)
      requires Valid(Rows()) && WellFormed(env, RemoveLabels(titles))
      modifies this
      ensures doomed == Select(titles, CurrentLabels(old(Rows())), true)
      ensures Rows() == UntagEach(old(Rows()), doomed)
    {
      doomed := Select(titles, Titles(labels, taggings), true);
      Laws.SelectLaws(titles, CurrentLabels(Rows()), true);
      Laws.CleanSubset(env.host, doomed, titles);
      for i := 0 to |doomed|
        invariant Valid(Rows())
        invariant UntagEach(Rows(), doomed[i..]) == UntagEach(old(Rows()), doomed)
      {
        assert doomed[i..][0] == doomed[i] && doomed[i..][1..] == doomed[i + 1..];
        RemoveTagging(doomed[i]);
      }
    }

    method Execute(env: Env, op: Op) returns (changed: bool)
      requires Valid(Rows()) && WellFormed(env, op)
      modifies this
      ensures Effect(Rows(), changed) == Exec(env, old(Rows()), op)
    {
      changed := false;
      match op {
        case SetAssignee(a) =>
          if assignee != a {
            assignee := a;
            CreateActivityMessage(AssignedTo(a));
            changed := true;
          }
        case SetTeam(t) =>
          if team != t {
            team := t;
            CreateActivityMessage(TeamSet(t));
            changed := true;
          }
        case AddLabels(titles) =>
          var added := AddLabelRows(env, titles);
          if added != [] {
            RefreshLabelCache();
            CreateActivityMessage(LabelsAdded(added));
            changed := true;
          }
        case RemoveLabels(titles) =>
          var doomed := RemoveLabelRows(env, titles);
          if doomed != [] {
            RefreshLabelCache();
            CreateActivityMessage(LabelsRemoved(doomed));
            changed := true;
          }
        case PostMessage(content) =>
          messages := messages + [Outgoing(content)];
          events := events + [MessageCreated(content)];
          changed := true;
        case PostNote(content) =>
          messages := messages + [PrivateNote(content)];
          events := events + [MessageCreated(content)];
        case SetStatus(next) =>
          if status != next {
            status := next;
            CreateActivityMessage(MarkedAs(next));
            changed := true;
          }
        case SetPriority(next) =>
          if priority != next {
            priority := next;
            CreateActivityMessage(PriorityChanged(next));
            changed := true;
          }
        case Snooze(until) =>
          status, snoozedUntil := Snoozed, Some(until);
          CreateActivityMessage(WasSnoozed);
          changed := true;
        case Mute(muted) =>
          if contact.Some? {
            blocked := muted;
          }
          changed := true;
        case PostWebhook(_) =>
      }
    }

    /** The loop of applyActionItems; a throwing action leaves it at once and keeps
        what the earlier ones wrote. */
    method RunActions(env: Env, items: seq<ActionItem>)
      returns (changed: bool, applied: seq<ActionName>, error: Option<Error>)
      requires Valid(Rows())
      modifies this
      ensures Outcome(Rows(), changed, applied, error) == RunFrom(env, old(Rows()), false, [], items)
    {
      ghost var s0 := Rows();
      applied, error, changed := [], None, false;
      assert items[0..] == items;
      for i := 0 to |items|
        invariant Valid(Rows())
        invariant RunFrom(env, Rows(), changed, applied, items[i..]) == RunFrom(env, s0, false, [], items)
      {
        RunStep(env, Rows(), changed, applied, items, i);
        var decoded := Decode(env, items[i]);
        if decoded.Fail? {
          error := Some(decoded.error);
          return;
        }
        var acted := Execute(env, decoded.op);
        changed := changed || acted;
        applied := applied + [items[i].name];
      }
    }

    /** One publication at the end, when no action threw and something changed. */
    method ApplyActionItems(env: Env, items: seq<ActionItem>)
      returns (applied: seq<ActionName>, error: Option<Error>, published: bool)
      requires Valid(Rows())
      modifies this
      ensures var o := Apply(env, old(Rows()), items);
              Rows() == o.state && applied == o.applied && error == o.error && published == Publishes(o)
      ensures Valid(Rows())
    {
      Laws.ApplyKeeps(env, Rows(), items);
      published, applied, error := RunActions(env, items);
      published := published && error.None?;
      if published {
        events := events + [ConversationUpdated];
      }
    }

    method SetConversationLabels(env: Env, titles: seq<string>)
      requires Valid(Rows())
      modifies this
      ensures Rows() == SetLabels(env, old(Rows()), titles)
      ensures Valid(Rows()) && Laws.CacheCurrent(Rows())
    {
      ghost var s0 := Rows();
      Laws.SetLabelsLaw(env, s0, titles);
      var normalized := Distinct(CleanTitles(env.host, titles));
      Laws.CleanSubset(env.host, normalized, CleanTitles(env.host, titles));
      taggings := [];
      ghost var empty := Rows();
      for i := 0 to |normalized|
        invariant Valid(Rows())
        invariant TagEach(env, Rows(), normalized[i..]) == TagEach(env, empty, normalized)
      {
        Laws.TagLaw(env, Rows(), normalized[i]);
        AddTagging(env, normalized[i]);
        assert normalized[i..][1..] == normalized[i + 1..];
      }
      cachedLabels := Join(normalized);
      events := events + [ConversationUpdated];
    }
  }
}
