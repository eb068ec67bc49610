// The clock fields of a conversation: waitingSince, firstReplyCreatedAt, status and
// snoozedUntil, and how they follow from the history of what happened to it.

module ConversationClock {
  import opened Prelude
  import opened ConversationFields

  datatype Row = Row(status: Status, snoozedUntil: Option<int>, waitingSince: Option<int>, firstReply: Option<int>)

  datatype Step =
    | Incoming(at: int)                                            // createIncomingMessage
    | AgentMessage(at: int, isPrivate: bool, allowed: bool)        // sendAgentMessage
    | Toggle(status: Option<Status>, until: Option<int>, allowed: bool) // toggleConversationStatus
    | Mute(muted: bool, allowed: bool)                             // muteConversation
    | RuleMessage(at: int)                                         // send_message of a rule or macro
    | RuleStatus(to: Status)                                      // change_status of a rule or macro
    | RuleSnooze(wake: int)                                           // snooze of a rule or macro
    | SnoozeTick(now: int)                                         // the job that ends snoozes

  datatype Outcome = Done(row: Row) | Refused

  /** A snooze time of 0 counts as missing. */
  function WakeTime(until: Option<int>): Option<int> {
    if until == Some(0) then None else until
  }

  function Next(row: Row, step: Step): Outcome {
    match step
    case Incoming(at) =>
      Done(row.(waitingSince := WaitingFrom(row.waitingSince, at), status := Reopened(row.status)))
    case AgentMessage(at, isPrivate, allowed) =>
      if !allowed || row.status == Snoozed then Refused
      else if isPrivate then Done(row)
      else Done(row.(firstReply := if row.firstReply.None? then Some(at) else row.firstReply, waitingSince := None))
    case Toggle(status, until, allowed) =>
      if !allowed || status.None? || (status.value == Snoozed && WakeTime(until).None?) then Refused
      else Done(row.(status := status.value, snoozedUntil := if status.value == Snoozed then until else None))
    case Mute(muted, allowed) =>
      if !allowed then Refused else Done(if muted then row.(status := Resolved) else row)
    case RuleMessage(_) => Done(row)
    case RuleStatus(status) => Done(row.(status := status))
    case RuleSnooze(until) => Done(row.(status := Snoozed, snoozedUntil := Some(until)))
    case SnoozeTick(now) =>
      if row.status == Snoozed && row.snoozedUntil.Some? && row.snoozedUntil.value < now
      then Done(row.(status := Open, snoozedUntil := None)) else Done(row)
  }

  /** A conversation as created: with a first agent message at `at`, or without. */
  function Created(status: Status, firstMessage: Option<int>): Row {
    Row(status, None, None, firstMessage)
  }

  function After(row: Row, steps: seq<Step>): Row {
    if steps == [] then row
    else
      var before := After(row, steps[..|steps| - 1]);
      var o := Next(before, steps[|steps| - 1]);
      if o.Done? then o.row else before
  }

  /** The message log of a run: the steps that were not refused. */
  function Accepted(row: Row, steps: seq<Step>): seq<Step> {
    if steps == [] then []
    else
      var init := steps[..|steps| - 1];
      var last := steps[|steps| - 1];
      Accepted(row, init) + if Next(After(row, init), last).Done? then [last] else []
  }

  predicate IsReply(s: Step) {
    s.AgentMessage? && !s.isPrivate
  }

  // ---- waitingSince ----

  /** Some public agent message lies between positions i and n of the log. */
  predicate AnsweredBy(log: seq<Step>, i: int, n: int) {
    exists j | i < j < n && 0 <= j < |log| :: IsReply(log[j])
  }

  /** Incoming message i is the first one that follows the last public agent message. */
  predicate WaitsFrom(log: seq<Step>, i: int) {
    && 0 <= i < |log| && log[i].Incoming?
    && !AnsweredBy(log, i, |log|)
    && forall k | 0 <= k < i && log[k].Incoming? :: AnsweredBy(log, k, i)
  }

  predicate AllAnswered(log: seq<Step>) {
    forall k | 0 <= k < |log| && log[k].Incoming? :: AnsweredBy(log, k, |log|)
  }

  ghost predicate WaitingFits(log: seq<Step>, waitingSince: Option<int>) {
    if waitingSince.None? then AllAnswered(log)
    else exists i :: WaitsFrom(log, i) && log[i].at == waitingSince.value
  }

  lemma AnsweredGrows(log: seq<Step>, s: Step, i: int, n: int)
    requires n <= |log|
    ensures AnsweredBy(log, i, n) == AnsweredBy(log + [s], i, n)
  {
    forall j | i < j < n && 0 <= j < |log| ensures (log + [s])[j] == log[j] {
    }
    if AnsweredBy(log, i, n) {
      var j :| i < j < n && 0 <= j < |log| && IsReply(log[j]);
      assert IsReply((log + [s])[j]);
    }
  }

  /** What appending one entry to the log does to the two states of waiting. */
  lemma WaitingStep(log: seq<Step>, s: Step, waitingSince: Option<int>)
    requires WaitingFits(log, waitingSince)
    ensures IsReply(s) ==> WaitingFits(log + [s], None)
    ensures s.Incoming? ==> WaitingFits(log + [s], if waitingSince.None? then Some(s.at) else waitingSince)
    ensures !IsReply(s) && !s.Incoming? ==> WaitingFits(log + [s], waitingSince)
  {
    var n := |log|;
    var grown := log + [s];
    forall i, m | m <= n ensures AnsweredBy(grown, i, m) == AnsweredBy(log, i, m) {
      AnsweredGrows(log, s, i, m);
    }
    assert forall i | i < n && AnsweredBy(grown, i, n) :: AnsweredBy(grown, i, n + 1);
    assert grown[n] == s;
    if IsReply(s) {
      assert forall k | 0 <= k < n && grown[k].Incoming? :: AnsweredBy(grown, k, n + 1);
    } else {
      assert forall i | AnsweredBy(grown, i, n + 1) :: AnsweredBy(grown, i, n);
      if waitingSince.Some? {
        var i :| WaitsFrom(log, i) && log[i].at == waitingSince.value;
        assert WaitsFrom(grown, i);
      } else if s.Incoming? {
        assert WaitsFrom(grown, n);
      }
    }
  }

  /** waitingSince is null exactly when every incoming message was answered by a later
      public agent message; otherwise it is the time of the first unanswered one. */
  lemma {:induction false} WaitingRefinesLog(status: Status, firstMessage: Option<int>, steps: seq<Step>)
    ensures var row := Created(status, firstMessage);
            WaitingFits(Accepted(row, steps), After(row, steps).waitingSince)
  {
    var row := Created(status, firstMessage);
    if steps != [] {
      var init, last := steps[..|steps| - 1], steps[|steps| - 1];
      WaitingRefinesLog(status, firstMessage, init);
      var before := After(row, init);
      if Next(before, last).Done? {
        WaitingStep(Accepted(row, init), last, before.waitingSince);
      } else {
        assert Accepted(row, steps) == Accepted(row, init);
      }
    }
  }

  /** The two cases exclude each other and the waiting message is unique, so the log
      determines the field. */
  lemma WaitingDetermined(log: seq<Step>, a: Option<int>, b: Option<int>)
    requires WaitingFits(log, a) && WaitingFits(log, b)
    ensures a == b
  {
  }

  // ---- firstReplyCreatedAt ----

  predicate FirstReplyAt(log: seq<Step>, i: int) {
    0 <= i < |log| && IsReply(log[i]) && forall k | 0 <= k < i :: !IsReply(log[k])
  }

  ghost predicate FirstReplyFits(log: seq<Step>, firstMessage: Option<int>, firstReply: Option<int>) {
    if firstMessage.Some? then firstReply == firstMessage
    else if firstReply.None? then forall k | 0 <= k < |log| :: !IsReply(log[k])
    else exists i :: FirstReplyAt(log, i) && log[i].at == firstReply.value
  }

  lemma FirstReplyStep(log: seq<Step>, s: Step, firstMessage: Option<int>, firstReply: Option<int>)
    requires FirstReplyFits(log, firstMessage, firstReply)
    ensures FirstReplyFits(log + [s], firstMessage,
                           if IsReply(s) && firstReply.None? then Some(s.at) else firstReply)
  {
    var grown := log + [s];
    if firstMessage.None? {
      if firstReply.Some? {
        var i :| FirstReplyAt(log, i) && log[i].at == firstReply.value;
        assert FirstReplyAt(grown, i);
      } else if IsReply(s) {
        assert FirstReplyAt(grown, |log|);
      }
    }
  }

  /** firstReplyCreatedAt is the time of the message the conversation was created with,
      or else of the first public agent message, and null as long as there is none. */
  lemma {:induction false} FirstReplyRefinesLog(status: Status, firstMessage: Option<int>, steps: seq<Step>)
    ensures var row := Created(status, firstMessage);
            FirstReplyFits(Accepted(row, steps), firstMessage, After(row, steps).firstReply)
  {
    var row := Created(status, firstMessage);
    if steps != [] {
      var init, last := steps[..|steps| - 1], steps[|steps| - 1];
      FirstReplyRefinesLog(status, firstMessage, init);
      var before := After(row, init);
      if Next(before, last).Done? {
        FirstReplyStep(Accepted(row, init), last, firstMessage, before.firstReply);
      } else {
        assert Accepted(row, steps) == Accepted(row, init);
      }
    }
  }

  /** Once set it never changes. */
  lemma {:induction false} FirstReplyStays(row: Row, steps: seq<Step>)
    requires row.firstReply.Some?
    ensures After(row, steps).firstReply == row.firstReply
  {
    if steps != [] {
      FirstReplyStays(row, steps[..|steps| - 1]);
    }
  }

  // ---- Status ----

  predicate Resolves(s: Step) {
    (s.Toggle? && s.status == Some(Resolved)) || (s.RuleStatus? && s.to == Resolved) || (s.Mute? && s.muted)
  }

  predicate Unresolves(s: Step) {
    s.Incoming? || s.RuleSnooze? || (s.Toggle? && s.status != Some(Resolved)) || (s.RuleStatus? && s.to != Resolved)
  }

  /** Entry r resolved the conversation (-1: it started resolved), and nothing since undid that. */
  predicate ResolvedSince(log: seq<Step>, initially: bool, r: int) {
    && -1 <= r < |log|
    && (if r == -1 then initially else Resolves(log[r]))
    && forall k | r < k < |log| && 0 <= k :: !Unresolves(log[k])
  }

  ghost predicate ResolvedBy(log: seq<Step>, initially: bool) {
    exists r :: ResolvedSince(log, initially, r)
  }

  lemma ResolvedSnoc(log: seq<Step>, s: Step, initially: bool)
    ensures ResolvedBy(log + [s], initially) <==> Resolves(s) || (ResolvedBy(log, initially) && !Unresolves(s))
  {
    var grown := log + [s];
    if Resolves(s) {
      assert ResolvedSince(grown, initially, |log|);
    }
    if r :| ResolvedSince(log, initially, r) {
      assert !Unresolves(s) ==> ResolvedSince(grown, initially, r);
    }
    if r :| ResolvedSince(grown, initially, r) {
      if r < |log| {
        assert !Unresolves(grown[|log|]);
        assert forall k | 0 <= k < |log| :: grown[k] == log[k];
        assert ResolvedSince(log, initially, r);
      }
    }
  }

  /** In every run a conversation is resolved exactly when some accepted step resolved it
      and neither an incoming message nor another status has followed. */
  lemma {:induction false} ResolvedIff(row: Row, steps: seq<Step>)
    ensures After(row, steps).status == Resolved <==> ResolvedBy(Accepted(row, steps), row.status == Resolved)
  {
    if steps == [] {
      assert row.status == Resolved ==> ResolvedSince([], true, -1);
    } else {
      var init := steps[..|steps| - 1];
      ResolvedIff(row, init);
      assert Accepted(row, init) + [] == Accepted(row, init);
      ResolvedSnoc(Accepted(row, init), steps[|steps| - 1], row.status == Resolved);
    }
  }

  /** In no run is a conversation resolved right after an incoming message, and a send
      is refused exactly on a snoozed conversation or without access. */
  lemma StatusLaws(row: Row, steps: seq<Step>, last: Step)
    ensures last.Incoming? ==> After(row, steps + [last]).status != Resolved
    ensures last.AgentMessage? && (After(row, steps).status == Snoozed || !last.allowed)
            ==> After(row, steps + [last]) == After(row, steps) && Accepted(row, steps + [last]) == Accepted(row, steps)
    ensures last.AgentMessage? && last.allowed && After(row, steps).status != Snoozed
            ==> Accepted(row, steps + [last]) == Accepted(row, steps) + [last]
  {
  }

  // ---- Which status, and until when ----

  /** The step sets the status: an accepted toggle, a rule, or muting. */
  predicate SetsStatus(s: Step) {
    || (s.Toggle? && s.allowed && s.status.Some? && (s.status == Some(Snoozed) ==> s.until.Some? && s.until.value != 0))
    || s.RuleStatus? || s.RuleSnooze? || (s.Mute? && s.allowed && s.muted)
  }

  predicate IncomingFrom(steps: seq<Step>, n: nat) {
    exists k | n <= k < |steps| :: steps[k].Incoming?
  }

  /** The job has run after the wake time. */
  predicate TickedFrom(steps: seq<Step>, n: nat, until: int) {
    exists k | n <= k < |steps| :: steps[k].SnoozeTick? && until < steps[k].now
  }

  lemma SinceGrows(steps: seq<Step>, n: nat, until: int)
    requires n < |steps|
    ensures var init, last := steps[..|steps| - 1], steps[|steps| - 1];
            && IncomingFrom(steps, n) == (IncomingFrom(init, n) || last.Incoming?)
            && TickedFrom(steps, n, until) == (TickedFrom(init, n, until) || (last.SnoozeTick? && until < last.now))
  {
  }

  /** Two things change a status that no step sets: an incoming message opens a resolved
      conversation, and the job opens a snoozed one after its wake time and clears that. */
  predicate StatusFollows(status: Status, until: Option<int>, steps: seq<Step>, n: nat, now: Row) {
    if status == Resolved && IncomingFrom(steps, n) then now.status == Open && now.snoozedUntil == until
    else if status == Snoozed && until.Some? && TickedFrom(steps, n, until.value) then
      now.status == Open && now.snoozedUntil == None
    else now.status == status && now.snoozedUntil == until
  }

  lemma {:induction false} StatusSince(row: Row, steps: seq<Step>, n: nat)
    requires n <= |steps| && forall k | n <= k < |steps| :: !SetsStatus(steps[k])
    ensures var from := After(row, steps[..n]);
            StatusFollows(from.status, from.snoozedUntil, steps, n, After(row, steps))
  {
    if n == |steps| {
      assert steps[..n] == steps;
    } else {
      var init := steps[..|steps| - 1];
      var from := After(row, steps[..n]);
      assert init[..n] == steps[..n];
      StatusSince(row, init, n);
      SinceGrows(steps, n, from.snoozedUntil.GetOr(0));
    }
  }

  /** In every run the last step that sets the status decides it: it leaves the status it asks for,
      and the wake time when it snoozes. A toggle to another status drops the wake time; a rule's
      change_status and muting leave it. */
  lemma StatusOfRun(row: Row, steps: seq<Step>, r: nat)
    requires r < |steps| && SetsStatus(steps[r])
    requires forall k | r < k < |steps| :: !SetsStatus(steps[k])
    ensures var s := steps[r];
            var status := if s.Toggle? then s.status.value
                          else if s.RuleStatus? then s.to
                          else if s.RuleSnooze? then Snoozed else Resolved;
            var until := if s.Toggle? then (if status == Snoozed then s.until else None)
                         else if s.RuleSnooze? then Some(s.wake) else After(row, steps[..r]).snoozedUntil;
            StatusFollows(status, until, steps, r + 1, After(row, steps))
  {
    assert steps[..r + 1][..r] == steps[..r];
    StatusSince(row, steps, r + 1);
  }

  /** In a run without such a step, the status the conversation was created with decides. */
  lemma StatusAsCreated(status: Status, firstMessage: Option<int>, steps: seq<Step>)
    requires forall k | 0 <= k < |steps| :: !SetsStatus(steps[k])
    ensures StatusFollows(status, None, steps, 0, After(Created(status, firstMessage), steps))
  {
    StatusSince(Created(status, firstMessage), steps, 0);
  }

  // ---- The service ----

  class ConversationService {
    var status: Status
    var snoozedUntil: Option<int>
    var waitingSince: Option<int>
    var firstReply: Option<int>

    function Fields(): Row
      reads this
    {
      Row(status, snoozedUntil, waitingSince, firstReply)
    }

    constructor (status: Status, firstMessage: Option<int>)
      ensures Fields() == Created(status, firstMessage)
    {
      this.status, snoozedUntil, waitingSince, firstReply := status, None, None, firstMessage;
    }

    method CreateIncomingMessage(at: int)
      modifies this
      ensures Done(Fields()) == Next(old(Fields()), Incoming(at))
    {
      if waitingSince.None? {
        waitingSince := Some(at);
      }
      if status == Resolved {
        status := Open;
      }
    }

    method SendAgentMessage(at: int, isPrivate: bool, allowed: bool) returns (sent: bool)
      modifies this
      ensures var o := Next(old(Fields()), AgentMessage(at, isPrivate, allowed));
              sent == o.Done? && Fields() == if o.Done? then o.row else old(Fields())
    {
      if !allowed || status == Snoozed {
        return false;
      }
      if !isPrivate && firstReply.None? {
        firstReply := Some(at);
      }
      if !isPrivate {
        waitingSince := None;
      }
      sent := true;
    }

    method ToggleConversationStatus(next: Option<Status>, until: Option<int>, allowed: bool) returns (toggled: bool)
      modifies this
      ensures var o := Next(old(Fields()), Toggle(next, until, allowed));
              toggled == o.Done? && Fields() == if o.Done? then o.row else old(Fields())
    {
      if !allowed || next.None? || (next.value == Snoozed && WakeTime(until).None?) {
        return false;
      }
      status := next.value;
      snoozedUntil := if next.value == Snoozed && WakeTime(until).Some? then until else None;
      toggled := true;
    }

    method MuteConversation(muted: bool, allowed: bool) returns (done: bool)
      modifies this
      ensures var o := Next(old(Fields()), Mute(muted, allowed));
              done == o.Done? && Fields() == if o.Done? then o.row else old(Fields())
    {
      if !allowed {
        return false;
      }
      if muted && status != Resolved {
        status := Resolved;
      }
      done := true;
    }

    method SnoozeJob(now: int)
      modifies this
      ensures Done(Fields()) == Next(old(Fields()), SnoozeTick(now))
    {
      if status == Snoozed && snoozedUntil.Some? && snoozedUntil.value < now {
        status, snoozedUntil := Open, None;
      }
    }
  }
}
