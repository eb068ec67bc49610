// Delayed rule executions: the table of pending executions, armed by rules with a
// delay, discarded when their rule is edited, and run by a periodic sweep.

module DelayedExecutions {
  import opened Prelude

  const OPEN: int := 0
  const CLAIMED: int := 1
  const DONE: int := 2
  const ERRED: int := 3
  const SKIPPED: int := 4
  const BATCH: nat := 50

  /** `conv:<status>` or `message:<id>`. */
  datatype Episode = OfStatus(status: int) | OfMessage(message: int)

  /** The unique index of the table. */
  datatype Key = Key(rule: int, conversation: int, episode: Episode)

  datatype Row = Row(id: nat, key: Key, message: Option<int>, dueAt: int, status: int)

  datatype Rule = Rule(active: bool, delayMinutes: Option<nat>, onMessage: bool, definition: int)

  datatype Event =
    | Armed(row: Row)
    | Edited(rule: int)
    | Claim(row: Row)
    | Finish(row: Row, status: int, at: int)

  datatype Db = Db(rules: map<int, Rule>, rows: set<Row>, nextId: nat, now: int, log: seq<Event>)

  // ---- executeRuleOn ----

  datatype Verdict = Executed | NotRun | Delayed

  predicate Taken(rows: set<Row>, key: Key) {
    exists row | row in rows :: row.key == key
  }

  /** Insertion that does nothing on a conflict with the unique index. */
  function Arm(db: Db, key: Key, message: Option<int>, delay: nat): Db {
    if Taken(db.rows, key) then db
    else
      var row := Row(db.nextId, key, message, db.now + delay * 60_000, OPEN);
      db.(rows := db.rows + {row}, nextId := db.nextId + 1, log := db.log + [Armed(row)])
  }

  /** A rule meets an event on a conversation; `holds` is the outcome of loading the
      facts and matching the conditions. */
  function Trigger(db: Db, id: int, conversation: int, status: int, message: Option<int>, holds: bool): (Db, Verdict) {
    if id !in db.rules || !db.rules[id].active || !holds then (db, NotRun)
    else
      var rule := db.rules[id];
      if rule.delayMinutes.Some? && !rule.onMessage then
        (Arm(db, Key(id, conversation, OfStatus(status)), message, rule.delayMinutes.value), Delayed)
      else if rule.delayMinutes.Some? && message.Some? then
        (Arm(db, Key(id, conversation, OfMessage(message.value)), message, rule.delayMinutes.value), Delayed)
      else (db, Executed)
  }

  // ---- updateAutomationRule ----

  function Kept(rows: set<Row>, rule: int): set<Row> {
    set row | row in rows && !(row.key.rule == rule && row.status == OPEN)
  }

  function Edit(db: Db, id: int, next: Rule): Db {
    if id !in db.rules then db
    else db.(rules := db.rules[id := next], rows := Kept(db.rows, id), log := db.log + [Edited(id)])
  }

  // ---- processDueExecutions ----

  datatype RunResult = ConversationGone | NoLongerMatches | Ran | Threw

  function WithStatus(rows: set<Row>, id: nat, status: int): set<Row> {
    set row | row in rows :: if row.id == id then row.(status := status) else row
  }

  function FinalStatus(db: Db, row: Row, result: RunResult): int {
    if row.key.rule !in db.rules || !db.rules[row.key.rule].active then SKIPPED
    else match result
      case ConversationGone => SKIPPED
      case NoLongerMatches => SKIPPED
      case Ran => DONE
      case Threw => ERRED
  }

  function Process(db: Db, row: Row, result: RunResult): Db {
    var claimed := db.(rows := WithStatus(db.rows, row.id, CLAIMED), log := db.log + [Claim(row)]);
    var status := FinalStatus(db, row, result);
    claimed.(rows := WithStatus(claimed.rows, row.id, status),
             log := claimed.log + [Finish(row, status, db.now)])
  }

  function ProcessAll(db: Db, batch: seq<Row>, results: Row -> RunResult): Db
    decreases |batch|
  {
    if batch == [] then db
    else ProcessAll(Process(db, batch[0], results(batch[0])), batch[1..], results)
  }

  function DoneIn(db: Db, batch: seq<Row>, results: Row -> RunResult): nat {
    if batch == [] then 0
    else (if FinalStatus(db, batch[0], results(batch[0])) == DONE then 1 else 0) + DoneIn(db, batch[1..], results)
  }

  predicate IsDue(db: Db, row: Row) {
    row.status == OPEN && row.dueAt <= db.now
  }

  function Due(db: Db): set<Row> {
    set row | row in db.rows && IsDue(db, row)
  }

  predicate DistinctRows(batch: seq<Row>) {
    forall i, j | 0 <= i < j < |batch| :: batch[i] != batch[j]
  }

  /** What the query `status = 0 and due_at <= now limit 50` may return: it has no
      order, so any selection of that size. */
  predicate IsBatch(db: Db, batch: seq<Row>) {
    && DistinctRows(batch)
    && (forall i | 0 <= i < |batch| :: batch[i] in Due(db))
    && |batch| == (if |Due(db)| < BATCH then |Due(db)| else BATCH)
  }

  // ---- Runs ----

  datatype Step =
    | OnEvent(rule: int, conversation: int, status: int, message: Option<int>, holds: bool)
    | UpdateRule(rule: int, next: Rule)
    | CreateRule(rule: int, next: Rule)
    | DeleteRule(rule: int)
    | Wait(ms: nat)
    | Sweep(batch: seq<Row>, results: Row -> RunResult)

  predicate Enabled(db: Db, step: Step) {
    match step
    case Sweep(batch, _) => IsBatch(db, batch)
    case CreateRule(id, _) => id !in db.rules
    case _ => true
  }

  function Next(db: Db, step: Step): Db {
    match step
    case OnEvent(id, conversation, status, message, holds) =>
      Trigger(db, id, conversation, status, message, holds).0
    case UpdateRule(id, next) => Edit(db, id, next)
    case CreateRule(id, next) => db.(rules := db.rules[id := next])
    case DeleteRule(id) => db.(rules := db.rules - {id})
    case Wait(ms) => db.(now := db.now + ms)
    case Sweep(batch, results) => ProcessAll(db, batch, results)
  }

  predicate IsRun(db: Db, steps: seq<Step>)
    decreases |steps|
  {
    steps == [] || (Enabled(db, steps[0]) && IsRun(Next(db, steps[0]), steps[1..]))
  }

  function Run(db: Db, steps: seq<Step>): Db
    decreases |steps|
  {
    if steps == [] then db else Run(Next(db, steps[0]), steps[1..])
  }

  function Start(rules: map<int, Rule>, now: int): Db {
    Db(rules, {}, 0, now, [])
  }

  // ---- The history of one execution ----

  function StatusWrite(e: Event, id: nat): seq<int> {
    match e
    case Armed(row) => if row.id == id then [OPEN] else []
    case Claim(row) => if row.id == id then [CLAIMED] else []
    case Finish(row, status, _) => if row.id == id then [status] else []
    case Edited(_) => []
  }

  /** The statuses written to row `id`, in order. */
  function Trace(log: seq<Event>, id: nat): seq<int> {
    if log == [] then [] else Trace(log[..|log| - 1], id) + StatusWrite(log[|log| - 1], id)
  }

  lemma TraceSnoc(log: seq<Event>, e: Event, id: nat)
    ensures Trace(log + [e], id) == Trace(log, id) + StatusWrite(e, id)
  {
  }

  predicate Ended(status: int) {
    status == DONE || status == ERRED || status == SKIPPED
  }

  ghost predicate RowsUnique(db: Db) {
    && (forall a, b | a in db.rows && b in db.rows && (a.id == b.id || a.key == b.key) :: a == b)
    && (forall row | row in db.rows :: row.id < db.nextId && (row.status == OPEN || Ended(row.status)))
  }

  ghost predicate TracesFit(db: Db) {
    && (forall row | row in db.rows ::
          Trace(db.log, row.id) == if row.status == OPEN then [OPEN] else [OPEN, CLAIMED, row.status])
    && (forall id: nat | id >= db.nextId :: Trace(db.log, id) == [])
    && (forall id: nat | id < db.nextId && (forall row | row in db.rows :: row.id != id) :: Trace(db.log, id) == [OPEN])
  }

  /** Every execution that ended is still in the table, ended, under its key. */
  ghost predicate EndsStay(db: Db) {
    forall e | e in db.log && e.Finish? ::
      && e.row.dueAt <= e.at
      && exists row :: row in db.rows && row == e.row.(status := e.status) && Ended(e.status)
  }

  predicate ArmedAt(log: seq<Event>, i: int, row: Row) {
    0 <= i < |log| && log[i] == Armed(row)
  }

  predicate NoEditAfter(log: seq<Event>, i: int, rule: int) {
    forall k | 0 <= k < |log| && i < k :: log[k] != Edited(rule)
  }

  /** An open row was armed after the last edit of its rule. */
  ghost predicate ArmedSinceEdit(log: seq<Event>, row: Row) {
    exists i :: ArmedAt(log, i, row) && NoEditAfter(log, i, row.key.rule)
  }

  ghost predicate OpenRowsFresh(db: Db) {
    && (forall row | row in db.rows && row.status == OPEN :: ArmedSinceEdit(db.log, row))
    && (forall k | 0 <= k < |db.log| && db.log[k].Claim? :: ArmedSinceEdit(db.log[..k], db.log[k].row))
  }

  ghost predicate LogUnique(db: Db) {
    && (forall e | e in db.log && e.Armed? :: e.row.id < db.nextId)
    && (forall i, j | 0 <= i < j < |db.log| && db.log[i].Armed? && db.log[j].Armed? ::
          db.log[i].row.id != db.log[j].row.id)
    && (forall i, j | 0 <= i < j < |db.log| && db.log[i].Finish? && db.log[j].Finish? ::
          db.log[i].row.key != db.log[j].row.key)
    && (forall k | 0 <= k < |db.log| && db.log[k].Finish? :: k > 0 && db.log[k - 1] == Claim(db.log[k].row))
  }

  ghost predicate Inv(db: Db) {
    RowsUnique(db) && TracesFit(db) && EndsStay(db) && OpenRowsFresh(db) && LogUnique(db)
  }

  // ---- Every step keeps the invariant ----

  lemma ArmTraces(db: Db, key: Key, message: Option<int>, delay: nat)
    requires RowsUnique(db) && TracesFit(db) && !Taken(db.rows, key)
    ensures TracesFit(Arm(db, key, message, delay))
  {
    var after := Arm(db, key, message, delay);
    var e := after.log[|db.log|];
    forall id: nat ensures Trace(after.log, id) == Trace(db.log, id) + StatusWrite(e, id) {
      TraceSnoc(db.log, e, id);
    }
    assert e.row in after.rows;
  }

  lemma ArmEnds(db: Db, key: Key, message: Option<int>, delay: nat)
    requires EndsStay(db) && !Taken(db.rows, key)
    ensures EndsStay(Arm(db, key, message, delay))
  {
  }

  /** Facts about the old log that survive an append. */
  lemma LogGrows(db: Db, after: Db, e: Event)
    requires OpenRowsFresh(db) && after.log == db.log + [e]
    ensures forall row | row in db.rows && row.status == OPEN && e != Edited(row.key.rule) ::
              ArmedSinceEdit(after.log, row)
    ensures forall k | 0 <= k < |db.log| && db.log[k].Claim? :: ArmedSinceEdit(after.log[..k], after.log[k].row)
  {
    forall row | row in db.rows && row.status == OPEN && e != Edited(row.key.rule)
      ensures ArmedSinceEdit(after.log, row)
    {
      var i :| ArmedAt(db.log, i, row) && NoEditAfter(db.log, i, row.key.rule);
      assert ArmedAt(after.log, i, row) && NoEditAfter(after.log, i, row.key.rule);
    }
    forall k | 0 <= k < |db.log| && db.log[k].Claim?
      ensures ArmedSinceEdit(after.log[..k], after.log[k].row)
    {
      assert after.log[..k] == db.log[..k];
    }
  }

  lemma ArmFresh(db: Db, key: Key, message: Option<int>, delay: nat)
    requires OpenRowsFresh(db) && !Taken(db.rows, key)
    ensures OpenRowsFresh(Arm(db, key, message, delay))
  {
    var after := Arm(db, key, message, delay);
    var e := after.log[|db.log|];
    LogGrows(db, after, e);
    assert ArmedAt(after.log, |db.log|, e.row);
  }

  lemma LogSnoc(db: Db, after: Db, e: Event)
    requires LogUnique(db) && after.log == db.log + [e] && db.nextId <= after.nextId
    requires e.Armed? ==> db.nextId <= e.row.id < after.nextId
    requires e.Finish? ==> db.log != [] && db.log[|db.log| - 1] == Claim(e.row)
    requires e.Finish? ==> forall i | 0 <= i < |db.log| && db.log[i].Finish? :: db.log[i].row.key != e.row.key
    ensures LogUnique(after)
  {
    assert forall i | 0 <= i < |db.log| :: db.log[i] in db.log;
  }

  lemma ArmLog(db: Db, key: Key, message: Option<int>, delay: nat)
    requires LogUnique(db) && !Taken(db.rows, key)
    ensures LogUnique(Arm(db, key, message, delay))
  {
    var after := Arm(db, key, message, delay);
    LogSnoc(db, after, after.log[|db.log|]);
  }

  lemma ArmUnique(db: Db, key: Key, message: Option<int>, delay: nat)
    requires RowsUnique(db) && !Taken(db.rows, key)
    ensures RowsUnique(Arm(db, key, message, delay))
  {
  }

  lemma ArmKeeps(db: Db, key: Key, message: Option<int>, delay: nat)
    requires Inv(db)
    ensures Inv(Arm(db, key, message, delay))
  {
    if !Taken(db.rows, key) {
      ArmTraces(db, key, message, delay);
      ArmEnds(db, key, message, delay);
      ArmFresh(db, key, message, delay);
      ArmLog(db, key, message, delay);
      ArmUnique(db, key, message, delay);
    }
  }

  lemma EditTraces(db: Db, id: int, next: Rule)
    requires TracesFit(db) && id in db.rules
    requires forall a, b | a in db.rows && b in db.rows && a.id == b.id :: a == b
    ensures TracesFit(Edit(db, id, next))
  {
    var after := Edit(db, id, next);
    forall r: nat ensures Trace(after.log, r) == Trace(db.log, r) {
      TraceSnoc(db.log, Edited(id), r);
    }
    forall r: nat | r < after.nextId && (forall row | row in after.rows :: row.id != r)
      ensures Trace(after.log, r) == [OPEN]
    {
      if row :| row in db.rows && row.id == r {
        assert row.status == OPEN;
      }
    }
  }

  lemma EditEnds(db: Db, id: int, next: Rule)
    requires EndsStay(db) && id in db.rules
    ensures EndsStay(Edit(db, id, next))
  {
    var after := Edit(db, id, next);
    forall e | e in after.log && e.Finish?
      ensures e.row.dueAt <= e.at && e.row.(status := e.status) in after.rows && Ended(e.status)
    {
      assert e in db.log;
    }
  }

  lemma EditFresh(db: Db, id: int, next: Rule)
    requires OpenRowsFresh(db) && id in db.rules
    ensures OpenRowsFresh(Edit(db, id, next))
  {
    LogGrows(db, Edit(db, id, next), Edited(id));
  }

  lemma EditLog(db: Db, id: int, next: Rule)
    requires RowsUnique(db) && LogUnique(db) && id in db.rules
    ensures LogUnique(Edit(db, id, next)) && RowsUnique(Edit(db, id, next))
  {
    LogSnoc(db, Edit(db, id, next), Edited(id));
  }

  lemma EditKeeps(db: Db, id: int, next: Rule)
    requires Inv(db)
    ensures Inv(Edit(db, id, next))
  {
    if id in db.rules {
      EditTraces(db, id, next);
      EditEnds(db, id, next);
      EditFresh(db, id, next);
      EditLog(db, id, next);
    }
  }

  lemma ProcessRows(db: Db, row: Row, result: RunResult)
    requires RowsUnique(db) && row in db.rows
    ensures var after := Process(db, row, result);
            after.rows == db.rows - {row} + {row.(status := FinalStatus(db, row, result))}
  {
  }

  lemma ProcessTrace(db: Db, row: Row, result: RunResult, id: nat)
    ensures Trace(Process(db, row, result).log, id)
         == Trace(db.log, id) + (if row.id == id then [CLAIMED, FinalStatus(db, row, result)] else [])
  {
    TraceSnoc(db.log, Claim(row), id);
    TraceSnoc(db.log + [Claim(row)], Finish(row, FinalStatus(db, row, result), db.now), id);
  }

  lemma ProcessTraces(db: Db, row: Row, result: RunResult)
    requires RowsUnique(db) && TracesFit(db) && row in db.rows && row.status == OPEN
    ensures TracesFit(Process(db, row, result))
  {
    var after := Process(db, row, result);
    ProcessRows(db, row, result);
    forall r | r in after.rows
      ensures Trace(after.log, r.id) == if r.status == OPEN then [OPEN] else [OPEN, CLAIMED, r.status]
    {
      ProcessTrace(db, row, result, r.id);
      assert r in db.rows || r == row.(status := r.status);
    }
    forall id: nat | id >= after.nextId ensures Trace(after.log, id) == [] {
      ProcessTrace(db, row, result, id);
    }
    forall id: nat | id < after.nextId && (forall r | r in after.rows :: r.id != id)
      ensures Trace(after.log, id) == [OPEN]
    {
      ProcessTrace(db, row, result, id);
      assert row.(status := FinalStatus(db, row, result)) in after.rows;
    }
  }

  lemma ReplaceUnique(db: Db, row: Row, status: int, after: Db)
    requires RowsUnique(db) && row in db.rows && Ended(status)
    requires after.rows == db.rows - {row} + {row.(status := status)} && after.nextId == db.nextId
    ensures RowsUnique(after)
  {
    var ended := row.(status := status);
    forall a | a in after.rows && (a.id == row.id || a.key == row.key) ensures a == ended {
      assert a == ended || a in db.rows - {row};
    }
  }

  lemma ProcessUnique(db: Db, row: Row, result: RunResult)
    requires RowsUnique(db) && row in db.rows
    ensures RowsUnique(Process(db, row, result))
  {
    ProcessRows(db, row, result);
    ReplaceUnique(db, row, FinalStatus(db, row, result), Process(db, row, result));
  }

  lemma ProcessEnds(db: Db, row: Row, result: RunResult)
    requires Inv(db) && row in Due(db)
    ensures EndsStay(Process(db, row, result))
  {
    var after := Process(db, row, result);
    ProcessRows(db, row, result);
    forall e | e in after.log && e.Finish?
      ensures e.row.dueAt <= e.at
      ensures e.row.(status := e.status) in after.rows && Ended(e.status)
    {
      if e in db.log {
        assert e.row.(status := e.status) in db.rows;
      }
    }
  }

  lemma ProcessFresh(db: Db, row: Row, result: RunResult)
    requires Inv(db) && row in Due(db)
    ensures OpenRowsFresh(Process(db, row, result))
  {
    var after := Process(db, row, result);
    var mid := db.(log := db.log + [Claim(row)]);
    ProcessRows(db, row, result);
    LogGrows(db, mid, Claim(row));
    assert mid.log[..|db.log|] == db.log;
    LogGrows(mid, after, after.log[|mid.log|]);
  }

  lemma ProcessLog(db: Db, row: Row, result: RunResult)
    requires RowsUnique(db) && EndsStay(db) && LogUnique(db) && row in db.rows && row.status == OPEN
    ensures LogUnique(Process(db, row, result))
  {
    forall i | 0 <= i < |db.log| && db.log[i].Finish? ensures db.log[i].row.key != row.key {
      assert db.log[i] in db.log;
    }
    var after := Process(db, row, result);
    var claimed := db.(log := db.log + [Claim(row)]);
    LogSnoc(db, claimed, Claim(row));
    LogSnoc(claimed, after, after.log[|db.log| + 1]);
  }

  lemma ProcessKeeps(db: Db, row: Row, result: RunResult)
    requires Inv(db) && row in Due(db)
    ensures Inv(Process(db, row, result))
  {
    ProcessUnique(db, row, result);
    ProcessTraces(db, row, result);
    ProcessEnds(db, row, result);
    ProcessFresh(db, row, result);
    ProcessLog(db, row, result);
  }

  lemma ProcessDue(db: Db, row: Row, result: RunResult)
    requires RowsUnique(db) && row in Due(db)
    ensures Due(Process(db, row, result)) == Due(db) - {row}
  {
  }

  function DoneRows(rows: set<Row>): set<Row> {
    set row | row in rows && row.status == DONE
  }

  lemma ReplaceDone(rows: set<Row>, row: Row, ended: Row)
    requires row in rows && row.status == OPEN && ended !in rows
    ensures |DoneRows(rows - {row} + {ended})| == |DoneRows(rows)| + if ended.status == DONE then 1 else 0
  {
    assert DoneRows(rows - {row} + {ended}) == DoneRows(rows) + if ended.status == DONE then {ended} else {};
  }

  lemma ProcessDone(db: Db, row: Row, result: RunResult)
    requires RowsUnique(db) && row in db.rows && row.status == OPEN
    ensures |DoneRows(Process(db, row, result).rows)|
         == |DoneRows(db.rows)| + if FinalStatus(db, row, result) == DONE then 1 else 0
  {
    ProcessRows(db, row, result);
    var ended := row.(status := FinalStatus(db, row, result));
    assert ended.id == row.id && ended != row;
    assert ended !in db.rows;
    ReplaceDone(db.rows, row, ended);
  }

  ghost predicate AllDue(db: Db, batch: seq<Row>) {
    DistinctRows(batch) && forall i | 0 <= i < |batch| :: batch[i] in Due(db)
  }

  lemma RestStillDue(db: Db, next: Db, batch: seq<Row>)
    requires AllDue(db, batch) && batch != [] && Due(next) == Due(db) - {batch[0]}
    ensures AllDue(next, batch[1..]) && |Due(next)| == |Due(db)| - 1
  {
  }

  lemma {:induction false} SameRulesSameDone(db: Db, next: Db, batch: seq<Row>, results: Row -> RunResult)
    requires db.rules == next.rules
    ensures DoneIn(db, batch, results) == DoneIn(next, batch, results)
  {
    if batch != [] {
      SameRulesSameDone(db, next, batch[1..], results);
    }
  }

  /** A sweep over any selection of due rows keeps the invariant, clears exactly those
      rows, and its return value counts the rows that reached status 2. */
  lemma {:induction false} ProcessAllKeeps(db: Db, batch: seq<Row>, results: Row -> RunResult)
    requires Inv(db) && AllDue(db, batch)
    ensures var after := ProcessAll(db, batch, results);
            && Inv(after)
            && |Due(after)| == |Due(db)| - |batch|
            && |DoneRows(after.rows)| == |DoneRows(db.rows)| + DoneIn(db, batch, results)
    decreases |batch|
  {
    if batch != [] {
      var next := Process(db, batch[0], results(batch[0]));
      ProcessKeeps(db, batch[0], results(batch[0]));
      ProcessDue(db, batch[0], results(batch[0]));
      ProcessDone(db, batch[0], results(batch[0]));
      RestStillDue(db, next, batch);
      SameRulesSameDone(db, next, batch[1..], results);
      ProcessAllKeeps(next, batch[1..], results);
    }
  }

  lemma NextKeeps(db: Db, step: Step)
    requires Inv(db) && Enabled(db, step)
    ensures Inv(Next(db, step))
  {
    match step
    case OnEvent(id, conversation, status, message, holds) =>
      if id in db.rules && db.rules[id].delayMinutes.Some? {
        ArmKeeps(db, Key(id, conversation, OfStatus(status)), message, db.rules[id].delayMinutes.value);
        if message.Some? {
          ArmKeeps(db, Key(id, conversation, OfMessage(message.value)), message, db.rules[id].delayMinutes.value);
        }
      }
    case UpdateRule(id, next) => EditKeeps(db, id, next);
    case Sweep(batch, results) => ProcessAllKeeps(db, batch, results);
    case _ =>
  }

  lemma {:induction false} RunKeeps(db: Db, steps: seq<Step>)
    requires Inv(db) && IsRun(db, steps)
    ensures Inv(Run(db, steps))
    decreases |steps|
  {
    if steps != [] {
      NextKeeps(db, steps[0]);
      RunKeeps(Next(db, steps[0]), steps[1..]);
    }
  }

  // ---- Theorems about every run ----

  /** Statuses of an execution only go 0, 1, then one of 2, 3, 4. */
  lemma StatusPaths(rules: map<int, Rule>, now: int, steps: seq<Step>, id: nat)
    requires IsRun(Start(rules, now), steps)
    ensures Trace(Run(Start(rules, now), steps).log, id)
         in {[], [0], [0, 1, 2], [0, 1, 3], [0, 1, 4]}
  {
    var db := Run(Start(rules, now), steps);
    RunKeeps(Start(rules, now), steps);
    if row :| row in db.rows && row.id == id {
      assert row.status == OPEN || Ended(row.status);
    } else if id < db.nextId {
      assert Trace(db.log, id) == [OPEN];
    }
  }

  /** No execution ends before it is due, and it ends with one of the three final statuses. */
  lemma NeverEarly(rules: map<int, Rule>, now: int, steps: seq<Step>, i: nat)
    requires IsRun(Start(rules, now), steps)
    requires var log := Run(Start(rules, now), steps).log; i < |log| && log[i].Finish?
    ensures var e := Run(Start(rules, now), steps).log[i];
            e.row.dueAt <= e.at && e.status in {2, 3, 4}
  {
    RunKeeps(Start(rules, now), steps);
    var log := Run(Start(rules, now), steps).log;
    assert log[i] in log;
  }

  /** Each (rule, conversation, episode) ends, and so runs its actions to completion, at
      most once ever. */
  lemma EndsOnce(rules: map<int, Rule>, now: int, steps: seq<Step>, i: nat, j: nat)
    requires IsRun(Start(rules, now), steps)
    requires var log := Run(Start(rules, now), steps).log;
             i < j < |log| && log[i].Finish? && log[j].Finish?
    ensures var log := Run(Start(rules, now), steps).log;
            log[i].row.key != log[j].row.key
  {
    RunKeeps(Start(rules, now), steps);
  }

  /** No execution armed before an edit of its rule is run after that edit. */
  lemma EditDiscards(rules: map<int, Rule>, now: int, steps: seq<Step>, i: nat, j: nat, k: nat)
    requires IsRun(Start(rules, now), steps)
    requires var log := Run(Start(rules, now), steps).log;
             && i < j < k < |log|
             && log[k].Finish?
             && log[i].Armed? && log[i].row.id == log[k].row.id
    ensures var log := Run(Start(rules, now), steps).log;
            log[j] != Edited(log[k].row.key.rule)
  {
    RunKeeps(Start(rules, now), steps);
    var log := Run(Start(rules, now), steps).log;
    var row := log[k].row;
    assert log[k - 1] == Claim(row) && ArmedSinceEdit(log[..k - 1], row);
    var a :| ArmedAt(log[..k - 1], a, row) && NoEditAfter(log[..k - 1], a, row.key.rule);
    assert log[a] == Armed(row) && a == i;
    if j < k - 1 {
      assert log[..k - 1][j] == log[j];
    }
  }

  predicate OnlySweeps(steps: seq<Step>) {
    forall i | 0 <= i < |steps| :: steps[i].Sweep?
  }

  /** k due rows are cleared by exactly ceil(k / 50) sweeps: after n sweeps in a row
      max(0, k - 50 n) of them are left. */
  lemma {:induction false} SweepsClear(db: Db, steps: seq<Step>)
    requires Inv(db) && IsRun(db, steps) && OnlySweeps(steps)
    ensures |Due(Run(db, steps))|
         == if |Due(db)| <= 50 * |steps| then 0 else |Due(db)| - 50 * |steps|
    decreases |steps|
  {
    if steps != [] {
      assert steps[0].Sweep?;
      ProcessAllKeeps(db, steps[0].batch, steps[0].results);
      SweepsClear(Next(db, steps[0]), steps[1..]);
    }
  }

  // ---- What a rule arms, and when it runs ----

  predicate Applies(db: Db, step: Step) {
    step.OnEvent? && step.holds && step.rule in db.rules && db.rules[step.rule].active
  }

  /** The event meets an active matching rule with a delay; a rule on messages needs a message. */
  predicate Delays(db: Db, step: Step) {
    && Applies(db, step) && db.rules[step.rule].delayMinutes.Some?
    && (db.rules[step.rule].onMessage ==> step.message.Some?)
  }

  /** The episode of a rule on conversations is the status, that of a rule on messages the message. */
  function KeyFor(db: Db, step: Step): Key
    requires Delays(db, step)
  {
    Key(step.rule, step.conversation,
        if db.rules[step.rule].onMessage then OfMessage(step.message.value) else OfStatus(step.status))
  }

  /** When the delay of the rule, as it stands at the event, has passed. */
  function DueTime(db: Db, step: Step): int
    requires Delays(db, step)
  {
    db.now + db.rules[step.rule].delayMinutes.value * 60 * 1000
  }

  /** An event runs its rule at once, delays it or leaves it alone. It adds one row exactly when it
      delays the rule and the rule, conversation and episode have none yet. */
  lemma TriggerMeaning(db: Db, step: Step)
    requires step.OnEvent?
    ensures Trigger(db, step.rule, step.conversation, step.status, step.message, step.holds).1
         == if !Applies(db, step) then NotRun else if Delays(db, step) then Delayed else Executed
    ensures Next(db, step).rules == db.rules && Next(db, step).now == db.now
    ensures if Delays(db, step) && forall row | row in db.rows :: row.key != KeyFor(db, step)
            then Next(db, step).rows
                 == db.rows + {Row(db.nextId, KeyFor(db, step), step.message, DueTime(db, step), 0)}
            else Next(db, step).rows == db.rows
  {
  }

  /** The step arms the execution of this row, whatever its status has become. */
  predicate ArmedBy(db: Db, step: Step, row: Row) {
    Delays(db, step) && row.key == KeyFor(db, step) && row.message == step.message && row.dueAt == DueTime(db, step)
  }

  predicate SameExecution(a: Row, b: Row) {
    a.id == b.id && a.key == b.key && a.message == b.message && a.dueAt == b.dueAt
  }

  /** An armed row is due at exactly that time, as long as it is open. */
  lemma DueExactly(db: Db, step: Step, row: Row, later: Db)
    requires ArmedBy(db, step, row)
    ensures row in Due(later) <==> row in later.rows && row.status == 0 && later.now >= DueTime(db, step)
  {
  }

  lemma WithStatusRow(rows: set<Row>, id: nat, status: int, row: Row)
    requires row in WithStatus(rows, id, status)
    ensures exists before :: before in rows && SameExecution(before, row)
  {
    var before :| before in rows && row == if before.id == id then before.(status := status) else before;
    assert SameExecution(before, row);
  }

  lemma ProcessRow(db: Db, done: Row, result: RunResult, row: Row)
    requires row in Process(db, done, result).rows
    ensures exists before :: before in db.rows && SameExecution(before, row)
  {
    var claimed := WithStatus(db.rows, done.id, CLAIMED);
    WithStatusRow(claimed, done.id, FinalStatus(db, done, result), row);
    var mid :| mid in claimed && SameExecution(mid, row);
    WithStatusRow(db.rows, done.id, CLAIMED, mid);
    var before :| before in db.rows && SameExecution(before, mid);
    assert SameExecution(before, row);
  }

  lemma {:induction false} ProcessAllRows(db: Db, batch: seq<Row>, results: Row -> RunResult, row: Row)
    requires row in ProcessAll(db, batch, results).rows
    ensures exists before :: before in db.rows && SameExecution(before, row)
    decreases |batch|
  {
    if batch == [] {
      assert SameExecution(row, row);
    } else {
      var next := Process(db, batch[0], results(batch[0]));
      ProcessAllRows(next, batch[1..], results, row);
      var mid :| mid in next.rows && SameExecution(mid, row);
      ProcessRow(db, batch[0], results(batch[0]), mid);
      var first :| first in db.rows && SameExecution(first, mid);
      assert SameExecution(first, row);
    }
  }

  lemma NextRows(db: Db, step: Step, row: Row)
    requires row in Next(db, step).rows
    ensures ArmedBy(db, step, row) || exists before :: before in db.rows && SameExecution(before, row)
  {
    if step.Sweep? {
      ProcessAllRows(db, step.batch, step.results, row);
    } else if step.OnEvent? {
      TriggerMeaning(db, step);
      assert row in db.rows ==> SameExecution(row, row);
    } else {
      assert SameExecution(row, row);
    }
  }

  lemma {:induction false} RunSnoc(db: Db, steps: seq<Step>)
    requires steps != []
    ensures Run(db, steps) == Next(Run(db, steps[..|steps| - 1]), steps[|steps| - 1])
    decreases |steps|
  {
    if |steps| > 1 {
      RunSnoc(Next(db, steps[0]), steps[1..]);
      assert steps[1..][..|steps| - 2] == steps[..|steps| - 1][1..];
    }
  }

  /** Every row of the table was armed by some event of the run. */
  lemma {:induction false} EveryRowArmed(start: Db, steps: seq<Step>, row: Row) returns (j: nat)
    requires start.rows == {} && row in Run(start, steps).rows
    ensures j < |steps| && ArmedBy(Run(start, steps[..j]), steps[j], row)
    decreases |steps|
  {
    var n := |steps| - 1;
    assert steps != [];
    RunSnoc(start, steps);
    NextRows(Run(start, steps[..n]), steps[n], row);
    if ArmedBy(Run(start, steps[..n]), steps[n], row) {
      j := n;
    } else {
      var before :| before in Run(start, steps[..n]).rows && SameExecution(before, row);
      j := EveryRowArmed(start, steps[..n], before);
      assert steps[..n][..j] == steps[..j];
    }
  }

  /** Whatever ended was armed by an event of the run, for its rule, conversation and episode, and
      ended no earlier than the rule's delay, as it stood then, after that event. */
  lemma RunsAfterDelay(rules: map<int, Rule>, now: int, steps: seq<Step>, i: nat) returns (j: nat)
    requires IsRun(Start(rules, now), steps)
    requires var log := Run(Start(rules, now), steps).log; i < |log| && log[i].Finish?
    ensures j < |steps|
    ensures var e, before := Run(Start(rules, now), steps).log[i], Run(Start(rules, now), steps[..j]);
            ArmedBy(before, steps[j], e.row) && e.at >= DueTime(before, steps[j])
  {
    RunKeeps(Start(rules, now), steps);
    var db := Run(Start(rules, now), steps);
    var e := db.log[i];
    assert e in db.log;
    var ended := e.row.(status := e.status);
    j := EveryRowArmed(Start(rules, now), steps, ended);
  }

  lemma WithStatusOne(row: Row, status: int)
    ensures WithStatus({row}, row.id, status) == {row.(status := status)}
  {
    assert row in {row} && row.id == row.id;
  }

  /** On an empty table: the delayed execution is not due while the delay lasts, is the whole next
      batch once it has passed, and is then done if its rule acts. */
  lemma DelayThenRun(db: Db, step: Step, ms: nat, results: Row -> RunResult)
    requires db.rows == {} && Delays(db, step)
    ensures var row := Row(db.nextId, KeyFor(db, step), step.message, DueTime(db, step), 0);
            var waited := Next(Next(db, step), Wait(ms));
            && IsRun(db, [step, Wait(ms)])
            && if ms < db.rules[step.rule].delayMinutes.value * 60 * 1000 then Due(waited) == {}
               else && Due(waited) == {row} && Enabled(waited, Sweep([row], results))
                    && (results(row) == Ran ==> Next(waited, Sweep([row], results)).rows == {row.(status := 2)})
  {
    var row := Row(db.nextId, KeyFor(db, step), step.message, DueTime(db, step), 0);
    var waited := Next(Next(db, step), Wait(ms));
    TriggerMeaning(db, step);
    assert waited.rows == {row} && waited.now == db.now + ms && waited.rules == db.rules;
    WithStatusOne(row, CLAIMED);
    WithStatusOne(row.(status := CLAIMED), DONE);
    if ms >= db.rules[step.rule].delayMinutes.value * 60 * 1000 {
      assert Due(waited) == {row} && |[row]| == 1 && |{row}| == 1;
      assert ProcessAll(waited, [row], results) == Process(waited, row, results(row));
    }
  }

  /** Why an execution ends as it does. */
  lemma FinalStatusMeaning(db: Db, row: Row, result: RunResult)
    ensures var alive := row.key.rule in db.rules && db.rules[row.key.rule].active;
            && (FinalStatus(db, row, result) == 2 <==> alive && result == Ran)
            && (FinalStatus(db, row, result) == 3 <==> alive && result == Threw)
            && (FinalStatus(db, row, result) == 4 <==> !alive || result in {ConversationGone, NoLongerMatches})
  {
  }

  /** An edit replaces the rule and removes its open rows, no others. */
  lemma EditMeaning(db: Db, id: int, rule: Rule, row: Row)
    ensures var next := Next(db, UpdateRule(id, rule));
            if id in db.rules then
              && next.rules == db.rules[id := rule]
              && (row in next.rows <==> row in db.rows && !(row.key.rule == id && row.status == 0))
            else next == db
  {
  }

  // ---- The service ----

  class ExecutionService {
    var rules: map<int, Rule>
    var rows: set<Row>
    var nextId: nat
    var now: int
    ghost var log: seq<Event>

    ghost function Tables(): Db
      reads this
    {
      Db(rules, rows, nextId, now, log)
    }

    constructor (rules: map<int, Rule>, now: int)
      ensures Tables() == Start(rules, now)
    {
      this.rules, this.rows, this.nextId, this.now, this.log := rules, {}, 0, now, [];
    }

    method InsertPending(key: Key, message: Option<int>, delay: nat)
      modifies this
      ensures Tables() == Arm(old(Tables()), key, message, delay)
    {
      if !Taken(rows, key) {
        var row := Row(nextId, key, message, now + delay * 60_000, OPEN);
        rows := rows + {row};
        nextId := nextId + 1;
        log := log + [Armed(row)];
      }
    }

    method ExecuteRuleOn(id: int, conversation: int, status: int, message: Option<int>, holds: bool)
      returns (verdict: Verdict)
      modifies this
      ensures (Tables(), verdict) == Trigger(old(Tables()), id, conversation, status, message, holds)
    {
      if id !in rules || !rules[id].active || !holds {
        return NotRun;
      }
      var rule := rules[id];
      if rule.delayMinutes.Some? && !rule.onMessage {
        InsertPending(Key(id, conversation, OfStatus(status)), message, rule.delayMinutes.value);
        return Delayed;
      }
      if rule.delayMinutes.Some? && message.Some? {
        InsertPending(Key(id, conversation, OfMessage(message.value)), message, rule.delayMinutes.value);
        return Delayed;
      }
      return Executed;
    }

    method UpdateAutomationRule(id: int, next: Rule)
      modifies this
      ensures Tables() == Edit(old(Tables()), id, next)
    {
      if id in rules {
        rules := rules[id := next];
        rows := Kept(rows, id);
        log := log + [Edited(id)];
      }
    }

    /** Up to 50 due rows, in whatever order the table gives them. */
    method SelectDue() returns (batch: seq<Row>)
      ensures IsBatch(Tables(), batch)
    {
      var pool := set row | row in rows && row.status == OPEN && row.dueAt <= now;
      assert pool == Due(Tables());
      batch := [];
      while pool != {} && |batch| < BATCH
        invariant DistinctRows(batch) && |batch| <= BATCH
        invariant forall i | 0 <= i < |batch| :: batch[i] in Due(Tables()) && batch[i] !in pool
        invariant pool <= Due(Tables()) && |pool| + |batch| == |Due(Tables())|
        decreases |pool|
      {
        var row :| row in pool;
        pool := pool - {row};
        batch := batch + [row];
      }
    }

    method ProcessPending(pending: Row, result: RunResult) returns (ran: bool)
      modifies this
      ensures Tables() == Process(old(Tables()), pending, result)
      ensures ran == (FinalStatus(old(Tables()), pending, result) == DONE)
    {
      rows := WithStatus(rows, pending.id, CLAIMED);
      log := log + [Claim(pending)];
      var status := SKIPPED;
      ran := false;
      if pending.key.rule in rules && rules[pending.key.rule].active {
        match result {
          case ConversationGone =>
          case NoLongerMatches =>
          case Ran => status, ran := DONE, true;
          case Threw => status := ERRED;
        }
      }
      rows := WithStatus(rows, pending.id, status);
      log := log + [Finish(pending, status, now)];
    }

    method ProcessBatch(due: seq<Row>, results: Row -> RunResult) returns (done: nat)
      modifies this
      ensures Tables() == ProcessAll(old(Tables()), due, results)
      ensures done == DoneIn(old(Tables()), due, results)
    {
      done := 0;
      for i := 0 to |due|
        invariant rules == old(rules)
        invariant ProcessAll(Tables(), due[i..], results) == ProcessAll(old(Tables()), due, results)
        invariant done + DoneIn(Tables(), due[i..], results) == DoneIn(old(Tables()), due, results)
      {
        assert due[i..][0] == due[i] && due[i..][1..] == due[i + 1..];
        ghost var before := Tables();
        var ran := ProcessPending(due[i], results(due[i]));
        SameRulesSameDone(before, Tables(), due[i + 1..], results);
        done := done + if ran then 1 else 0;
      }
    }

    /** One sweep; `results` is what loading, matching and acting come to for a row. */
    method ProcessDueExecutions(results: Row -> RunResult) returns (done: nat, ghost batch: seq<Row>)
      requires Inv(Tables())
      modifies this
      ensures IsBatch(old(Tables()), batch)
      ensures Tables() == ProcessAll(old(Tables()), batch, results)
      ensures done == DoneIn(old(Tables()), batch, results)
      ensures Inv(Tables())
    {
      var due := SelectDue();
      batch := due;
      ProcessAllKeeps(Tables(), due, results);
      done := ProcessBatch(due, results);
    }
  }
}
