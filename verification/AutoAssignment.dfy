// Automatic assignment of conversations: a stateless least-busy picker, and the
// sense in which it is a round robin.

module AutoAssignment {
  import opened Prelude

  datatype User = User(id: int, availability: int)

  datatype Conversation = Conversation(open: bool, assignee: Option<int>)

  /** The members of the inbox that are online (availability 0), in table order. */
  function Candidates(members: seq<int>, users: seq<User>): (ids: seq<int>)
    ensures forall i | 0 <= i < |ids| :: ids[i] in members && User(ids[i], 0) in users
  {
    if users == [] then []
    else
      var rest := Candidates(members, users[1..]);
      if users[0].id in members && users[0].availability == 0 then [users[0].id] + rest else rest
  }

  predicate Distinct(ids: seq<int>) {
    forall i, j | 0 <= i < j < |ids| :: ids[i] != ids[j]
  }

  /** User ids are a primary key, so no candidate occurs twice. */
  lemma {:induction false} CandidatesDistinct(members: seq<int>, users: seq<User>)
    requires forall i, j | 0 <= i < j < |users| :: users[i].id != users[j].id
    ensures Distinct(Candidates(members, users))
  {
    if users != [] {
      CandidatesDistinct(members, users[1..]);
      var rest := Candidates(members, users[1..]);
      forall i | 0 <= i < |rest| ensures rest[i] != users[0].id {
        var j :| 0 <= j < |users[1..]| && users[1..][j] == User(rest[i], 0);
        assert users[j + 1].id == rest[i];
      }
    }
  }

  function Load(conversations: seq<Conversation>, id: int): nat {
    if conversations == [] then 0
    else
      var last := conversations[|conversations| - 1];
      Load(conversations[..|conversations| - 1], id) + if last.open && last.assignee == Some(id) then 1 else 0
  }

  function LoadsOf(candidates: seq<int>, conversations: seq<Conversation>): (loads: seq<nat>)
    ensures |loads| == |candidates|
  {
    seq(|candidates|, i requires 0 <= i < |candidates| => Load(conversations, candidates[i]))
  }

  /** Position k holds the least load, and no earlier position does. */
  predicate IsLeast(loads: seq<nat>, k: nat) {
    && k < |loads|
    && (forall i | 0 <= i < |loads| :: loads[k] <= loads[i])
    && (forall i | 0 <= i < k :: loads[k] < loads[i])
  }

  function Least(loads: seq<nat>): (k: nat)
    requires loads != []
    ensures IsLeast(loads, k)
  {
    if |loads| == 1 then 0
    else
      var k := Least(loads[..|loads| - 1]);
      if loads[|loads| - 1] < loads[k] then |loads| - 1 else k
  }

  lemma LeastIsUnique(loads: seq<nat>, j: nat, k: nat)
    requires IsLeast(loads, j) && IsLeast(loads, k)
    ensures j == k
  {
    assert loads[j] <= loads[k] && loads[k] <= loads[j];
  }

  // ---- What is picked, on the tables themselves ----

  predicate IsOnline(members: seq<int>, user: User) {
    user.id in members && user.availability == 0
  }

  /** The positions of the online members of the inbox from position k of the user table on. */
  function OnlineFrom(members: seq<int>, users: seq<User>, k: nat): (at: seq<nat>)
    requires k <= |users|
    ensures forall i | 0 <= i < |at| :: k <= at[i] < |users|
    decreases |users| - k
  {
    if k == |users| then []
    else if IsOnline(members, users[k]) then [k] + OnlineFrom(members, users, k + 1)
    else OnlineFrom(members, users, k + 1)
  }

  lemma {:induction false} OnlineAll(members: seq<int>, users: seq<User>, k: nat, p: nat)
    requires k <= p < |users|
    ensures p in OnlineFrom(members, users, k) <==> IsOnline(members, users[p])
    decreases p - k
  {
    if k < p {
      OnlineAll(members, users, k + 1, p);
    }
  }

  predicate Ascends(at: seq<nat>) {
    forall i, j | 0 <= i < j < |at| :: at[i] < at[j]
  }

  lemma {:induction false} OnlineAscends(members: seq<int>, users: seq<User>, k: nat)
    requires k <= |users|
    ensures Ascends(OnlineFrom(members, users, k))
    decreases |users| - k
  {
    if k < |users| {
      OnlineAscends(members, users, k + 1);
    }
  }

  lemma {:induction false} OnlineIds(members: seq<int>, users: seq<User>, k: nat, i: nat)
    requires k <= |users|
    ensures |OnlineFrom(members, users, k)| == |Candidates(members, users[k..])|
    ensures i < |OnlineFrom(members, users, k)| ==>
              users[OnlineFrom(members, users, k)[i]].id == Candidates(members, users[k..])[i]
    decreases |users| - k
  {
    if k < |users| {
      assert users[k..][1..] == users[k + 1..];
      OnlineIds(members, users, k + 1, if IsOnline(members, users[k]) && i > 0 then i - 1 else i);
    }
  }

  /** The candidates stand in the user table at ascending positions, and these are the positions
      of all the members of the inbox that are online. */
  lemma CandidatesMeaning(members: seq<int>, users: seq<User>) returns (at: seq<nat>)
    ensures |at| == |Candidates(members, users)|
    ensures forall i | 0 <= i < |at| :: at[i] < |users| && users[at[i]].id == Candidates(members, users)[i]
    ensures Ascends(at)
    ensures forall p: nat | p < |users| :: p in at <==> users[p].id in members && users[p].availability == 0
  {
    at := OnlineFrom(members, users, 0);
    assert users[0..] == users;
    OnlineIds(members, users, 0, 0);
    OnlineAscends(members, users, 0);
    forall i: nat | i < |at| ensures users[at[i]].id == Candidates(members, users)[i] {
      OnlineIds(members, users, 0, i);
    }
    forall p: nat | p < |users| ensures p in at <==> IsOnline(members, users[p]) {
      OnlineAll(members, users, 0, p);
    }
  }

  /** The positions of the open conversations that are assigned to the user. */
  function OpenAssigned(conversations: seq<Conversation>, id: int): set<nat> {
    set c: nat | c < |conversations| && conversations[c].open && conversations[c].assignee == Some(id)
  }

  lemma {:induction false} LoadIsCount(conversations: seq<Conversation>, id: int)
    ensures Load(conversations, id) == |OpenAssigned(conversations, id)|
  {
    if conversations != [] {
      var n := |conversations| - 1;
      var before := OpenAssigned(conversations[..n], id);
      LoadIsCount(conversations[..n], id);
      assert OpenAssigned(conversations, id)
          == before + if conversations[n].open && conversations[n].assignee == Some(id) then {n} else {};
    }
  }

  predicate SomeoneOnline(members: seq<int>, users: seq<User>) {
    exists p | 0 <= p < |users| :: users[p].id in members && users[p].availability == 0
  }

  /** User p is an online member; no online member has fewer open conversations, and none that
      stands earlier in the table has as few. */
  predicate LeastBusy(members: seq<int>, users: seq<User>, conversations: seq<Conversation>, p: nat) {
    && p < |users| && users[p].id in members && users[p].availability == 0
    && forall q | 0 <= q < |users| && users[q].id in members && users[q].availability == 0 ::
         && |OpenAssigned(conversations, users[p].id)| <= |OpenAssigned(conversations, users[q].id)|
         && (q < p ==> |OpenAssigned(conversations, users[p].id)| < |OpenAssigned(conversations, users[q].id)|)
  }

  lemma LeastMeaning(members: seq<int>, users: seq<User>, conversations: seq<Conversation>)
    ensures Candidates(members, users) != [] <==> SomeoneOnline(members, users)
    ensures var ids := Candidates(members, users);
            ids != [] ==> exists p: nat :: LeastBusy(members, users, conversations, p)
                                           && users[p].id == ids[Least(LoadsOf(ids, conversations))]
  {
    var ids := Candidates(members, users);
    var at := CandidatesMeaning(members, users);
    forall i | 0 <= i < |ids| ensures LoadsOf(ids, conversations)[i] == |OpenAssigned(conversations, ids[i])| {
      LoadIsCount(conversations, ids[i]);
    }
    if ids != [] {
      var k := Least(LoadsOf(ids, conversations));
      assert at[k] in at;
      assert LeastBusy(members, users, conversations, at[k]);
    }
  }

  /** The first loop of pickAutoAssignee: how many open conversations each candidate has. */
  method CountLoads(candidates: seq<int>, conversations: seq<Conversation>) returns (load: map<int, nat>)
    ensures load.Keys == set id | id in candidates
    ensures forall id | id in candidates :: load[id] == Load(conversations, id)
  {
    load := map id | id in candidates :: 0;
    for c := 0 to |conversations|
      invariant load.Keys == set id | id in candidates
      invariant forall id | id in candidates :: load[id] == Load(conversations[..c], id)
    {
      var row := conversations[c];
      assert conversations[..c + 1][..c] == conversations[..c];
      if row.open && row.assignee.Some? && row.assignee.value in load {
        load := load[row.assignee.value := load[row.assignee.value] + 1];
      }
    }
    assert conversations[..|conversations|] == conversations;
  }

  /** Its second loop: the first candidate with the least count. */
  method FirstLeast(candidates: seq<int>, load: map<int, nat>) returns (best: int, ghost k: nat)
    requires candidates != [] && forall i | 0 <= i < |candidates| :: candidates[i] in load
    ensures k < |candidates| && best == candidates[k]
    ensures forall i | 0 <= i < |candidates| :: load[best] <= load[candidates[i]]
    ensures forall i | 0 <= i < k :: load[best] < load[candidates[i]]
  {
    k := 0;
    best := candidates[0];
    for i := 0 to |candidates|
      invariant k < |candidates| && best == candidates[k] && best in load
      invariant forall j | 0 <= j < i :: load[best] <= load[candidates[j]]
      invariant forall j | 0 <= j < k :: load[best] < load[candidates[j]]
    {
      if load[candidates[i]] < load[best] {
        best := candidates[i];
        k := i;
      }
    }
  }

  /** pickAutoAssignee: counts the open conversations of the candidates, then takes the
      first one with the least count. */
  method PickAutoAssignee(members: seq<int>, users: seq<User>, conversations: seq<Conversation>)
    returns (picked: Option<int>)
    ensures var candidates := Candidates(members, users);
            var loads := LoadsOf(candidates, conversations);
            if candidates == [] then picked == None
            else picked == Some(candidates[Least(loads)])
    ensures picked.Some? <==> SomeoneOnline(members, users)
    ensures picked.Some? ==> exists p: nat :: LeastBusy(members, users, conversations, p)
                                              && users[p].id == picked.value
  {
    var candidates := Candidates(members, users);
    LeastMeaning(members, users, conversations);
    if |candidates| == 0 {
      return None;
    }
    var load := CountLoads(candidates, conversations);
    ghost var loads := LoadsOf(candidates, conversations);
    assert forall i | 0 <= i < |candidates| :: candidates[i] in candidates && load[candidates[i]] == loads[i];
    var best, k := FirstLeast(candidates, load);
    LeastIsUnique(loads, k, Least(loads));
    picked := Some(best);
  }

  // ---- Runs of assignments ----

  function Iterate<T>(step: T -> T, x: T, k: nat): T {
    if k == 0 then x else step(Iterate(step, x, k - 1))
  }

  lemma {:induction false} IterateAdds<T>(step: T -> T, x: T, d: nat, k: nat)
    ensures Iterate(step, x, d + k) == Iterate(step, Iterate(step, x, d), k)
  {
    if k > 0 {
      IterateAdds(step, x, d, k - 1);
      assert d + k - 1 == d + (k - 1);
    }
  }

  /** A step that another step follows through f does so over every run. */
  lemma {:induction false} IterateFollows<S(!new), T>(f: S -> T, step: S -> S, image: T -> T, x: S, k: nat)
    requires forall s :: f(step(s)) == image(f(s))
    ensures f(Iterate(step, x, k)) == Iterate(image, f(x), k)
  {
    if k > 0 {
      IterateFollows(f, step, image, x, k - 1);
    }
  }

  /** autoAssign on one conversation row. */
  function AssignRow(rows: seq<Conversation>, index: nat, enabled: bool, candidates: seq<int>): seq<Conversation>
    requires index < |rows|
  {
    if rows[index].assignee.Some? || !enabled || candidates == [] then rows
    else rows[index := rows[index].(assignee := Some(candidates[Least(LoadsOf(candidates, rows))]))]
  }

  /** A row that is assigned already, an inbox without automatic assignment and an inbox with nobody
      online leave the table alone; otherwise one row gets the least busy user. */
  lemma AssignRowMeaning(
    rows: seq<Conversation>, index: nat, enabled: bool, members: seq<int>, users: seq<User>)
    requires index < |rows|
    ensures var after := AssignRow(rows, index, enabled, Candidates(members, users));
            if rows[index].assignee.Some? || !enabled || !SomeoneOnline(members, users) then after == rows
            else exists p: nat :: LeastBusy(members, users, rows, p)
                                  && after == rows[index := Conversation(rows[index].open, Some(users[p].id))]
  {
    LeastMeaning(members, users, rows);
  }

  /** An open conversation arrives unassigned and is assigned. */
  function Arrival(candidates: seq<int>, rows: seq<Conversation>): seq<Conversation> {
    AssignRow(rows + [Conversation(true, None)], |rows|, true, candidates)
  }

  function Arrivals(candidates: seq<int>): seq<Conversation> -> seq<Conversation> {
    (rows: seq<Conversation>) => Arrival(candidates, rows)
  }

  /** k open conversations arrive and are assigned one after the other. */
  function AssignedRows(candidates: seq<int>, rows: seq<Conversation>, k: nat): seq<Conversation> {
    Iterate(Arrivals(candidates), rows, k)
  }

  class AssignmentService {
    var conversations: seq<Conversation>

    method AutoAssign(index: nat, enabled: bool, members: seq<int>, users: seq<User>)
      requires index < |conversations|
      modifies this
      ensures conversations == AssignRow(old(conversations), index, enabled, Candidates(members, users))
    {
      if conversations[index].assignee.Some? || !enabled {
        return;
      }
      var picked := PickAutoAssignee(members, users, conversations);
      if picked.Some? {
        conversations := conversations[index := conversations[index].(assignee := picked)];
      }
    }

    /** k times: a new open conversation, then the listener that assigns it. */
    method AssignArrivals(k: nat, members: seq<int>, users: seq<User>)
      modifies this
      ensures conversations == AssignedRows(Candidates(members, users), old(conversations), k)
    {
      for i := 0 to k
        invariant conversations == AssignedRows(Candidates(members, users), old(conversations), i)
      {
        ghost var before := conversations;
        conversations := conversations + [Conversation(true, None)];
        AutoAssign(|conversations| - 1, true, members, users);
        assert conversations == Arrival(Candidates(members, users), before);
      }
    }
  }

  // ---- The loads of the candidates ----

  /** Loads after one more open conversation has been assigned. */
  function Assign(loads: seq<nat>): (after: seq<nat>)
    ensures |after| == |loads|
  {
    if loads == [] then [] else loads[Least(loads) := loads[Least(loads)] + 1]
  }

  lemma {:induction false} IterateLength(loads: seq<nat>, k: nat)
    ensures |Iterate(Assign, loads, k)| == |loads|
  {
    if k > 0 {
      IterateLength(loads, k - 1);
    }
  }

  function After(loads: seq<nat>, k: nat): (after: seq<nat>)
    ensures |after| == |loads|
  {
    IterateLength(loads, k);
    Iterate(Assign, loads, k)
  }

  lemma AfterStep(loads: seq<nat>, k: nat)
    ensures After(loads, 0) == loads
    ensures After(loads, k + 1) == Assign(After(loads, k))
  {
  }

  lemma LoadsWithNew(candidates: seq<int>, rows: seq<Conversation>, c: Conversation)
    ensures forall i | 0 <= i < |candidates| ::
      LoadsOf(candidates, rows + [c])[i]
      == LoadsOf(candidates, rows)[i] + if c.open && c.assignee == Some(candidates[i]) then 1 else 0
  {
    assert (rows + [c])[..|rows|] == rows;
  }

  lemma ArrivalAppends(candidates: seq<int>, rows: seq<Conversation>)
    requires candidates != []
    ensures Arrival(candidates, rows)
         == rows + [Conversation(true, Some(candidates[Least(LoadsOf(candidates, rows))]))]
  {
    LoadsWithNew(candidates, rows, Conversation(true, None));
    assert LoadsOf(candidates, rows + [Conversation(true, None)]) == LoadsOf(candidates, rows);
  }

  lemma ArrivalLoads(candidates: seq<int>, rows: seq<Conversation>)
    requires Distinct(candidates)
    ensures LoadsOf(candidates, Arrival(candidates, rows)) == Assign(LoadsOf(candidates, rows))
  {
    if candidates != [] {
      var k := Least(LoadsOf(candidates, rows));
      ArrivalAppends(candidates, rows);
      LoadsWithNew(candidates, rows, Conversation(true, Some(candidates[k])));
    }
  }

  /** The loads counted from the conversation table follow Assign. */
  lemma TablesFollow(candidates: seq<int>, rows: seq<Conversation>, k: nat)
    requires Distinct(candidates)
    ensures LoadsOf(candidates, AssignedRows(candidates, rows, k)) == After(LoadsOf(candidates, rows), k)
  {
    var loads := (r: seq<Conversation>) => LoadsOf(candidates, r);
    forall r: seq<Conversation> ensures loads(Arrivals(candidates)(r)) == Assign(loads(r)) {
      ArrivalLoads(candidates, r);
    }
    IterateFollows(loads, Arrivals(candidates), Assign, rows, k);
  }

  /** The conversation that arrives after k others goes to the candidate with the least load. */
  lemma NextGoesTo(candidates: seq<int>, rows: seq<Conversation>, k: nat, pick: nat)
    requires candidates != [] && Distinct(candidates)
    requires pick == Least(After(LoadsOf(candidates, rows), k))
    ensures AssignedRows(candidates, rows, k + 1)
         == AssignedRows(candidates, rows, k) + [Conversation(true, Some(candidates[pick]))]
  {
    TablesFollow(candidates, rows, k);
    ArrivalAppends(candidates, AssignedRows(candidates, rows, k));
  }

  predicate Level(loads: seq<nat>) {
    forall i, j | 0 <= i < |loads| && 0 <= j < |loads| :: loads[i] == loads[j]
  }

  /** Loads that are `base` on every position and one more on the first r. */
  predicate Staircase(loads: seq<nat>, base: nat, r: nat) {
    forall i | 0 <= i < |loads| :: loads[i] == base + if i < r then 1 else 0
  }

  lemma StaircaseStep(loads: seq<nat>, base: nat, r: nat)
    requires r < |loads| && Staircase(loads, base, r)
    ensures Least(loads) == r
    ensures if r == |loads| - 1 then Staircase(Assign(loads), base + 1, 0) else Staircase(Assign(loads), base, r + 1)
  {
  }

  lemma MultipleIsFar(d: int, n: int)
    requires n >= 0
    ensures d >= 1 ==> d * n >= n
    ensures d <= -1 ==> d * n <= -n
  {
  }

  lemma DivUnique(k: nat, n: nat, q: nat, r: nat)
    requires n > 0 && k == q * n + r && r < n
    ensures k / n == q && k % n == r
  {
    var d := k / n - q;
    assert k == (k / n) * n + k % n;
    assert d * n == r - k % n;
    MultipleIsFar(d, n);
  }

  lemma DivStep(k: nat, n: nat)
    requires k > 0 && n > 0
    ensures if (k - 1) % n == n - 1 then k % n == 0 && k / n == (k - 1) / n + 1
            else k % n == (k - 1) % n + 1 && k / n == (k - 1) / n
  {
    var q, r := (k - 1) / n, (k - 1) % n;
    assert k - 1 == q * n + r;
    if r == n - 1 {
      assert k == (q + 1) * n;
      DivUnique(k, n, q + 1, 0);
    } else {
      DivUnique(k, n, q, r + 1);
    }
  }

  /** From level loads, k assignments fill the positions cyclically. */
  lemma {:induction false} CyclicFill(loads: seq<nat>, k: nat)
    requires loads != [] && Level(loads)
    ensures Staircase(After(loads, k), loads[0] + k / |loads|, k % |loads|)
    ensures Least(After(loads, k)) == k % |loads|
  {
    if k == 0 {
      AfterStep(loads, 0);
    } else {
      AfterStep(loads, k - 1);
      CyclicFill(loads, k - 1);
      DivStep(k, |loads|);
      StaircaseStep(After(loads, k - 1), loads[0] + (k - 1) / |loads|, (k - 1) % |loads|);
    }
    StaircaseStep(After(loads, k), loads[0] + k / |loads|, k % |loads|);
  }

  /** With equal initial loads the k-th assigned conversation goes to
      `candidates[k mod n]`: least-busy is a round robin. */
  lemma RoundRobin(candidates: seq<int>, rows: seq<Conversation>, k: nat)
    requires candidates != [] && Distinct(candidates)
    requires Level(LoadsOf(candidates, rows))
    ensures AssignedRows(candidates, rows, k + 1)
         == AssignedRows(candidates, rows, k) + [Conversation(true, Some(candidates[k % |candidates|]))]
  {
    CyclicFill(LoadsOf(candidates, rows), k);
    NextGoesTo(candidates, rows, k, k % |candidates|);
  }

  /** While the picks go 0, 1, 2, ... each of them has added one. */
  lemma {:induction false} FirstBumped(loads: seq<nat>, k: nat)
    requires k <= |loads| && forall j: nat | j < k :: Least(After(loads, j)) == j
    ensures forall i | 0 <= i < |loads| :: After(loads, k)[i] == loads[i] + if i < k then 1 else 0
  {
    if k == 0 {
      AfterStep(loads, 0);
    } else {
      FirstBumped(loads, k - 1);
      AfterStep(loads, k - 1);
    }
  }

  lemma InOrderIsLevel(loads: seq<nat>)
    requires loads != [] && forall j: nat | j < |loads| :: Least(After(loads, j)) == j
    ensures Level(loads)
  {
    forall i: nat, k: nat | i < |loads| && k < |loads| ensures loads[k] <= loads[i] {
      FirstBumped(loads, k);
      assert IsLeast(After(loads, k), k);
    }
  }

  /** Arrival k goes to candidate `pick`. */
  predicate GoesTo(candidates: seq<int>, rows: seq<Conversation>, k: nat, pick: nat)
    requires pick < |candidates|
  {
    AssignedRows(candidates, rows, k + 1)
    == AssignedRows(candidates, rows, k) + [Conversation(true, Some(candidates[pick]))]
  }

  lemma GoesToLeast(candidates: seq<int>, rows: seq<Conversation>, k: nat, pick: nat)
    requires Distinct(candidates) && pick < |candidates| && GoesTo(candidates, rows, k, pick)
    ensures pick == Least(After(LoadsOf(candidates, rows), k))
  {
    var least := Least(After(LoadsOf(candidates, rows), k));
    NextGoesTo(candidates, rows, k, least);
    var after := AssignedRows(candidates, rows, k + 1);
    assert after[|after| - 1].assignee == Some(candidates[pick]) == Some(candidates[least]);
  }

  ghost predicate InOrder(candidates: seq<int>, rows: seq<Conversation>) {
    forall k: nat | k < |candidates| :: GoesTo(candidates, rows, k, k)
  }

  ghost predicate RoundForEver(candidates: seq<int>, rows: seq<Conversation>)
    requires candidates != []
  {
    forall k: nat :: GoesTo(candidates, rows, k, k % |candidates|)
  }

  lemma LevelGoesRound(candidates: seq<int>, rows: seq<Conversation>)
    requires candidates != [] && Distinct(candidates) && Level(LoadsOf(candidates, rows))
    ensures RoundForEver(candidates, rows)
  {
    forall k: nat ensures GoesTo(candidates, rows, k, k % |candidates|) {
      RoundRobin(candidates, rows, k);
    }
  }

  lemma RoundStartsInOrder(candidates: seq<int>, rows: seq<Conversation>)
    requires candidates != [] && RoundForEver(candidates, rows)
    ensures InOrder(candidates, rows)
  {
    forall k: nat | k < |candidates| ensures GoesTo(candidates, rows, k, k) {
      DivUnique(k, |candidates|, 0, k);
      assert GoesTo(candidates, rows, k, k % |candidates|);
    }
  }

  lemma InOrderFromLevel(candidates: seq<int>, rows: seq<Conversation>)
    requires candidates != [] && Distinct(candidates) && InOrder(candidates, rows)
    ensures Level(LoadsOf(candidates, rows))
  {
    forall k: nat | k < |candidates| ensures Least(After(LoadsOf(candidates, rows), k)) == k {
      assert GoesTo(candidates, rows, k, k);
      GoesToLeast(candidates, rows, k, k);
    }
    InOrderIsLevel(LoadsOf(candidates, rows));
  }

  /** The first conversations go to the candidates in order exactly when the loads were equal,
      and then they go round in that order for ever. */
  lemma RoundRobinIff(candidates: seq<int>, rows: seq<Conversation>)
    requires candidates != [] && Distinct(candidates)
    ensures InOrder(candidates, rows) <==> Level(LoadsOf(candidates, rows))
    ensures RoundForEver(candidates, rows) <==> Level(LoadsOf(candidates, rows))
  {
    if Level(LoadsOf(candidates, rows)) {
      LevelGoesRound(candidates, rows);
    }
    if RoundForEver(candidates, rows) {
      RoundStartsInOrder(candidates, rows);
    }
    if InOrder(candidates, rows) {
      InOrderFromLevel(candidates, rows);
    }
  }

  // ---- From any loads ----

  predicate GapAtMost(loads: seq<nat>, gap: nat) {
    forall i, j | 0 <= i < |loads| && 0 <= j < |loads| :: loads[i] - loads[j] <= gap
  }

  lemma {:induction false} GapBounded(loads: seq<nat>, gap: nat, k: nat)
    requires GapAtMost(loads, gap)
    ensures GapAtMost(After(loads, k), if gap == 0 then 1 else gap)
  {
    if k > 0 {
      GapBounded(loads, gap, k - 1);
      AfterStep(loads, k - 1);
    }
  }

  /** The gap between two candidates in the conversation table never exceeds
      max(1, initial gap). */
  lemma TableGapBounded(candidates: seq<int>, rows: seq<Conversation>, gap: nat, k: nat)
    requires Distinct(candidates) && GapAtMost(LoadsOf(candidates, rows), gap)
    ensures GapAtMost(LoadsOf(candidates, AssignedRows(candidates, rows, k)), if gap == 0 then 1 else gap)
  {
    TablesFollow(candidates, rows, k);
    GapBounded(LoadsOf(candidates, rows), gap, k);
  }

  /** What is missing for every load to reach `top`. */
  function Deficit(loads: seq<nat>, top: nat): nat
    requires forall i | 0 <= i < |loads| :: loads[i] <= top
  {
    if loads == [] then 0
    else top - loads[|loads| - 1] + Deficit(loads[..|loads| - 1], top)
  }

  lemma {:induction false} DeficitDrops(loads: seq<nat>, top: nat, k: nat)
    requires forall i | 0 <= i < |loads| :: loads[i] <= top
    requires k < |loads| && loads[k] < top
    ensures Deficit(loads[k := loads[k] + 1], top) == Deficit(loads, top) - 1
  {
    var n := |loads| - 1;
    var after := loads[k := loads[k] + 1];
    if k < n {
      assert after[..n] == loads[..n][k := loads[k] + 1];
      DeficitDrops(loads[..n], top, k);
    } else {
      assert after[..n] == loads[..n];
    }
  }

  lemma {:induction false} DeficitZero(loads: seq<nat>, top: nat)
    requires forall i | 0 <= i < |loads| :: loads[i] <= top
    ensures Deficit(loads, top) == 0 <==> forall i | 0 <= i < |loads| :: loads[i] == top
  {
    if loads != [] {
      DeficitZero(loads[..|loads| - 1], top);
    }
  }

  lemma DeficitStep(loads: seq<nat>, top: nat)
    requires loads != [] && forall i | 0 <= i < |loads| :: loads[i] <= top
    requires Deficit(loads, top) > 0
    ensures forall i | 0 <= i < |loads| :: Assign(loads)[i] <= top
    ensures Deficit(Assign(loads), top) == Deficit(loads, top) - 1
  {
    DeficitZero(loads, top);
    DeficitDrops(loads, top, Least(loads));
  }

  lemma {:induction false} AfterDeficit(loads: seq<nat>, top: nat, k: nat)
    requires loads != [] && forall i | 0 <= i < |loads| :: loads[i] <= top
    requires k <= Deficit(loads, top)
    ensures forall i | 0 <= i < |loads| :: After(loads, k)[i] <= top
    ensures Deficit(After(loads, k), top) == Deficit(loads, top) - k
  {
    if k > 0 {
      AfterDeficit(loads, top, k - 1);
      AfterStep(loads, k - 1);
      DeficitStep(After(loads, k - 1), top);
    }
  }

  lemma LevelAfterDeficit(loads: seq<nat>, top: nat)
    requires loads != [] && forall i | 0 <= i < |loads| :: loads[i] <= top
    ensures Level(After(loads, Deficit(loads, top)))
  {
    AfterDeficit(loads, top, Deficit(loads, top));
    DeficitZero(After(loads, Deficit(loads, top)), top);
  }

  lemma AfterAdds(loads: seq<nat>, d: nat, n: nat)
    requires d <= n
    ensures After(loads, n) == After(After(loads, d), n - d)
  {
    IterateAdds(Assign, loads, d, n - d);
  }

  lemma SteadyPick(loads: seq<nat>, top: nat, n: nat)
    requires loads != [] && forall i | 0 <= i < |loads| :: loads[i] <= top
    requires Deficit(loads, top) <= n
    ensures Least(After(loads, n)) == (n - Deficit(loads, top)) % |loads|
  {
    var d := Deficit(loads, top);
    var level := After(loads, d);
    LevelAfterDeficit(loads, top);
    AfterAdds(loads, d, n);
    CyclicFill(level, n - d);
  }

  /** The steady state: whatever the initial loads, once the deficit against the
      busiest candidate has been assigned the picker goes round robin for ever. */
  lemma SteadyState(candidates: seq<int>, rows: seq<Conversation>, top: nat, n: nat)
    requires candidates != [] && Distinct(candidates)
    requires forall i | 0 <= i < |candidates| :: LoadsOf(candidates, rows)[i] <= top
    requires Deficit(LoadsOf(candidates, rows), top) <= n
    ensures var k := n - Deficit(LoadsOf(candidates, rows), top);
            AssignedRows(candidates, rows, n + 1)
            == AssignedRows(candidates, rows, n) + [Conversation(true, Some(candidates[k % |candidates|]))]
  {
    SteadyPick(LoadsOf(candidates, rows), top, n);
    NextGoesTo(candidates, rows, n, Least(After(LoadsOf(candidates, rows), n)));
  }
}
