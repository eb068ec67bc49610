// Evaluation of the AND/OR conditions of an automation rule.

module Conditions {
  import opened Prelude
  import opened JsValues

  datatype Operator =
    | EqualTo | NotEqualTo
    | Contains | DoesNotContain
    | IsPresent | IsNotPresent
    | IsGreaterThan | IsLessThan
    | Unknown(name: string)

  datatype Key =
    | StatusKey | PriorityKey | InboxKey | TeamKey | AssigneeKey | LabelsKey
    | MessageTypeKey | ContentKey | PrivateNoteKey | EmailKey | PhoneKey
    | OtherKey(name: string)

  datatype Condition = Condition(key: Key, operator: Operator, values: Value, join: Option<string>)

  datatype MessageFacts = MessageFacts(messageType: Value, content: Value, isPrivate: bool)
  datatype ContactFacts = ContactFacts(email: Value, phone: Value)

  /** What the rule engine knows about the conversation of an event. `pools` are
      the attribute objects of conversation and contact, in lookup order. */
  datatype FactBag = FactBag(
    status: Value, priority: Value, inbox: Value, team: Value, assignee: Value,
    labels: seq<string>,
    message: Option<MessageFacts>,
    contact: Option<ContactFacts>,
    pools: seq<map<string, Value>>
  )

  function LookupPools(pools: seq<map<string, Value>>, key: string): Value {
    if pools == [] then Undefined
    else if key in pools[0] then pools[0][key]
    else LookupPools(pools[1..], key)
  }

  function AttributeValue(bag: FactBag, key: Key): Value {
    match key
    case StatusKey => bag.status
    case PriorityKey => bag.priority
    case InboxKey => bag.inbox
    case TeamKey => bag.team
    case AssigneeKey => bag.assignee
    case LabelsKey => List(seq(|bag.labels|, i requires 0 <= i < |bag.labels| => Str(bag.labels[i])))
    case MessageTypeKey => if bag.message.Some? then bag.message.value.messageType else Null
    case ContentKey => if bag.message.Some? then bag.message.value.content else Null
    case PrivateNoteKey => if bag.message.Some? then Bool(bag.message.value.isPrivate) else Null
    case EmailKey => if bag.contact.Some? then bag.contact.value.email else Null
    case PhoneKey => if bag.contact.Some? then bag.contact.value.phone else Null
    case OtherKey(name) => LookupPools(bag.pools, name)
  }

  predicate Truthy01(v: Value) {
    v == Bool(true) || v == Str("true") || v == Num(1.0) || v == Str("1")
  }

  predicate SameScalar(host: Host, a: Value, b: Value) {
    if StrictEqual(a, b) then true
    else if IsNullish(a) || IsNullish(b) then false
    else if a.Num? || b.Num? then
      host.number(a).Some? && host.number(a) == host.number(b)
    else if a.Bool? || b.Bool? then Truthy01(a) == Truthy01(b)
    else host.lower(host.text(a)) == host.lower(host.text(b))
  }

  predicate OccursAt(hay: string, needle: string, i: int) {
    0 <= i <= |hay| - |needle| && hay[i..i + |needle|] == needle
  }

  predicate Includes(hay: string, needle: string) {
    exists i | 0 <= i <= |hay| :: OccursAt(hay, needle, i)
  }

  predicate AnySame(host: Host, actual: Value, expected: seq<Value>) {
    exists i | 0 <= i < |expected| :: SameScalar(host, actual, expected[i])
  }

  predicate AnyListed(host: Host, items: seq<Value>, expected: seq<Value>) {
    exists i, j | 0 <= i < |expected| && 0 <= j < |items| ::
      host.lower(host.text(items[j])) == host.lower(host.text(expected[i]))
  }

  predicate AnyIncluded(host: Host, actual: Value, expected: seq<Value>) {
    exists i | 0 <= i < |expected| ::
      Includes(host.lower(host.text(actual)), host.lower(host.text(expected[i])))
  }

  predicate Greater(a: Option<real>, b: Option<real>) {
    a.Some? && b.Some? && a.value > b.value
  }

  function FirstOr(values: seq<Value>): Value {
    if values == [] then Undefined else values[0]
  }

  predicate EvalCondition(host: Host, bag: FactBag, c: Condition) {
    var actual := AttributeValue(bag, c.key);
    var expected := AsList(c.values);
    match c.operator
    case EqualTo => AnySame(host, actual, expected)
    case NotEqualTo => !AnySame(host, actual, expected)
    case Contains =>
      if actual.List? then AnyListed(host, actual.items, expected)
      else if IsNullish(actual) then false
      else AnyIncluded(host, actual, expected)
    case DoesNotContain =>
      if IsNullish(actual) then true
      else if actual.List? then !AnyListed(host, actual.items, expected)
      else !AnyIncluded(host, actual, expected)
    case IsPresent =>
      if actual.List? then |actual.items| > 0
      else !IsNullish(actual) && actual != Str("")
    case IsNotPresent =>
      if actual.List? then |actual.items| == 0
      else IsNullish(actual) || actual == Str("")
    case IsGreaterThan => Greater(host.number(actual), host.number(FirstOr(expected)))
    case IsLessThan => Greater(host.number(FirstOr(expected)), host.number(actual))
    case Unknown(_) => false
  }

  /** toUpperCase() of the joining operator is "OR". */
  predicate IsOr(join: Option<string>) {
    join.Some? && join.value in {"OR", "Or", "oR", "or"}
  }

  /** Condition k is joined to what stands before it by OR. */
  predicate JoinedByOr(cs: seq<Condition>, k: nat)
    requires k < |cs|
  {
    k > 0 && IsOr(cs[k - 1].join)
  }

  /** The left-to-right fold over the first n conditions. */
  predicate FoldTo(host: Host, bag: FactBag, cs: seq<Condition>, n: nat)
    requires 1 <= n <= |cs|
  {
    var next := EvalCondition(host, bag, cs[n - 1]);
    if n == 1 then next
    else if JoinedByOr(cs, n - 1) then FoldTo(host, bag, cs, n - 1) || next
    else FoldTo(host, bag, cs, n - 1) && next
  }

  predicate Matches(host: Host, bag: FactBag, cs: seq<Condition>) {
    cs == [] || FoldTo(host, bag, cs, |cs|)
  }

  method MatchesConditions(host: Host, bag: FactBag, cs: seq<Condition>) returns (result: bool)
    ensures result == Matches(host, bag, cs)
  {
    if |cs| == 0 {
      return true;
    }
    result := EvalCondition(host, bag, cs[0]);
    for i := 1 to |cs|
      invariant result == FoldTo(host, bag, cs, i)
    {
      var next := EvalCondition(host, bag, cs[i]);
      result := if IsOr(cs[i - 1].join) then result || next else result && next;
    }
  }

  // ---- Meaning of the fold ----

  /** Condition j carries the list up to n: it opens a group (it is first or joined
      by OR), it holds, and so does every later condition joined by AND. */
  predicate Carries(host: Host, bag: FactBag, cs: seq<Condition>, j: nat, n: nat)
    requires j < n <= |cs|
  {
    && (j == 0 || JoinedByOr(cs, j))
    && EvalCondition(host, bag, cs[j])
    && forall k | j < k < n && !JoinedByOr(cs, k) :: EvalCondition(host, bag, cs[k])
  }

  lemma {:induction false} FoldHasCarrier(host: Host, bag: FactBag, cs: seq<Condition>, n: nat) returns (j: nat)
    requires 1 <= n <= |cs|
    requires FoldTo(host, bag, cs, n)
    ensures j < n && Carries(host, bag, cs, j, n)
  {
    if n == 1 {
      j := 0;
    } else if JoinedByOr(cs, n - 1) && EvalCondition(host, bag, cs[n - 1]) {
      j := n - 1;
    } else {
      j := FoldHasCarrier(host, bag, cs, n - 1);
    }
  }

  lemma {:induction false} CarrierFolds(host: Host, bag: FactBag, cs: seq<Condition>, j: nat, n: nat)
    requires j < n <= |cs|
    requires Carries(host, bag, cs, j, n)
    ensures FoldTo(host, bag, cs, n)
  {
    if j < n - 1 {
      CarrierFolds(host, bag, cs, j, n - 1);
    }
  }

  /** A nonempty condition list holds exactly when some condition carries it. */
  lemma MatchesMeaning(host: Host, bag: FactBag, cs: seq<Condition>)
    requires cs != []
    ensures Matches(host, bag, cs) <==> exists j: nat | j < |cs| :: Carries(host, bag, cs, j, |cs|)
  {
    if Matches(host, bag, cs) {
      var j := FoldHasCarrier(host, bag, cs, |cs|);
    }
    forall j: nat | j < |cs| && Carries(host, bag, cs, j, |cs|)
      ensures Matches(host, bag, cs)
    {
      CarrierFolds(host, bag, cs, j, |cs|);
    }
  }

  // ---- Duality ----

  predicate Negatable(op: Operator) {
    op in {EqualTo, NotEqualTo, Contains, DoesNotContain, IsPresent, IsNotPresent}
  }

  function Partner(op: Operator): Operator {
    match op
    case EqualTo => NotEqualTo
    case NotEqualTo => EqualTo
    case Contains => DoesNotContain
    case DoesNotContain => Contains
    case IsPresent => IsNotPresent
    case IsNotPresent => IsPresent
    case _ => op
  }

  function Dual(c: Condition): Condition {
    c.(operator := Partner(c.operator), join := if IsOr(c.join) then Some("AND") else Some("OR"))
  }

  function DualList(cs: seq<Condition>): seq<Condition> {
    seq(|cs|, i requires 0 <= i < |cs| => Dual(cs[i]))
  }

  lemma {:induction false} DualFold(host: Host, bag: FactBag, cs: seq<Condition>, n: nat)
    requires 1 <= n <= |cs|
    requires forall c | c in cs :: Negatable(c.operator)
    ensures FoldTo(host, bag, DualList(cs), n) == !FoldTo(host, bag, cs, n)
  {
    assert Negatable(cs[n - 1].operator);
    assert EvalCondition(host, bag, Dual(cs[n - 1])) == !EvalCondition(host, bag, cs[n - 1]);
    if n > 1 {
      DualFold(host, bag, cs, n - 1);
    }
  }

  /** Swapping every operator with its negated partner and AND with OR negates the
      outcome, on every fact bag. */
  lemma DualNegates(host: Host, bag: FactBag, cs: seq<Condition>)
    requires cs != []
    requires forall c | c in cs :: Negatable(c.operator)
    ensures Matches(host, bag, DualList(cs)) == !Matches(host, bag, cs)
  {
    DualFold(host, bag, cs, |cs|);
  }
}
