// What each operator of a rule condition means, said of the columns of the fact bag and
// the expected values.

module ConditionMeaning {
  import opened Prelude
  import opened JsValues
  import opened Conditions

  /** v is one of the expected values: an entry of a list, or the value itself. */
  predicate Expects(values: Value, v: Value) {
    if values.List? then v in values.items else v == values && v != Null && v != Undefined
  }

  lemma ExpectedValues(values: Value, v: Value)
    ensures v in AsList(values) <==> Expects(values, v)
  {
  }

  /** Each attribute key reads its own column, the labels as a list of strings; a key of none of
      these is looked up in the attribute objects, the first that has it deciding. */
  lemma ColumnsRead(bag: FactBag)
    ensures AttributeValue(bag, StatusKey) == bag.status && AttributeValue(bag, PriorityKey) == bag.priority
    ensures AttributeValue(bag, InboxKey) == bag.inbox && AttributeValue(bag, TeamKey) == bag.team
    ensures AttributeValue(bag, AssigneeKey) == bag.assignee
    ensures AttributeValue(bag, LabelsKey).List? && |AttributeValue(bag, LabelsKey).items| == |bag.labels|
    ensures forall i | 0 <= i < |bag.labels| :: AttributeValue(bag, LabelsKey).items[i] == Str(bag.labels[i])
    ensures match bag.message
            case None => AttributeValue(bag, MessageTypeKey) == AttributeValue(bag, ContentKey)
                         == AttributeValue(bag, PrivateNoteKey) == Null
            case Some(m) => AttributeValue(bag, MessageTypeKey) == m.messageType
                            && AttributeValue(bag, ContentKey) == m.content
                            && AttributeValue(bag, PrivateNoteKey) == Bool(m.isPrivate)
    ensures match bag.contact
            case None => AttributeValue(bag, EmailKey) == AttributeValue(bag, PhoneKey) == Null
            case Some(c) => AttributeValue(bag, EmailKey) == c.email && AttributeValue(bag, PhoneKey) == c.phone
  {
  }

  predicate FirstPoolWith(pools: seq<map<string, Value>>, key: string, i: nat) {
    i < |pools| && key in pools[i] && forall j | 0 <= j < i :: key !in pools[j]
  }

  lemma {:induction false} PoolsRead(bag: FactBag, key: string, i: nat)
    ensures FirstPoolWith(bag.pools, key, i) ==> AttributeValue(bag, OtherKey(key)) == bag.pools[i][key]
    ensures (forall j | 0 <= j < |bag.pools| :: key !in bag.pools[j])
            ==> AttributeValue(bag, OtherKey(key)) == Undefined
    decreases |bag.pools|
  {
    var pools := bag.pools;
    if pools != [] && key !in pools[0] {
      if FirstPoolWith(pools, key, i) {
        assert FirstPoolWith(pools[1..], key, i - 1);
      }
      PoolsRead(bag.(pools := pools[1..]), key, if i > 0 then i - 1 else 0);
    }
  }

  // ---- The loose equality ----

  /** Null and undefined equal only themselves. */
  lemma NullEqualsOnlyItself(host: Host, a: Value, b: Value)
    requires a in {Null, Undefined} || b in {Null, Undefined}
    ensures SameScalar(host, a, b) <==> a == b
  {
  }

  /** A number equals what converts to the same number, whichever side it is on. */
  lemma NumberEquality(host: Host, n: real, b: Value)
    requires b != Null && b != Undefined
    ensures var same := b == Num(n) || (host.number(Num(n)).Some? && host.number(Num(n)) == host.number(b));
            (SameScalar(host, Num(n), b) <==> same) && (SameScalar(host, b, Num(n)) <==> same)
  {
  }

  /** Next to a boolean, the values true, "true", 1 and "1" are true and all others false;
      numbers are compared as numbers. */
  lemma BooleanEquality(host: Host, x: bool, b: Value)
    requires b != Null && b != Undefined && !b.Num?
    ensures var truth := b in {Bool(true), Str("true"), Str("1")};
            (SameScalar(host, Bool(x), b) <==> x == truth) && (SameScalar(host, b, Bool(x)) <==> x == truth)
  {
  }

  /** Everything else, two strings among them, is equal without regard to case. */
  lemma TextEquality(host: Host, a: Value, b: Value)
    requires a.Str? || a.Date? || a.List? || a.Obj?
    requires b.Str? || b.Date? || b.List? || b.Obj?
    ensures SameScalar(host, a, b)
       <==> (a.Str? && a == b) || host.lower(host.text(a)) == host.lower(host.text(b))
  {
  }

  // ---- Operators ----

  /** equal_to holds iff the attribute equals some expected value, not_equal_to iff none. */
  lemma EqualToMeaning(host: Host, bag: FactBag, key: Key, values: Value, join: Option<string>)
    ensures var a := AttributeValue(bag, key);
            && (EvalCondition(host, bag, Condition(key, EqualTo, values, join))
                <==> exists v | Expects(values, v) :: SameScalar(host, a, v))
            && (EvalCondition(host, bag, Condition(key, NotEqualTo, values, join))
                <==> forall v | Expects(values, v) :: !SameScalar(host, a, v))
  {
    forall v ensures v in AsList(values) <==> Expects(values, v) {
      ExpectedValues(values, v);
    }
    var a, expected := AttributeValue(bag, key), AsList(values);
    assert AnySame(host, a, expected) <==> exists v | v in expected :: SameScalar(host, a, v) by {
      if v :| v in expected && SameScalar(host, a, v) {
        var i :| 0 <= i < |expected| && expected[i] == v;
      }
    }
  }

  predicate SameText(host: Host, a: Value, b: Value) {
    host.lower(host.text(a)) == host.lower(host.text(b))
  }

  predicate Within(host: Host, a: Value, v: Value) {
    Includes(host.lower(host.text(a)), host.lower(host.text(v)))
  }

  lemma SubstringMeaning(hay: string, needle: string)
    ensures Includes(hay, needle) <==> exists before, after :: hay == before + needle + after
  {
    if Includes(hay, needle) {
      var i :| 0 <= i <= |hay| && OccursAt(hay, needle, i);
      assert hay == hay[..i] + needle + hay[i + |needle|..];
    }
    if before, after :| hay == before + needle + after {
      assert OccursAt(hay, needle, |before|);
    }
  }

  /** On a list, contains holds iff an entry has the text of an expected value, case aside. */
  lemma ListContainsMeaning(host: Host, bag: FactBag, key: Key, values: Value, join: Option<string>)
    requires AttributeValue(bag, key).List?
    ensures var found := exists v, item | Expects(values, v) && item in AttributeValue(bag, key).items ::
                           SameText(host, item, v);
            && (EvalCondition(host, bag, Condition(key, Contains, values, join)) <==> found)
            && (EvalCondition(host, bag, Condition(key, DoesNotContain, values, join)) <==> !found)
  {
    var items, expected := AttributeValue(bag, key).items, AsList(values);
    forall v ensures v in expected <==> Expects(values, v) {
      ExpectedValues(values, v);
    }
    if v, item :| Expects(values, v) && item in items && SameText(host, item, v) {
      var i :| 0 <= i < |expected| && expected[i] == v;
      var j :| 0 <= j < |items| && items[j] == item;
    }
    if AnyListed(host, items, expected) {
      var i, j :| 0 <= i < |expected| && 0 <= j < |items|
                  && host.lower(host.text(items[j])) == host.lower(host.text(expected[i]));
      assert Expects(values, expected[i]) && items[j] in items && SameText(host, items[j], expected[i]);
    }
  }

  /** On anything else that is not null, contains holds iff the text of some expected value
      occurs in the text of the attribute, case aside; null contains nothing. */
  lemma TextContainsMeaning(host: Host, bag: FactBag, key: Key, values: Value, join: Option<string>)
    requires !AttributeValue(bag, key).List?
    ensures var a := AttributeValue(bag, key);
            var found := a != Null && a != Undefined && exists v | Expects(values, v) :: Within(host, a, v);
            && (EvalCondition(host, bag, Condition(key, Contains, values, join)) <==> found)
            && (EvalCondition(host, bag, Condition(key, DoesNotContain, values, join)) <==> !found)
  {
    var a, expected := AttributeValue(bag, key), AsList(values);
    forall v ensures v in expected <==> Expects(values, v) {
      ExpectedValues(values, v);
    }
    if v :| Expects(values, v) && Within(host, a, v) {
      var i :| 0 <= i < |expected| && expected[i] == v;
    }
    if AnyIncluded(host, a, expected) {
      var i :| 0 <= i < |expected| && Includes(host.lower(host.text(a)), host.lower(host.text(expected[i])));
      assert expected[i] in expected && Expects(values, expected[i]) && Within(host, a, expected[i]);
    }
  }

  /** is_present holds iff the attribute is neither null nor an empty string nor an empty list. */
  lemma PresentMeaning(host: Host, bag: FactBag, key: Key, values: Value, join: Option<string>)
    ensures var a := AttributeValue(bag, key);
            var present := a !in {Null, Undefined, Str(""), List([])};
            && (EvalCondition(host, bag, Condition(key, IsPresent, values, join)) <==> present)
            && (EvalCondition(host, bag, Condition(key, IsNotPresent, values, join)) <==> !present)
  {
  }

  /** The numeric comparisons hold iff the attribute and the first expected value are numbers
      in that order; with no expected value the comparison is with undefined. */
  lemma ComparisonMeaning(host: Host, bag: FactBag, key: Key, values: Value, join: Option<string>, first: Value)
    requires if values.List? && values.items != [] then first == values.items[0]
             else if values.List? || values == Null then first == Undefined else first == values
    ensures var a, b := host.number(AttributeValue(bag, key)), host.number(first);
            && (EvalCondition(host, bag, Condition(key, IsGreaterThan, values, join))
                <==> a.Some? && b.Some? && a.value > b.value)
            && (EvalCondition(host, bag, Condition(key, IsLessThan, values, join))
                <==> a.Some? && b.Some? && a.value < b.value)
  {
  }

  lemma UnknownNeverHolds(host: Host, bag: FactBag, c: Condition)
    requires c.operator.Unknown?
    ensures !EvalCondition(host, bag, c)
  {
  }

  // ---- Lists of conditions ----

  /** The word "or" in any case. */
  predicate OrWord(w: string) {
    |w| == 2 && w[0] in {'o', 'O'} && w[1] in {'r', 'R'}
  }

  lemma OrWords(w: string)
    ensures IsOr(Some(w)) <==> OrWord(w)
  {
    if OrWord(w) {
      assert w == [w[0], w[1]];
    }
  }

  /** The condition before position k is joined to the rest by OR. */
  predicate OrBefore(cs: seq<Condition>, k: nat)
    requires 0 < k <= |cs|
  {
    cs[k - 1].join.Some? && OrWord(cs[k - 1].join.value)
  }

  /** The empty list matches; any other does iff some condition holds that is first or follows
      an OR, and from there on every condition holds that does not follow an OR. */
  lemma ListMeaning(host: Host, bag: FactBag, cs: seq<Condition>)
    ensures Matches(host, bag, cs)
       <==> cs == [] || exists j: nat | j < |cs| ::
              && (j == 0 || OrBefore(cs, j))
              && EvalCondition(host, bag, cs[j])
              && forall k | j < k < |cs| :: OrBefore(cs, k) || EvalCondition(host, bag, cs[k])
  {
    forall k: nat | 0 < k < |cs| ensures JoinedByOr(cs, k) <==> OrBefore(cs, k) {
      if cs[k - 1].join.Some? {
        OrWords(cs[k - 1].join.value);
      }
    }
    if cs != [] {
      MatchesMeaning(host, bag, cs);
      if j: nat :| j < |cs| && Carries(host, bag, cs, j, |cs|) {
        assert j == 0 || OrBefore(cs, j);
      }
      if j: nat :| j < |cs| && (j == 0 || OrBefore(cs, j)) && EvalCondition(host, bag, cs[j])
                   && forall k | j < k < |cs| :: OrBefore(cs, k) || EvalCondition(host, bag, cs[k]) {
        assert Carries(host, bag, cs, j, |cs|);
      }
    }
  }
}
