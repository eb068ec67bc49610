// The two key mappers: snake_case to camelCase at the border of the API, camelCase to
// snake_case for channel rows.

module KeyMapper {
  import opened Prelude
  import opened JsValues

  predicate IsLower(c: char) {
    'a' <= c <= 'z'
  }

  predicate IsUpper(c: char) {
    'A' <= c <= 'Z'
  }

  function ToUpper(c: char): char
    requires IsLower(c)
  {
    (c as int - 32) as char
  }

  function ToLower(c: char): char
    requires IsUpper(c)
  {
    (c as int + 32) as char
  }

  /** An underscore followed by a lower-case letter. */
  predicate PairAt(s: string, i: nat) {
    i + 1 < |s| && s[i] == '_' && IsLower(s[i + 1])
  }

  predicate SnakeFree(s: string) {
    forall i: nat | i < |s| :: !PairAt(s, i)
  }

  predicate UpperFree(s: string) {
    forall i | 0 <= i < |s| :: !IsUpper(s[i])
  }

  function SnakeToCamel(s: string): string {
    if s == [] then []
    else if PairAt(s, 0) then [ToUpper(s[1])] + SnakeToCamel(s[2..])
    else [s[0]] + SnakeToCamel(s[1..])
  }

  function ToSnake(s: string): string {
    if s == [] then []
    else (if IsUpper(s[0]) then ['_', ToLower(s[0])] else [s[0]]) + ToSnake(s[1..])
  }

  // ---- The mappers on keys ----

  lemma SnakeFreeTail(s: string)
    requires s != []
    ensures SnakeFree(s) <==> !PairAt(s, 0) && SnakeFree(s[1..])
  {
    forall i: nat | i < |s[1..]| ensures PairAt(s[1..], i) == PairAt(s, i + 1) {
    }
    forall i: nat | 0 < i < |s| ensures PairAt(s, i) == PairAt(s[1..], i - 1) {
    }
  }

  /** Camel keys hold no underscore followed by a lower-case letter, and such keys are fixed. */
  lemma {:induction false} CamelFixpoints(s: string)
    ensures SnakeFree(SnakeToCamel(s))
    ensures SnakeToCamel(s) == s <==> SnakeFree(s)
    ensures |SnakeToCamel(s)| <= |s|
    decreases |s|
  {
    if s != [] {
      var camel := SnakeToCamel(s);
      SnakeFreeTail(s);
      SnakeFreeTail(camel);
      if PairAt(s, 0) {
        CamelFixpoints(s[2..]);
        assert camel[1..] == SnakeToCamel(s[2..]);
      } else {
        CamelFixpoints(s[1..]);
        assert camel[1..] == SnakeToCamel(s[1..]);
      }
    }
  }

  lemma {:induction false} CamelAfterSnake(s: string)
    ensures SnakeToCamel(ToSnake(s)) == SnakeToCamel(s)
    decreases |s|
  {
    if s != [] {
      var snake := ToSnake(s);
      if IsUpper(s[0]) {
        assert snake[2..] == ToSnake(s[1..]);
        CamelAfterSnake(s[1..]);
      } else {
        assert snake[1..] == ToSnake(s[1..]);
        CamelAfterSnake(s[1..]);
        if PairAt(s, 0) {
          assert snake[2..] == ToSnake(s[2..]);
          CamelAfterSnake(s[2..]);
        }
      }
    }
  }

  /** camel -> snake -> camel is the identity exactly on keys without an underscore
      followed by a lower-case letter. */
  lemma CamelRoundTrip(s: string)
    ensures SnakeToCamel(ToSnake(s)) == s <==> SnakeFree(s)
  {
    CamelAfterSnake(s);
    CamelFixpoints(s);
  }

  lemma {:induction false} SnakeHasNoUpper(s: string)
    ensures UpperFree(ToSnake(s))
  {
    if s != [] {
      SnakeHasNoUpper(s[1..]);
    }
  }

  lemma {:induction false} SnakeAfterCamel(s: string)
    requires UpperFree(s)
    ensures ToSnake(SnakeToCamel(s)) == s
    decreases |s|
  {
    if s != [] {
      var camel := SnakeToCamel(s);
      if PairAt(s, 0) {
        SnakeAfterCamel(s[2..]);
        assert camel[1..] == SnakeToCamel(s[2..]);
        assert s == [s[0], s[1]] + s[2..];
      } else {
        SnakeAfterCamel(s[1..]);
        assert camel[1..] == SnakeToCamel(s[1..]);
      }
    }
  }

  /** snake -> camel -> snake is the identity exactly on keys without upper-case letters. */
  lemma {:induction false} SnakeRoundTrip(s: string)
    ensures ToSnake(SnakeToCamel(s)) == s <==> UpperFree(s)
  {
    SnakeHasNoUpper(SnakeToCamel(s));
    if UpperFree(s) {
      SnakeAfterCamel(s);
    }
  }

  // ---- Objects ----

  type Entries = seq<(string, Value)>

  /** Assignment of a property: a new key goes last, a known one keeps its place. */
  function Assign(out: Entries, key: string, value: Value): Entries {
    if out == [] then [(key, value)]
    else if out[0].0 == key then [(key, value)] + out[1..]
    else [out[0]] + Assign(out[1..], key, value)
  }

  function Assigned(pairs: Entries): Entries {
    if pairs == [] then []
    else
      var last := pairs[|pairs| - 1];
      Assign(Assigned(pairs[..|pairs| - 1]), last.0, last.1)
  }

  function KeysToCamel(v: Value): Value
    decreases v, 1
  {
    match v
    case List(items) => List(seq(|items|, i requires 0 <= i < |items| => KeysToCamel(items[i])))
    case Obj(entries) => Obj(Assigned(CamelPairs(entries)))
    case _ => v
  }

  function CamelPairs(entries: Entries): Entries
    decreases Obj(entries), 0
  {
    seq(|entries|, i requires 0 <= i < |entries| => (SnakeToCamel(entries[i].0), KeysToCamel(entries[i].1)))
  }

  predicate DistinctKeys(entries: Entries) {
    forall i, j | 0 <= i < j < |entries| :: entries[i].0 != entries[j].0
  }

  /** Every object inside has distinct keys, none with an underscore before a letter a-z. */
  predicate Canonical(v: Value) {
    match v
    case List(items) => forall i | 0 <= i < |items| :: Canonical(items[i])
    case Obj(entries) => DistinctKeys(entries) && forall i | 0 <= i < |entries| :: CanonicalEntry(entries[i])
    case _ => true
  }

  predicate CanonicalEntry(e: (string, Value)) {
    SnakeFree(e.0) && Canonical(e.1)
  }

  lemma {:induction false} AssignMembers(out: Entries, key: string, value: Value)
    requires DistinctKeys(out)
    ensures forall e | e in Assign(out, key, value) :: e == (key, value) || (e in out && e.0 != key)
    ensures DistinctKeys(Assign(out, key, value))
  {
    if out != [] {
      AssignMembers(out[1..], key, value);
      if out[0].0 != key {
        var rest := Assign(out[1..], key, value);
        forall j | 0 <= j < |rest| ensures rest[j].0 != out[0].0 {
          assert rest[j] in rest;
        }
      }
    }
  }

  lemma {:induction false} AssignedMembers(pairs: Entries)
    ensures DistinctKeys(Assigned(pairs)) && forall e | e in Assigned(pairs) :: e in pairs
  {
    if pairs != [] {
      AssignedMembers(pairs[..|pairs| - 1]);
      AssignMembers(Assigned(pairs[..|pairs| - 1]), pairs[|pairs| - 1].0, pairs[|pairs| - 1].1);
    }
  }

  lemma {:induction false} AssignNew(out: Entries, key: string, value: Value)
    requires forall i | 0 <= i < |out| :: out[i].0 != key
    ensures Assign(out, key, value) == out + [(key, value)]
  {
    if out != [] {
      AssignNew(out[1..], key, value);
      assert out == [out[0]] + out[1..];
    }
  }

  lemma {:induction false} AssignedDistinct(pairs: Entries)
    requires DistinctKeys(pairs)
    ensures Assigned(pairs) == pairs
  {
    if pairs != [] {
      AssignedDistinct(pairs[..|pairs| - 1]);
      AssignNew(pairs[..|pairs| - 1], pairs[|pairs| - 1].0, pairs[|pairs| - 1].1);
    }
  }

  lemma {:induction false} CamelIsCanonical(v: Value)
    ensures Canonical(KeysToCamel(v))
    decreases v
  {
    match v
    case List(items) =>
      forall i | 0 <= i < |items| ensures Canonical(KeysToCamel(items[i])) {
        CamelIsCanonical(items[i]);
      }
    case Obj(entries) =>
      var pairs := CamelPairs(entries);
      AssignedMembers(pairs);
      forall e | e in pairs ensures CanonicalEntry(e) {
        var i :| 0 <= i < |entries| && pairs[i] == e;
        CamelIsCanonical(entries[i].1);
        CamelFixpoints(entries[i].0);
      }
      assert forall i | 0 <= i < |Assigned(pairs)| :: Assigned(pairs)[i] in pairs;
    case _ =>
  }

  lemma {:induction false} CanonicalIsFixed(v: Value)
    requires Canonical(v)
    ensures KeysToCamel(v) == v
    decreases v
  {
    match v
    case List(items) =>
      forall i | 0 <= i < |items| ensures KeysToCamel(items[i]) == items[i] {
        CanonicalIsFixed(items[i]);
      }
    case Obj(entries) =>
      forall i | 0 <= i < |entries| ensures CamelPairs(entries)[i] == entries[i] {
        assert CanonicalEntry(entries[i]);
        CanonicalIsFixed(entries[i].1);
        CamelFixpoints(entries[i].0);
      }
      assert CamelPairs(entries) == entries;
      AssignedDistinct(entries);
    case _ =>
  }

  /** Converting keys is idempotent on every nested value, and leaves a value alone
      exactly when all its objects already have distinct camel keys. */
  lemma KeysToCamelIdempotent(v: Value)
    ensures KeysToCamel(KeysToCamel(v)) == KeysToCamel(v)
    ensures KeysToCamel(v) == v <==> Canonical(v)
  {
    CamelIsCanonical(v);
    CanonicalIsFixed(KeysToCamel(v));
    if Canonical(v) {
      CanonicalIsFixed(v);
    }
  }

  // ---- Colliding keys ----

  function Lookup(entries: Entries, key: string): Option<Value> {
    if entries == [] then None
    else if entries[0].0 == key then Some(entries[0].1)
    else Lookup(entries[1..], key)
  }

  /** The value of the last entry whose converted key is `key`. */
  function LastWith(entries: Entries, key: string): Option<Value> {
    if entries == [] then None
    else
      var last := entries[|entries| - 1];
      if SnakeToCamel(last.0) == key then Some(last.1) else LastWith(entries[..|entries| - 1], key)
  }

  lemma {:induction false} LookupAssign(out: Entries, key: string, value: Value, wanted: string)
    ensures Lookup(Assign(out, key, value), wanted) == if wanted == key then Some(value) else Lookup(out, wanted)
  {
    if out != [] {
      LookupAssign(out[1..], key, value, wanted);
    }
  }

  /** A property of the result holds the converted value of the last entry whose key
      becomes that property. */
  lemma {:induction false} LastEntryWins(entries: Entries, key: string)
    ensures var found := Lookup(KeysToCamel(Obj(entries)).entries, key);
            var last := LastWith(entries, key);
            found == if last.Some? then Some(KeysToCamel(last.value)) else None
  {
    if entries != [] {
      var n := |entries| - 1;
      LastEntryWins(entries[..n], key);
      assert CamelPairs(entries)[..n] == CamelPairs(entries[..n]);
      LookupAssign(Assigned(CamelPairs(entries[..n])), SnakeToCamel(entries[n].0), KeysToCamel(entries[n].1), key);
    }
  }

  // ---- Rows ----

  function SnakePairs(row: Entries): Entries {
    seq(|row|, i requires 0 <= i < |row| => (ToSnake(row[i].0), row[i].1))
  }

  /** Assigning this key to a JavaScript object sets its prototype and creates no property. */
  const PROTO: string := "__proto__"

  /** Converted camel keys never are that key, so keysToCamel loses nothing to it. */
  lemma CamelNeverProto(s: string)
    ensures SnakeToCamel(s) != PROTO
  {
    CamelFixpoints(s);
    assert PairAt(PROTO, 1);
  }

  lemma {:induction false} SnakeOfUpperFree(s: string)
    requires UpperFree(s)
    ensures ToSnake(s) == s
  {
    if s != [] {
      SnakeOfUpperFree(s[1..]);
    }
  }

  lemma SnakeOfProto()
    ensures ToSnake("_Proto__") == PROTO
  {
    var tail := "roto__";
    SnakeOfUpperFree(tail);
    assert "Proto__"[1..] == tail;
    assert ToSnake("Proto__") == "_p" + tail;
    assert "_Proto__"[1..] == "Proto__";
  }

  lemma CamelOfProto()
    ensures SnakeToCamel(PROTO) == "_Proto__"
  {
    var tail := "roto__";
    CamelFixpoints(tail);
    assert "_proto__"[2..] == tail && PairAt("_proto__", 0);
    assert SnakeToCamel("_proto__") == "P" + tail;
    assert PROTO[1..] == "_proto__" && !PairAt(PROTO, 0);
  }

  lemma SnakeIsProto(s: string)
    requires SnakeFree(s)
    ensures ToSnake(s) == PROTO <==> s == "_Proto__"
  {
    SnakeOfProto();
    CamelOfProto();
    CamelRoundTrip(s);
  }

  /** The pairs whose assignment creates a property. */
  function OwnPairs(pairs: Entries): Entries {
    if pairs == [] then []
    else
      var last := pairs[|pairs| - 1];
      OwnPairs(pairs[..|pairs| - 1]) + if last.0 == PROTO then [] else [last]
  }

  lemma OwnPairsSnoc(pairs: Entries, last: (string, Value))
    ensures Assigned(OwnPairs(pairs + [last]))
         == if last.0 == PROTO then Assigned(OwnPairs(pairs)) else Assign(Assigned(OwnPairs(pairs)), last.0, last.1)
  {
    assert (pairs + [last])[..|pairs|] == pairs;
    assert OwnPairs(pairs) + [] == OwnPairs(pairs);
    assert (OwnPairs(pairs) + [last])[..|OwnPairs(pairs)|] == OwnPairs(pairs);
  }

  lemma {:induction false} OwnPairsLaw(pairs: Entries)
    ensures |OwnPairs(pairs)| <= |pairs|
    ensures if forall i | 0 <= i < |pairs| :: pairs[i].0 != PROTO then OwnPairs(pairs) == pairs
            else |OwnPairs(pairs)| < |pairs|
  {
    if pairs != [] {
      OwnPairsLaw(pairs[..|pairs| - 1]);
      assert pairs == pairs[..|pairs| - 1] + [pairs[|pairs| - 1]];
    }
  }

  lemma {:induction false} AssignLength(out: Entries, key: string, value: Value)
    ensures |Assign(out, key, value)| <= |out| + 1
  {
    if out != [] {
      AssignLength(out[1..], key, value);
    }
  }

  lemma {:induction false} AssignedLength(pairs: Entries)
    ensures |Assigned(pairs)| <= |pairs|
  {
    if pairs != [] {
      var last := pairs[|pairs| - 1];
      AssignedLength(pairs[..|pairs| - 1]);
      AssignLength(Assigned(pairs[..|pairs| - 1]), last.0, last.1);
    }
  }

  lemma SnakeRestores(row: Entries)
    requires DistinctKeys(row) && forall i | 0 <= i < |row| :: SnakeFree(row[i].0)
    requires forall i | 0 <= i < |row| :: Canonical(row[i].1)
    ensures Assigned(SnakePairs(row)) == SnakePairs(row)
    ensures KeysToCamel(Obj(Assigned(SnakePairs(row)))) == Obj(row)
  {
    var snake := SnakePairs(row);
    forall i | 0 <= i < |row| ensures SnakeToCamel(snake[i].0) == row[i].0 && KeysToCamel(row[i].1) == row[i].1 {
      CamelRoundTrip(row[i].0);
      CanonicalIsFixed(row[i].1);
    }
    AssignedDistinct(snake);
    assert CamelPairs(snake) == row;
    AssignedDistinct(row);
  }

  /** A row with distinct camel keys, its values' keys being camel keys too, keeps all its
      columns and is restored by converting back exactly when no key is `_Proto__`. */
  lemma RowRoundTrip(row: Entries)
    requires DistinctKeys(row) && forall i | 0 <= i < |row| :: SnakeFree(row[i].0)
    requires forall i | 0 <= i < |row| :: Canonical(row[i].1)
    ensures var out := Assigned(OwnPairs(SnakePairs(row)));
            var harmless := forall i | 0 <= i < |row| :: row[i].0 != "_Proto__";
            && (harmless ==> out == SnakePairs(row))
            && (KeysToCamel(Obj(out)) == Obj(row) <==> harmless)
  {
    var snake := SnakePairs(row);
    forall i | 0 <= i < |row| ensures snake[i].0 == PROTO <==> row[i].0 == "_Proto__" {
      SnakeIsProto(row[i].0);
    }
    OwnPairsLaw(snake);
    if forall i | 0 <= i < |row| :: row[i].0 != "_Proto__" {
      SnakeRestores(row);
    } else {
      var out := Assigned(OwnPairs(snake));
      AssignedLength(OwnPairs(snake));
      AssignedLength(CamelPairs(out));
    }
  }

  // ---- The loops ----

  method ToSnakeKeys(row: Entries) returns (out: Entries)
    ensures out == Assigned(OwnPairs(SnakePairs(row)))
  {
    out := [];
    for i := 0 to |row|
      invariant out == Assigned(OwnPairs(SnakePairs(row)[..i]))
    {
      var key := ToSnake(row[i].0);
      if key != PROTO {
        out := Assign(out, key, row[i].1);
      }
      OwnPairsSnoc(SnakePairs(row)[..i], (key, row[i].1));
      assert SnakePairs(row)[..i + 1] == SnakePairs(row)[..i] + [(key, row[i].1)];
    }
    assert SnakePairs(row)[..|row|] == SnakePairs(row);
  }

  method ConvertKeys(v: Value) returns (r: Value)
    ensures r == KeysToCamel(v)
    decreases v
  {
    match v
    case List(items) =>
      var out: seq<Value> := [];
      for i := 0 to |items|
        invariant |out| == i && forall j | 0 <= j < i :: out[j] == KeysToCamel(items[j])
      {
        var item := ConvertKeys(items[i]);
        out := out + [item];
      }
      r := List(out);
    case Obj(entries) =>
      var out: Entries := [];
      for i := 0 to |entries|
        invariant out == Assigned(CamelPairs(entries)[..i])
      {
        var value := ConvertKeys(entries[i].1);
        out := Assign(out, SnakeToCamel(entries[i].0), value);
        assert CamelPairs(entries)[..i + 1][..i] == CamelPairs(entries)[..i];
      }
      assert CamelPairs(entries)[..|entries|] == CamelPairs(entries);
      r := Obj(out);
    case _ =>
      r := v;
  }
}
