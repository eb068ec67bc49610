// Shared data: optional values and the dynamically typed JSON values that rule
// conditions, action parameters and API payloads are made of.

module Prelude {

  datatype Option<+T> = None | Some(value: T) {
    function GetOr(default: T): T {
      if Some? then value else default
    }
  }
}

/** The columns of a conversation that both the inbound pipeline and the agents' services
    write. */
module ConversationFields {
  import opened Prelude

  datatype Status = Open | Resolved | Pending | Snoozed

  /** What an incoming message does: a resolved conversation reopens ... */
  function Reopened(status: Status): Status {
    if status == Resolved then Open else status
  }

  /** ... and the contact waits from now unless already waiting. */
  function WaitingFrom(waitingSince: Option<int>, at: int): Option<int> {
    if waitingSince.None? then Some(at) else waitingSince
  }
}

module JsValues {
  import opened Prelude

  datatype Value =
    | Undefined
    | Null
    | Bool(b: bool)
    | Num(n: real)
    | Str(s: string)
    | Date(epochMs: int)
    | List(items: seq<Value>)
    | Obj(entries: seq<(string, Value)>)

  /** The conversions of the JavaScript runtime that the model leaves open.
      `number` is Number(v), None standing for NaN; `text` is String(v);
      `clean` is trim().toLowerCase(); `parseDate` is new Date(s).getTime(). */
  datatype Host = Host(
    number: Value -> Option<real>,
    text: Value -> string,
    lower: string -> string,
    trim: string -> string,
    parseDate: string -> Option<int>
  )

  predicate IsNullish(v: Value) {
    v.Undefined? || v.Null?
  }

  /** The === operator on values that come out of the database: two arrays or
      two objects are never the same reference. */
  predicate StrictEqual(a: Value, b: Value) {
    a == b && !a.List? && !a.Obj? && !a.Date?
  }

  function AsList(values: Value): seq<Value> {
    if IsNullish(values) then [] else if values.List? then values.items else [values]
  }
}
