/** Decoded JSON values, as the structured extractors return them. */
module Payloads {

  /** A boolean is the integer 0 or 1, which is what `isinstance(value, int)` sees. */
  datatype Value =
    | Null
    | Int(n: int)
    | Real(x: real)
    | Str(s: string)
    | List(items: seq<Value>)
    | Dict(fields: map<string, Value>)

  /** `dict.get`: a missing key reads as null. */
  function Get(fields: map<string, Value>, key: string): Value {
    if key in fields then fields[key] else Null
  }

  /** The list the validator and the span repairer read. */
  function ClaimsFirst(fields: map<string, Value>): Value {
    if Get(fields, "claims").List? then Get(fields, "claims") else Get(fields, "candidates")
  }

  /** The list the adapter reads. */
  function CandidatesFirst(fields: map<string, Value>): Value {
    if Get(fields, "candidates").List? then Get(fields, "candidates") else Get(fields, "claims")
  }

  /** The span an entry states: its own two integers, else those of its `evidence_span`. */
  function SpanOf(fields: map<string, Value>): (Value, Value) {
    var start, end := Get(fields, "support_char_start"), Get(fields, "support_char_end");
    var alias := Get(fields, "evidence_span");
    if start.Int? && end.Int? then (start, end)
    else if alias.Dict? then (Get(alias.fields, "char_start"), Get(alias.fields, "char_end"))
    else (start, end)
  }
}
