/** `validate_extraction_payload`: the claim-extraction-v1 contract. */
module ExtractionSchema {
  import opened Options
  import opened Text
  import opened Payloads
  import opened Spans

  datatype Reason = PayloadNotADict | MissingClaimsList | Claim(index: nat, what: string)

  const EVIDENCE_KINDS := {"direct", "inference", "summary", "unknown"}
  const SUPPORT_RELATIONS := {"supports", "contradicts", "summarizes", "mentions", "inferred_from", "unknown"}
  const REQUIRED_STRINGS := ["subject", "predicate", "object", "claim_text"]
  const OPTIONAL_FLOATS := ["confidence", "salience", "user_explicitness", "long_term_usefulness", "project_relevance",
                            "actionability", "contradiction_value", "uncertainty", "triviality", "short_livedness"]

  predicate NonBlank(v: Value) {
    v.Str? && Strip(v.s) != ""
  }

  predicate InUnitRange(v: Value) {
    (v.Int? && 0 <= v.n <= 1) || (v.Real? && 0.0 <= v.x <= 1.0)
  }

  function StringFault(fields: map<string, Value>, names: seq<string>): Option<string> {
    if names == [] then None
    else if !NonBlank(Get(fields, names[0])) then Some("missing_" + names[0])
    else StringFault(fields, names[1..])
  }

  function FloatFault(fields: map<string, Value>, names: seq<string>): Option<string> {
    if names == [] then None
    else if names[0] !in fields then FloatFault(fields, names[1..])
    else if !(fields[names[0]].Int? || fields[names[0]].Real?) then Some(names[0] + "_not_numeric")
    else if !InUnitRange(fields[names[0]]) then Some(names[0] + "_out_of_range")
    else FloatFault(fields, names[1..])
  }

  function SpanFault(fields: map<string, Value>): Option<string> {
    var (start, end) := SpanOf(fields);
    if !start.Int? || !end.Int? then
      if Get(fields, "support_char_start").Int? then Some("missing_support_char_end")
        else Some("missing_support_char_start")
    else if start.n < 0 then Some("support_char_start_negative")
    else if end.n <= start.n then Some("zero_length_span")
    else None
  }

  function TokenFault(fields: map<string, Value>): Option<string> {
    if ("support_token_start" in fields) != ("support_token_end" in fields) then Some("partial_token_span")
    else if "support_token_start" !in fields then None
    else
      var start, end := fields["support_token_start"], fields["support_token_end"];
      if !start.Int? || !end.Int? then Some("token_span_not_int")
      else if start.n < 0 || end.n <= start.n then Some("invalid_token_span_range")
      else None
  }

  function ShapeFault(fields: map<string, Value>): Option<string> {
    var quote, meta := Get(fields, "support_quote_text"), Get(fields, "metadata");
    var kind, legacy := Get(fields, "evidence_kind"), Get(fields, "evidence_relation");
    var relation := Get(fields, "support_relation");
    if quote != Null && !quote.Str? then Some("support_quote_text_not_str")
    else if meta != Null && !meta.Dict? then Some("metadata_not_dict")
    else if kind != Null && !(kind.Str? && kind.s in EVIDENCE_KINDS) then Some("evidence_kind_invalid")
    else if legacy != Null && !NonBlank(legacy) then Some("evidence_relation_invalid")
    else if relation != Null && !(relation.Str? && relation.s in SUPPORT_RELATIONS) then
      Some("support_relation_invalid")
    else None
  }

  function QuoteFault(fields: map<string, Value>, source: Option<string>): Option<string> {
    var (start, end) := SpanOf(fields);
    var quote := Get(fields, "support_quote_text");
    if source.None? || !start.Int? || !end.Int? then None
    else if end.n > |source.value| then Some("span_out_of_bounds")
    else if quote.Str? && !ValidateSpan(source.value, start.n, end.n, quote.s) then Some("quote_mismatch")
    else None
  }

  function First(a: Option<string>, b: Option<string>): Option<string> {
    if a.Some? then a else b
  }

  /** The first fault of one entry. */
  function EntryFault(entry: Value, source: Option<string>): Option<string> {
    if !entry.Dict? then Some("not_a_dict")
    else
      var fields := entry.fields;
      First(StringFault(fields, REQUIRED_STRINGS),
      First(SpanFault(fields),
      First(TokenFault(fields),
      First(FloatFault(fields, OPTIONAL_FLOATS),
      First(ShapeFault(fields), QuoteFault(fields, source))))))
  }

  function FirstFault(items: seq<Value>, index: nat, source: Option<string>): Option<Reason> {
    if items == [] then None
    else match EntryFault(items[0], source)
      case Some(what) => Some(Claim(index, what))
      case None => FirstFault(items[1..], index + 1, source)
  }

  /** `validate_extraction_payload`: the first violation, or none. */
  function Violation(payload: Value, source: Option<string>): Option<Reason> {
    if !payload.Dict? then Some(PayloadNotADict)
    else
      var claims := ClaimsFirst(payload.fields);
      if !claims.List? then Some(MissingClaimsList) else FirstFault(claims.items, 0, source)
  }

  // ---------------------------------------------------------------- the contract, said all at once

  predicate Stated(fields: map<string, Value>) {
    forall name :: name in REQUIRED_STRINGS ==> NonBlank(Get(fields, name))
  }

  predicate InRange(fields: map<string, Value>) {
    forall name :: name in OPTIONAL_FLOATS && name in fields ==> InUnitRange(fields[name])
  }

  predicate Spanned(fields: map<string, Value>, source: Option<string>) {
    var (start, end) := SpanOf(fields);
    var quote := Get(fields, "support_quote_text");
    && start.Int? && end.Int? && 0 <= start.n < end.n
    && (source.Some? ==> end.n <= |source.value| && (quote.Str? ==> source.value[start.n..end.n] == quote.s))
  }

  predicate TokenSpanned(fields: map<string, Value>) {
    var start, end := Get(fields, "support_token_start"), Get(fields, "support_token_end");
    || ("support_token_start" !in fields && "support_token_end" !in fields)
    || ("support_token_start" in fields && "support_token_end" in fields && start.Int? && end.Int?
         && 0 <= start.n < end.n)
  }

  predicate Shaped(fields: map<string, Value>) {
    var quote, meta := Get(fields, "support_quote_text"), Get(fields, "metadata");
    var kind, legacy := Get(fields, "evidence_kind"), Get(fields, "evidence_relation");
    var relation := Get(fields, "support_relation");
    && (quote == Null || quote.Str?)
    && (meta == Null || meta.Dict?)
    && (kind == Null || (kind.Str? && kind.s in EVIDENCE_KINDS))
    && (legacy == Null || NonBlank(legacy))
    && (relation == Null || (relation.Str? && relation.s in SUPPORT_RELATIONS))
  }

  /** An entry that keeps the contract. */
  predicate Keeps(entry: Value, source: Option<string>) {
    && entry.Dict?
    && Stated(entry.fields) && Spanned(entry.fields, source) && TokenSpanned(entry.fields)
    && InRange(entry.fields) && Shaped(entry.fields)
  }

  lemma {:induction false} StringFaultIff(fields: map<string, Value>, names: seq<string>)
    ensures StringFault(fields, names).None? <==> forall name :: name in names ==> NonBlank(Get(fields, name))
  {
    if names != [] {
      StringFaultIff(fields, names[1..]);
      assert names == [names[0]] + names[1..];
    }
  }

  lemma {:induction false} FloatFaultIff(fields: map<string, Value>, names: seq<string>)
    ensures FloatFault(fields, names).None? <==>
              forall name :: name in names && name in fields ==> InUnitRange(fields[name])
  {
    if names != [] {
      FloatFaultIff(fields, names[1..]);
      assert names == [names[0]] + names[1..];
    }
  }

  lemma {:induction false} SpanFaultsIff(fields: map<string, Value>, source: Option<string>)
    ensures SpanFault(fields).None? && QuoteFault(fields, source).None? <==> Spanned(fields, source)
  {
  }

  lemma {:induction false} TokenFaultIff(fields: map<string, Value>)
    ensures TokenFault(fields).None? <==> TokenSpanned(fields)
  {
  }

  lemma {:induction false} ShapeFaultIff(fields: map<string, Value>)
    ensures ShapeFault(fields).None? <==> Shaped(fields)
  {
  }

  /** An entry has no fault exactly when it keeps the contract. */
  lemma {:induction false} NoFaultIff(entry: Value, source: Option<string>)
    ensures EntryFault(entry, source).None? <==> Keeps(entry, source)
  {
    hide StringFault, FloatFault, SpanFault, QuoteFault, TokenFault, ShapeFault, Spanned, TokenSpanned, Shaped;
    if entry.Dict? {
      StringFaultIff(entry.fields, REQUIRED_STRINGS);
      SpanFaultsIff(entry.fields, source);
      TokenFaultIff(entry.fields);
      FloatFaultIff(entry.fields, OPTIONAL_FLOATS);
      ShapeFaultIff(entry.fields);
    }
  }

  ghost predicate AllKeep(items: seq<Value>, source: Option<string>) {
    forall k :: 0 <= k < |items| ==> Keeps(items[k], source)
  }

  /** Entry `k` is the first that does not keep the contract. */
  ghost predicate FirstBad(items: seq<Value>, k: nat, source: Option<string>) {
    k < |items| && !Keeps(items[k], source) && AllKeep(items[..k], source)
  }

  lemma {:induction false} FirstFaultIs(items: seq<Value>, index: nat, source: Option<string>)
    ensures var r := FirstFault(items, index, source);
            if r.None? then AllKeep(items, source)
            else r.value.Claim? && index <= r.value.index && FirstBad(items, r.value.index - index, source)
  {
    hide EntryFault, Keeps;
    if items != [] {
      NoFaultIff(items[0], source);
      if EntryFault(items[0], source).None? {
        FirstFaultIs(items[1..], index + 1, source);
        var r := FirstFault(items[1..], index + 1, source);
        if r.Some? {
          var k := r.value.index - index;
          assert items[..k] == [items[0]] + items[1..][..k - 1];
        }
      }
    }
  }

  /**
   * A payload passes exactly when it is a dict with a claims list all of whose entries
   * keep the contract; otherwise the reason names the first entry that does not.
   */
  lemma {:induction false} ViolationIs(payload: Value, source: Option<string>)
    ensures Violation(payload, source).None? <==>
              payload.Dict? && ClaimsFirst(payload.fields).List? && AllKeep(ClaimsFirst(payload.fields).items, source)
    ensures Violation(payload, source).Some? && Violation(payload, source).value.Claim? ==>
              FirstBad(ClaimsFirst(payload.fields).items, Violation(payload, source).value.index, source)
  {
    hide FirstFault, Keeps, ClaimsFirst;
    if payload.Dict? && ClaimsFirst(payload.fields).List? {
      FirstFaultIs(ClaimsFirst(payload.fields).items, 0, source);
    }
  }
}
