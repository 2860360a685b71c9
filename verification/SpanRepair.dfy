/** `repair_payload_span_offsets`: claim dicts corrected in place from their quotes. */
module SpanRepair {
  import opened Options
  import opened Payloads
  import opened Spans
  import opened ExtractionSchema

  /** What the repairer does to one claim. */
  datatype Outcome = Keep | Move(at: SpanMatch) | Fail(what: string)

  function OutcomeOf(claim: Value, source: string, unique: bool): Outcome {
    if !claim.Dict? then Keep
    else
      var quote := Get(claim.fields, "support_quote_text");
      var start, end := Get(claim.fields, "support_char_start"), Get(claim.fields, "support_char_end");
      if !quote.Str? || quote.s == "" then Keep
      else if !start.Int? || !end.Int? then Keep
      else if ValidateSpan(source, start.n, end.n, quote.s) then Keep
      else if unique && Count(source, quote.s, 0) == 0 then Fail("span_repair_failed")
      else if unique && Count(source, quote.s, 0) > 1 then Fail("span_repair_ambiguous")
      else match FirstMatch(source, quote.s)
        case None => Fail("span_repair_failed")
        case Some(m) => Move(m)
  }

  /** The claim with its span, and its `evidence_span` if that is a dict, set to the match. */
  function Moved(fields: map<string, Value>, m: SpanMatch): map<string, Value> {
    var own := fields["support_char_start" := Int(m.charStart)]["support_char_end" := Int(m.charEnd)];
    var alias := Get(own, "evidence_span");
    if alias.Dict? then
      own["evidence_span" := Dict(alias.fields["char_start" := Int(m.charStart)]["char_end" := Int(m.charEnd)])]
    else own
  }

  function After(claim: Value, source: string, unique: bool): Value {
    var o := OutcomeOf(claim, source, unique);
    if o.Move? && claim.Dict? then Dict(Moved(claim.fields, o.at)) else claim
  }

  datatype Repair = Repair(items: seq<Value>, repaired: bool, error: Option<Reason>)

  /** The list as the repairer leaves it, from entry number `index` on. */
  function RepairFrom(items: seq<Value>, index: nat, source: string, unique: bool): Repair {
    if items == [] then Repair([], false, None)
    else
      var o := OutcomeOf(items[0], source, unique);
      if o.Fail? then Repair(items, false, Some(Claim(index, o.what)))
      else
        var rest := RepairFrom(items[1..], index + 1, source, unique);
        Repair([After(items[0], source, unique)] + rest.items, o.Move? || rest.repaired, rest.error)
  }

  /** The whole operation: the payload's fields afterwards and the error, if any. */
  function RepairPayload(fields: map<string, Value>, source: string, unique: bool): (map<string, Value>, Option<Reason>)
  {
    if !ClaimsFirst(fields).List? then (fields, None)
    else
      var key := if Get(fields, "claims").List? then "claims" else "candidates";
      var r := RepairFrom(ClaimsFirst(fields).items, 0, source, unique);
      (fields[key := List(r.items)], r.error)
  }

  // ---------------------------------------------------------------- in place

  /** A decoded JSON object, mutable. */
  class ClaimDict {
    var fields: map<string, Value>
  }

  datatype Item = Claimed(dict: ClaimDict) | Other(value: Value)

  function Dicts(items: seq<Item>): set<ClaimDict> {
    set k | 0 <= k < |items| && items[k].Claimed? :: items[k].dict
  }

  /** The entries of a decoded list are separate objects. */
  predicate Separate(items: seq<Item>) {
    && (forall k :: 0 <= k < |items| && items[k].Other? ==> !items[k].value.Dict?)
    && (forall j, k :: 0 <= j < k < |items| && items[j].Claimed? && items[k].Claimed? ==>
         items[j].dict != items[k].dict)
  }

  function ViewOf(item: Item): Value
    reads if item.Claimed? then {item.dict} else {}
  {
    match item
    case Claimed(dict) => Dict(dict.fields)
    case Other(value) => value
  }

  function View(items: seq<Item>): (view: seq<Value>)
    reads Dicts(items)
    ensures |view| == |items| && forall k :: 0 <= k < |items| ==> view[k] == ViewOf(items[k])
  {
    seq(|items|, k requires 0 <= k < |items| reads Dicts(items) => ViewOf(items[k]))
  }

  /** Entries below `k` repaired, the others as they were. */
  ghost predicate RepairedTo(was: seq<Value>, now: seq<Value>, k: nat, source: string, unique: bool) {
    && |now| == |was|
    && (forall j :: 0 <= j < k && j < |was| ==>
         now[j] == After(was[j], source, unique) && !OutcomeOf(was[j], source, unique).Fail?)
    && (forall j :: k <= j < |was| ==> now[j] == was[j])
  }

  ghost predicate AnyMoved(was: seq<Value>, k: nat, source: string, unique: bool) {
    exists j :: 0 <= j < k && j < |was| && OutcomeOf(was[j], source, unique).Move?
  }

  lemma {:induction false} RepairFromIs(was: seq<Value>, now: seq<Value>, k: nat, index: nat, repaired: bool,
      source: string, unique: bool)
    requires k <= |was| && RepairedTo(was, now, k, source, unique) && repaired == AnyMoved(was, k, source, unique)
    requires k < |was| ==> OutcomeOf(was[k], source, unique).Fail?
    ensures RepairFrom(was, index, source, unique)
              == Repair(
                now, repaired,
                if k == |was| then None else Some(Claim(index + k, OutcomeOf(was[k], source, unique).what)))
    decreases k
  {
    hide OutcomeOf, After;
    if k == 0 {
      assert now == was;
    } else {
      RepairFromIs(was[1..], now[1..], k - 1, index + 1, AnyMoved(was[1..], k - 1, source, unique), source, unique);
      AnyMovedStep(was, k, source, unique);
      assert now == [now[0]] + now[1..];
    }
  }

  lemma {:induction false} AnyMovedStep(was: seq<Value>, k: nat, source: string, unique: bool)
    requires 0 < k <= |was|
    ensures AnyMoved(was, k, source, unique) <==>
              OutcomeOf(was[0], source, unique).Move? || AnyMoved(was[1..], k - 1, source, unique)
  {
    hide OutcomeOf;
    if AnyMoved(was, k, source, unique) {
      var j :| 0 <= j < k && j < |was| && OutcomeOf(was[j], source, unique).Move?;
      assert j > 0 ==> was[j] == was[1..][j - 1];
    }
    if AnyMoved(was[1..], k - 1, source, unique) {
      var j :| 0 <= j < k - 1 && j < |was[1..]| && OutcomeOf(was[1..][j], source, unique).Move?;
      assert was[j + 1] == was[1..][j];
    }
  }

  /** `repair_payload_span_offsets` on the list it found. */
  method RepairSpanOffsets(items: seq<Item>, source: string, unique: bool)
    returns (repaired: bool, error: Option<Reason>)
    requires Separate(items)
    modifies Dicts(items)
    ensures Repair(View(items), repaired, error) == RepairFrom(old(View(items)), 0, source, unique)
  {
    ghost var was := View(items);
    repaired := false;
    var k := 0;
    hide OutcomeOf, After, RepairFrom, AnyMoved;
    assert !AnyMoved(was, 0, source, unique) by {
      NoneMoved(was, source, unique);
    }
    while k < |items|
      invariant 0 <= k <= |items|
      invariant RepairedTo(was, View(items), k, source, unique)
      invariant repaired == AnyMoved(was, k, source, unique)
    {
      label Turn:
      var failed, moved := RepairItem(items[k], source, unique);
      forall j | 0 <= j < |items| && j != k ensures ViewOf(items[j]) == old@Turn(ViewOf(items[j])) {
      }
      if failed.Some? {
        RepairFromIs(was, View(items), k, 0, repaired, source, unique);
        return repaired, Some(Claim(k, failed.value));
      }
      AnyMovedNext(was, k, source, unique);
      repaired := repaired || moved;
      k := k + 1;
    }
    RepairFromIs(was, View(items), k, 0, repaired, source, unique);
    return repaired, None;
  }

  lemma {:induction false} NoneMoved(was: seq<Value>, source: string, unique: bool)
    ensures !AnyMoved(was, 0, source, unique)
  {
  }

  lemma {:induction false} AnyMovedNext(was: seq<Value>, k: nat, source: string, unique: bool)
    requires k < |was|
    ensures AnyMoved(was, k + 1, source, unique) <==>
              AnyMoved(was, k, source, unique) || OutcomeOf(was[k], source, unique).Move?
  {
    hide OutcomeOf;
    if AnyMoved(was, k, source, unique) {
      var j :| 0 <= j < k && j < |was| && OutcomeOf(was[j], source, unique).Move?;
      assert 0 <= j < k + 1;
    }
  }

  /** One turn of the loop. */
  method RepairItem(item: Item, source: string, unique: bool) returns (failed: Option<string>, moved: bool)
    requires item.Other? ==> !item.value.Dict?
    modifies if item.Claimed? then {item.dict} else {}
    ensures var o := OutcomeOf(old(ViewOf(item)), source, unique);
            && failed == (if o.Fail? then Some(o.what) else None) && moved == o.Move?
            && (o.Fail? ==> ViewOf(item) == old(ViewOf(item)))
    ensures ViewOf(item) == After(old(ViewOf(item)), source, unique)
  {
    match item {
      case Other(value) =>
        return None, false;
      case Claimed(dict) =>
        failed, moved := RepairClaim(dict, source, unique);
    }
  }

  /** The turn for a claim that is a dict. */
  method RepairClaim(claim: ClaimDict, source: string, unique: bool) returns (failed: Option<string>, moved: bool)
    modifies claim
    ensures var o := OutcomeOf(old(Dict(claim.fields)), source, unique);
            && failed == (if o.Fail? then Some(o.what) else None) && moved == o.Move?
    ensures Dict(claim.fields) == After(old(Dict(claim.fields)), source, unique)
  {
    failed, moved := None, false;
    var quote := Get(claim.fields, "support_quote_text");
    var start, end := Get(claim.fields, "support_char_start"), Get(claim.fields, "support_char_end");
    if !quote.Str? || quote.s == "" {
      return;
    }
    if !start.Int? || !end.Int? {
      return;
    }
    if ValidateSpan(source, start.n, end.n, quote.s) {
      return;
    }
    var count := Count(source, quote.s, 0);
    if unique && count == 0 {
      return Some("span_repair_failed"), false;
    }
    if unique && count > 1 {
      return Some("span_repair_ambiguous"), false;
    }
    var m := RepairSpanFromQuote(source, quote.s);
    if m.None? {
      return Some("span_repair_failed"), false;
    }
    claim.fields := claim.fields["support_char_start" := Int(m.value.charStart)];
    claim.fields := claim.fields["support_char_end" := Int(m.value.charEnd)];
    var alias := Get(claim.fields, "evidence_span");
    if alias.Dict? {
      claim.fields := claim.fields["evidence_span" :=
        Dict(alias.fields["char_start" := Int(m.value.charStart)]["char_end" := Int(m.value.charEnd)])];
    }
    moved := true;
  }

  // ---------------------------------------------------------------- what repair achieves

  /** A claim the repairer looks at: a dict with a quote and an integer span. */
  predicate Quoted(claim: Value) {
    && claim.Dict?
    && Get(claim.fields, "support_quote_text").Str? && Get(claim.fields, "support_quote_text").s != ""
    && Get(claim.fields, "support_char_start").Int? && Get(claim.fields, "support_char_end").Int?
  }

  predicate SpanValid(claim: Value, source: string)
    requires Quoted(claim)
  {
    ValidateSpan(source, Get(claim.fields, "support_char_start").n, Get(claim.fields, "support_char_end").n,
                 Get(claim.fields, "support_quote_text").s)
  }

  /** Only the offsets may differ. */
  ghost predicate SameButOffsets(a: map<string, Value>, b: map<string, Value>) {
    forall key :: key !in ["support_char_start", "support_char_end", "evidence_span"] ==>
      (key in a <==> key in b) && Get(a, key) == Get(b, key)
  }

  /**
   * One claim: it is left alone unless it is quoted and invalid; moved, it is valid, at the
   * first occurrence of its quote, in its `evidence_span` too, and otherwise the same; it
   * fails exactly when the quote is missing or, if a unique one is asked for, counted twice.
   */
  lemma {:induction false} ClaimRepair(claim: Value, source: string, unique: bool)
    ensures var now := After(claim, source, unique);
            var o := OutcomeOf(claim, source, unique);
            && (!Quoted(claim) || SpanValid(claim, source) ==> o == Keep && now == claim)
            && (o.Fail? ==> now == claim)
            && (Quoted(claim) && !SpanValid(claim, source) ==>
                  var q := Get(claim.fields, "support_quote_text").s;
                  && (o.Fail? <==> Count(source, q, 0) == 0 || (unique && Count(source, q, 0) > 1))
                  && (!o.Fail? ==>
                        && Quoted(now) && SpanValid(now, source) && SameButOffsets(claim.fields, now.fields)
                        && Get(now.fields, "support_char_start") == Int(Find(source, q, 0).value)
                        && (Get(now.fields, "evidence_span").Dict? ==>
                              && Get(Get(now.fields, "evidence_span").fields, "char_start")
                                   == Get(now.fields, "support_char_start")
                              && Get(Get(now.fields, "evidence_span").fields, "char_end")
                                   == Get(now.fields, "support_char_end"))))
  {
    hide Count;
    if Quoted(claim) && !SpanValid(claim, source) {
      var q := Get(claim.fields, "support_quote_text").s;
      CountZeroFind(source, q);
      if OutcomeOf(claim, source, unique).Move? {
        MovedIs(claim.fields, source, q, FirstMatch(source, q).value);
      }
    }
  }

  lemma {:induction false} CountZeroFind(source: string, q: string)
    requires q != ""
    ensures Count(source, q, 0) == 0 <==> FirstMatch(source, q).None?
  {
  }

  lemma {:induction false} MovedIs(fields: map<string, Value>, source: string, q: string, m: SpanMatch)
    requires q != "" && FirstMatch(source, q) == Some(m) && Get(fields, "support_quote_text") == Str(q)
    ensures var now := Moved(fields, m);
            && Quoted(Dict(now)) && SpanValid(Dict(now), source) && SameButOffsets(fields, now)
            && Get(now, "support_char_start") == Int(m.charStart)
            && (Get(now, "evidence_span").Dict? ==>
                  && Get(Get(now, "evidence_span").fields, "char_start") == Get(now, "support_char_start")
                  && Get(Get(now, "evidence_span").fields, "char_end") == Get(now, "support_char_end"))
  {
  }

  /** Where the repairer stopped: entries before are repaired, that one and the rest untouched. */
  lemma {:induction false} RepairStops(items: seq<Value>, index: nat, source: string, unique: bool) returns (k: nat)
    ensures var r := RepairFrom(items, index, source, unique);
            && k <= |items| && RepairedTo(items, r.items, k, source, unique)
            && (r.error.None? <==> k == |items|)
            && (r.error.Some? ==>
                  && k < |items| && OutcomeOf(items[k], source, unique).Fail?
                  && r.error.value == Claim(index + k, OutcomeOf(items[k], source, unique).what))
  {
    hide OutcomeOf, After;
    if items == [] || OutcomeOf(items[0], source, unique).Fail? {
      k := 0;
    } else {
      k := RepairStops(items[1..], index + 1, source, unique);
      k := k + 1;
      var r := RepairFrom(items, index, source, unique);
      var rest := RepairFrom(items[1..], index + 1, source, unique);
      assert r.items[1..] == rest.items;
      forall j | 0 <= j < |items| ensures j > 0 ==> items[j] == items[1..][j - 1] && r.items[j] == rest.items[j - 1] {
      }
    }
  }

  /** When the repairer reports no error, every quoted claim of the list has a valid span. */
  lemma {:induction false} RepairSucceeds(items: seq<Value>, source: string, unique: bool)
    requires RepairFrom(items, 0, source, unique).error.None?
    ensures var now := RepairFrom(items, 0, source, unique).items;
            && |now| == |items|
            && forall j :: 0 <= j < |items| ==>
                 (&& now[j] == After(items[j], source, unique)
                 && (Quoted(items[j]) ==> Quoted(now[j]) && SpanValid(now[j], source))
                 && (Quoted(items[j]) && SpanValid(items[j], source) ==> now[j] == items[j]))
  {
    var k := RepairStops(items, 0, source, unique);
    hide OutcomeOf, After, RepairFrom, Quoted, SpanValid;
    forall j | 0 <= j < |items|
      ensures Quoted(items[j]) ==>
                Quoted(After(items[j], source, unique)) && SpanValid(After(items[j], source, unique), source)
      ensures Quoted(items[j]) && SpanValid(items[j], source) ==> After(items[j], source, unique) == items[j]
    {
      ClaimRepair(items[j], source, unique);
    }
  }

  /** When it reports an error at entry `k`, that claim still has no valid span. */
  lemma {:induction false} RepairFails(items: seq<Value>, source: string, unique: bool)
    requires RepairFrom(items, 0, source, unique).error.Some?
    ensures var r := RepairFrom(items, 0, source, unique);
            && r.error.value.Claim? && |r.items| == |items| && r.error.value.index < |items|
            && var k := r.error.value.index;
               RepairedTo(items, r.items, k, source, unique) && Quoted(items[k]) && !SpanValid(items[k], source)
  {
    var k := RepairStops(items, 0, source, unique);
    ClaimRepair(items[k], source, unique);
  }

  /** A moved claim whose quote has no border quotes the only place in the source where it occurs. */
  lemma {:induction false} MovedQuoteOccursOnce(claim: Value, source: string)
    requires OutcomeOf(claim, source, true).Move?
    requires BorderFree(Get(claim.fields, "support_quote_text").s)
    ensures OccursOnce(source, Get(claim.fields, "support_quote_text").s)
  {
    var q := Get(claim.fields, "support_quote_text").s;
    CountZeroFind(source, q);
    CountOneIsOnce(source, q);
  }
}
