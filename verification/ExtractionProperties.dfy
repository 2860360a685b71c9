/** What the extraction modes guarantee about the candidates they return. */
module ExtractionProperties {
  import opened Options
  import opened Text
  import opened Tokens
  import opened Chunking
  import opened Payloads
  import opened Spans
  import Schema = ExtractionSchema
  import opened SpanRepair
  import opened Sentences
  import opened Candidates
  import opened ClaimExtraction

  // ---------------------------------------------------------------- the quote search is never needed

  /** A sentence's candidate already quotes the chunk at its offsets. */
  lemma {:induction false} SentenceHoldsSpan(env: Env, chunk: ChunkRow, s: Sentence)
    requires IsSentence(chunk.text, s) && SentenceCandidate(env, chunk, s).Some?
    ensures HoldsSpan(SentenceCandidate(env, chunk, s).value, chunk.text, chunk.charStart)
    ensures FixedTwice(SentenceCandidate(env, chunk, s), chunk) == SentenceCandidate(env, chunk, s)
  {
    hide SpanInvariant, Unbroken, Trimmed, Tokenize, TokenRange;
    HoldsStays(SentenceCandidate(env, chunk, s).value, chunk.text, chunk.charStart);
  }

  lemma {:induction false} HoldsStays(c: Candidate, source: string, chunkStart: int)
    requires HoldsSpan(c, source, chunkStart)
    ensures SpanInvariant(c, source, chunkStart) == Some(c)
  {
  }

  /** So does the candidate built from an entry whose span was read. */
  lemma {:induction false} BuiltHoldsSpan(env: Env, fields: map<string, Value>, chunk: ChunkRow, from: nat, to: nat)
    requires from < to <= |chunk.text|
    ensures var c := Build(env, fields, chunk, from, to, chunk.text[from..to]);
            && HoldsSpan(c, chunk.text, chunk.charStart)
            && SpanInvariant(c, chunk.text, chunk.charStart) == Some(c)
  {
    hide TokenSpanOf, KindAndRelation, ParseMemoryType, FloatOr, RequiredStr;
  }

  // ---------------------------------------------------------------- an accepted entry

  predicate Fit(env: Env, fields: map<string, Value>, chunk: ChunkRow) {
    && HasStrings(fields) && ReadCharSpan(fields, chunk.text).None?
    && (HasTokenSpan(fields) ==> ReadTokenSpan(fields).None?)
    && var (start, end) := SpanOf(fields);
       var provided := Get(fields, "support_quote_text");
       && (provided == Null || provided == Str(chunk.text[start.n..end.n]))
       && (Falsy(Get(fields, "metadata")) || MakesDict(Get(fields, "metadata")))
  }

  /** An entry is accepted exactly when it is fit, as the candidate built from it. */
  lemma {:induction false} AcceptedIff(env: Env, fields: map<string, Value>, chunk: ChunkRow)
    ensures StructuredCandidate(env, fields, chunk).Accepted? <==> Fit(env, fields, chunk)
    ensures Fit(env, fields, chunk) ==>
              var (start, end) := SpanOf(fields);
              StructuredCandidate(env, fields, chunk)
              == Accepted(Build(env, fields, chunk, start.n, end.n, chunk.text[start.n..end.n]))
  {
    hide Build, SpanInvariant, HasStrings, HasTokenSpan, ReadTokenSpan, Falsy, MakesDict;
    if ReadCharSpan(fields, chunk.text).None? {
      var (start, end) := SpanOf(fields);
      BuiltHoldsSpan(env, fields, chunk, start.n, end.n);
    }
  }

  // ---------------------------------------------------------------- candidates of a list of entries

  /** Each entry of `entries` accepted, in order. */
  ghost predicate AllAccepted(env: Env, entries: seq<map<string, Value>>, chunk: ChunkRow, out: seq<Candidate>) {
    && |out| == |entries|
    && forall k :: 0 <= k < |entries| ==> StructuredCandidate(env, entries[k], chunk) == Accepted(out[k])
  }

  ghost predicate Acceptable(env: Env, entries: seq<map<string, Value>>, chunk: ChunkRow) {
    forall k :: 0 <= k < |entries| ==> StructuredCandidate(env, entries[k], chunk).Accepted?
  }

  ghost predicate Extends(env: Env, entries: seq<map<string, Value>>, chunk: ChunkRow, before: seq<Candidate>,
      all: seq<Candidate>)
  {
    before <= all && AllAccepted(env, entries, chunk, all[|before|..])
  }

  /** The adapter reports no reason exactly when it had none to begin with and accepts every entry. */
  lemma {:induction false} AdaptIff(env: Env, entries: seq<map<string, Value>>, chunk: ChunkRow, before: seq<Candidate>,
      reason: Option<Detail>)
    ensures var r := AdaptFrom(env, entries, chunk, before, reason);
            && (r.Structured? && r.reason.None? <==> reason.None? && Acceptable(env, entries, chunk))
            && (r.Structured? && r.reason.None? ==> Extends(env, entries, chunk, before, r.candidates))
  {
    hide StructuredCandidate, Extends;
    if entries == [] {
      ExtendsNone(env, chunk, before);
    } else {
      match StructuredCandidate(env, entries[0], chunk) {
        case Crashed =>
        case Refused(r) =>
          AdaptIff(env, entries[1..], chunk, before, if reason.None? then Some(Note(r)) else reason);
        case Accepted(c) =>
          AdaptIff(env, entries[1..], chunk, before + [c], reason);
          AcceptableCons(env, entries, chunk);
          var r := AdaptFrom(env, entries, chunk, before, reason);
          if r.Structured? && r.reason.None? {
            ExtendsCons(env, entries, chunk, before, c, r.candidates);
          }
      }
    }
  }

  lemma {:induction false} ExtendsNone(env: Env, chunk: ChunkRow, before: seq<Candidate>)
    ensures Extends(env, [], chunk, before, before)
  {
  }

  lemma {:induction false} AcceptableCons(env: Env, entries: seq<map<string, Value>>, chunk: ChunkRow)
    requires entries != []
    ensures Acceptable(env, entries, chunk) <==>
              StructuredCandidate(env, entries[0], chunk).Accepted? && Acceptable(env, entries[1..], chunk)
  {
    hide StructuredCandidate;
    assert forall k :: 1 <= k < |entries| ==> entries[k] == entries[1..][k - 1];
  }

  lemma {:induction false} ExtendsCons(env: Env, entries: seq<map<string, Value>>, chunk: ChunkRow,
      before: seq<Candidate>, c: Candidate, all: seq<Candidate>)
    requires entries != [] && StructuredCandidate(env, entries[0], chunk) == Accepted(c)
    requires Extends(env, entries[1..], chunk, before + [c], all)
    ensures Extends(env, entries, chunk, before, all)
  {
    hide StructuredCandidate;
    var out := all[|before|..];
    assert out[1..] == all[|before + [c]|..];
    assert out[0] == (before + [c])[|before|];
    forall k | 0 <= k < |entries| ensures StructuredCandidate(env, entries[k], chunk) == Accepted(out[k]) {
      if k > 0 {
        assert entries[k] == entries[1..][k - 1] && out[k] == out[1..][k - 1];
      }
    }
  }

  // ---------------------------------------------------------------- the adapter and the validator

  /** A dict payload with one list: the adapter and the validator then read the same one. */
  predicate OneList(payload: Value) {
    && payload.Dict?
    && (Get(payload.fields, "claims").List? != Get(payload.fields, "candidates").List?)
  }

  lemma {:induction false} KeepsSpan(fields: map<string, Value>, text: string)
    requires Schema.Spanned(fields, Some(text)) && Schema.Shaped(fields)
    ensures ReadCharSpan(fields, text).None?
    ensures var (start, end) := SpanOf(fields);
            var provided := Get(fields, "support_quote_text");
            && start.Int? && end.Int? && 0 <= start.n <= end.n <= |text|
            && (provided == Null || provided == Str(text[start.n..end.n]))
  {
    hide SpanOf, Schema.NonBlank;
  }

  lemma {:induction false} KeepsTokens(fields: map<string, Value>)
    requires Schema.TokenSpanned(fields)
    ensures HasTokenSpan(fields) ==> ReadTokenSpan(fields).None?
  {
  }

  lemma {:induction false} KeepsMetadata(fields: map<string, Value>)
    requires Schema.Shaped(fields)
    ensures Falsy(Get(fields, "metadata")) || MakesDict(Get(fields, "metadata"))
  {
  }

  /** An entry that keeps the contract is fit for the adapter. */
  lemma {:induction false} KeepsIsFit(env: Env, entry: Value, chunk: ChunkRow)
    requires Schema.Keeps(entry, Some(chunk.text))
    ensures Fit(env, entry.fields, chunk)
  {
    hide Schema.Stated, Schema.Spanned, Schema.TokenSpanned, Schema.Shaped, Schema.InRange;
    hide HasStrings, ReadCharSpan, HasTokenSpan, ReadTokenSpan, SpanOf, Falsy, MakesDict;
    KeepsStrings(entry.fields);
    KeepsSpan(entry.fields, chunk.text);
    KeepsTokens(entry.fields);
    KeepsMetadata(entry.fields);
  }

  lemma {:induction false} KeepsStrings(fields: map<string, Value>)
    requires Schema.Stated(fields)
    ensures HasStrings(fields)
  {
    assert Schema.REQUIRED_STRINGS[0] == "subject" && Schema.REQUIRED_STRINGS[1] == "predicate";
    assert Schema.REQUIRED_STRINGS[2] == "object" && Schema.REQUIRED_STRINGS[3] == "claim_text";
  }

  lemma {:induction false} DictsOfDicts(items: seq<Value>)
    requires forall k :: 0 <= k < |items| ==> items[k].Dict?
    ensures |DictsOf(items)| == |items|
    ensures forall k :: 0 <= k < |items| ==> DictsOf(items)[k] == items[k].fields
  {
    if items != [] {
      assert forall k :: 0 <= k < |items[1..]| ==> items[1..][k] == items[k + 1];
      DictsOfDicts(items[1..]);
    }
  }

  ghost predicate AllFit(env: Env, items: seq<Value>, chunk: ChunkRow) {
    forall k :: 0 <= k < |items| ==> items[k].Dict? && Fit(env, items[k].fields, chunk)
  }

  /** The adapter gives no reason and one candidate for each of these items, in order. */
  ghost predicate OneEach(env: Env, payload: Value, chunk: ChunkRow, items: seq<Value>) {
    var r := Adapted(env, payload, chunk);
    && r.Structured? && r.reason.None? && |r.candidates| == |items|
    && forall k :: 0 <= k < |items| ==>
         items[k].Dict? && StructuredCandidate(env, items[k].fields, chunk) == Accepted(r.candidates[k])
  }

  lemma {:induction false} FitEntries(env: Env, items: seq<Value>, chunk: ChunkRow)
    requires forall k :: 0 <= k < |items| ==> items[k].Dict?
    ensures Acceptable(env, DictsOf(items), chunk) <==> AllFit(env, items, chunk)
  {
    hide StructuredCandidate, Fit;
    DictsOfDicts(items);
    forall k | 0 <= k < |items|
      ensures StructuredCandidate(env, DictsOf(items)[k], chunk).Accepted? <==> Fit(env, items[k].fields, chunk)
    {
      AcceptedIff(env, items[k].fields, chunk);
    }
  }

  lemma ExtendsWhole(env: Env, entries: seq<map<string, Value>>, chunk: ChunkRow, r: Structured)
    requires r.Structured?
    ensures Extends(env, entries, chunk, [], r.candidates) ==> AllAccepted(env, entries, chunk, r.candidates)
  {
    hide StructuredCandidate;
    assert r.candidates[0..] == r.candidates;
  }

  /** A payload with entries and no schema reason is adapted without a reason exactly when every entry is accepted. */
  lemma AdaptedWhole(env: Env, payload: Value, chunk: ChunkRow)
    requires Entries(payload) != [] && SchemaReason(payload, chunk.text).None?
    ensures var r := Adapted(env, payload, chunk);
            && (r.Structured? && r.reason.None? <==> Acceptable(env, Entries(payload), chunk))
            && (r.Structured? && r.reason.None? ==> AllAccepted(env, Entries(payload), chunk, r.candidates))
  {
    hide AdaptFrom, Acceptable, Entries, SchemaReason, Extends;
    var entries := Entries(payload);
    AdaptIff(env, entries, chunk, [], None);
    var f := AdaptFrom(env, entries, chunk, [], None);
    if f.Structured? {
      ExtendsWhole(env, entries, chunk, f);
    }
  }

  lemma AllAcceptedAre(env: Env, items: seq<Value>, chunk: ChunkRow, out: seq<Candidate>)
    requires forall k :: 0 <= k < |items| ==> items[k].Dict?
    ensures AllAccepted(env, DictsOf(items), chunk, out) <==>
              |out| == |items| && forall k :: 0 <= k < |items| ==>
                StructuredCandidate(env, items[k].fields, chunk) == Accepted(out[k])
  {
    hide StructuredCandidate;
    DictsOfDicts(items);
  }

  /** A payload with entries all of which are dicts: one candidate each exactly when all are fit. */
  lemma OneEachOfDicts(env: Env, payload: Value, chunk: ChunkRow, items: seq<Value>)
    requires Entries(payload) == DictsOf(items) && SchemaReason(payload, chunk.text).None? && items != []
    requires forall k :: 0 <= k < |items| ==> items[k].Dict?
    ensures OneEach(env, payload, chunk, items) <==> AllFit(env, items, chunk)
  {
    hide StructuredCandidate, Adapted, Acceptable, AllAccepted, AllFit, Entries, SchemaReason;
    DictsOfDicts(items);
    hide DictsOf;
    FitEntries(env, items, chunk);
    AdaptedWhole(env, payload, chunk);
    var r := Adapted(env, payload, chunk);
    if r.Structured? {
      AllAcceptedAre(env, items, chunk, r.candidates);
    }
  }

  lemma OneEachOfNone(env: Env, payload: Value, chunk: ChunkRow)
    requires Entries(payload) == []
    ensures OneEach(env, payload, chunk, []) <==> ValidEmpty(payload, chunk.text)
  {
    hide Entries, ValidEmpty;
  }

  /**
   * Of a validated dict payload nothing is dropped, that is, the adapter gives no reason
   * and one candidate for every item of the list it reads, exactly when every item is a
   * dict fit for it, and that list is empty only when the validated one is.
   */
  lemma {:induction false} NothingDroppedIff(env: Env, payload: Value, chunk: ChunkRow)
    requires payload.Dict? && Schema.Violation(payload, Some(chunk.text)).None?
    ensures CandidatesFirst(payload.fields).List? && ClaimsFirst(payload.fields).List?
    ensures var items := CandidatesFirst(payload.fields).items;
            OneEach(env, payload, chunk, items) <==>
              AllFit(env, items, chunk) && (items == [] ==> ClaimsFirst(payload.fields).items == [])
  {
    Schema.ViolationIs(payload, Some(chunk.text));
    hide Schema.Violation, DictsOf, Adapted, StructuredCandidate, Fit;
    var items := CandidatesFirst(payload.fields).items;
    if items == [] {
      OneDictsNone();
      OneEachOfNone(env, payload, chunk);
    } else if forall k :: 0 <= k < |items| ==> items[k].Dict? {
      OneEachOfDicts(env, payload, chunk, items);
    } else {
      var k :| 0 <= k < |items| && !items[k].Dict?;
      assert !AllFit(env, items, chunk);
    }
  }

  lemma OneDictsNone()
    ensures DictsOf([]) == []
  {
  }

  /** So with one list, which is then the one that was validated, nothing is dropped. */
  lemma {:induction false} NothingDropped(env: Env, payload: Value, chunk: ChunkRow)
    requires OneList(payload) && Schema.Violation(payload, Some(chunk.text)).None?
    ensures CandidatesFirst(payload.fields).List? && OneEach(env, payload, chunk, CandidatesFirst(payload.fields).items)
  {
    hide StructuredCandidate, Schema.Violation, Schema.Keeps, Fit, AdaptFrom;
    Schema.ViolationIs(payload, Some(chunk.text));
    var items := ClaimsFirst(payload.fields).items;
    forall k | 0 <= k < |items| ensures items[k].Dict? && Fit(env, items[k].fields, chunk) {
      KeepsDict(items[k], Some(chunk.text));
      KeepsIsFit(env, items[k], chunk);
    }
    NothingDroppedIff(env, payload, chunk);
  }

  lemma {:induction false} KeepsDict(entry: Value, source: Option<string>)
    requires Schema.Keeps(entry, source)
    ensures entry.Dict?
  {
  }

  /** Its confidence and salience are then in range. */
  lemma {:induction false} ValidatedInRange(env: Env, payload: Value, chunk: ChunkRow)
    requires OneList(payload) && Schema.Violation(payload, Some(chunk.text)).None?
    ensures Adapted(env, payload, chunk).Structured?
    ensures forall c :: c in Adapted(env, payload, chunk).candidates ==> InRange(c)
  {
    hide StructuredCandidate, Schema.Violation, Schema.Keeps, Fit, AdaptFrom, Adapted, InRange;
    NothingDropped(env, payload, chunk);
    Schema.ViolationIs(payload, Some(chunk.text));
    var items := CandidatesFirst(payload.fields).items;
    forall c | c in Adapted(env, payload, chunk).candidates ensures InRange(c) {
      var k :| 0 <= k < |items| && Adapted(env, payload, chunk).candidates[k] == c;
      KeptInRange(env, items[k], chunk, c);
    }
  }

  predicate UnitFloats(env: Env, fields: map<string, Value>) {
    && 0.0 <= FloatOr(env, Get(fields, "confidence"), 0.64) <= 1.0
    && 0.0 <= FloatOr(env, Get(fields, "salience"), 0.68) <= 1.0
  }

  /** Whatever the payload, an accepted entry's candidate is in range exactly when the entry's two numbers are. */
  lemma {:induction false} AcceptedInRangeIff(env: Env, fields: map<string, Value>, chunk: ChunkRow, c: Candidate)
    requires StructuredCandidate(env, fields, chunk) == Accepted(c)
    ensures InRange(c) <==> UnitFloats(env, fields)
  {
    hide StructuredCandidate, Build, FloatOr, HasStrings, HasTokenSpan, ReadTokenSpan, Falsy, MakesDict;
    AcceptedIff(env, fields, chunk);
    var (start, end) := SpanOf(fields);
    BuiltFloats(env, fields, chunk, start.n, end.n, chunk.text[start.n..end.n]);
  }

  /** So all candidates of an adapted payload are in range exactly when all entries' numbers are. */
  lemma {:induction false} AdaptedInRangeIff(env: Env, payload: Value, chunk: ChunkRow)
    requires Adapted(env, payload, chunk).Structured? && Adapted(env, payload, chunk).reason.None?
    ensures (forall c :: c in Adapted(env, payload, chunk).candidates ==> InRange(c)) <==>
            (forall fields :: fields in Entries(payload) ==> UnitFloats(env, fields))
  {
    hide StructuredCandidate, UnitFloats, InRange, Adapted, Entries;
    AdaptedIsBuilt(env, payload, chunk);
    var cs, entries := Adapted(env, payload, chunk).candidates, Entries(payload);
    forall k | 0 <= k < |entries| ensures InRange(cs[k]) <==> UnitFloats(env, entries[k]) {
      AcceptedInRangeIff(env, entries[k], chunk, cs[k]);
    }
    if forall c :: c in cs ==> InRange(c) {
      forall fields | fields in entries ensures UnitFloats(env, fields) {
        var k :| 0 <= k < |entries| && entries[k] == fields;
        assert cs[k] in cs;
      }
    }
    if forall fields :: fields in entries ==> UnitFloats(env, fields) {
      forall c | c in cs ensures InRange(c) {
        var k :| 0 <= k < |cs| && cs[k] == c;
        assert entries[k] in entries;
      }
    }
  }

  lemma {:induction false} KeptInRange(env: Env, entry: Value, chunk: ChunkRow, c: Candidate)
    requires Schema.Keeps(entry, Some(chunk.text)) && entry.Dict?
               && StructuredCandidate(env, entry.fields, chunk) == Accepted(c)
    ensures InRange(c)
  {
    hide Schema.Spanned, Schema.TokenSpanned, Schema.Shaped, Schema.Stated, StructuredCandidate, FloatOr;
    AcceptedInRangeIff(env, entry.fields, chunk, c);
    assert Schema.OPTIONAL_FLOATS[0] == "confidence" && Schema.OPTIONAL_FLOATS[1] == "salience";
    FloatInRange(env, entry.fields, "confidence", 0.64);
    FloatInRange(env, entry.fields, "salience", 0.68);
  }

  lemma {:induction false} BuiltFloats(env: Env, fields: map<string, Value>, chunk: ChunkRow, from: nat, to: nat,
      quote: string)
    ensures var c := Build(env, fields, chunk, from, to, quote);
            && c.confidence == FloatOr(env, Get(fields, "confidence"), 0.64)
            && c.salience == FloatOr(env, Get(fields, "salience"), 0.68)
  {
    hide KindAndRelation, TokenSpanOf, RequiredStr, ParseMemoryType, FloatOr;
  }

  lemma {:induction false} FloatInRange(env: Env, fields: map<string, Value>, name: string, default: real)
    requires name in fields ==> Schema.InUnitRange(fields[name])
    requires 0.0 <= default <= 1.0
    ensures 0.0 <= FloatOr(env, Get(fields, name), default) <= 1.0
  {
  }

  /**
   * With two lists the validator passes one and the adapter reads the other: what is no dict is
   * dropped and the run still succeeds.
   */
  lemma {:induction false} TwoListsDrop(env: Env, chunk: ChunkRow)
    ensures var payload := Dict(map["claims" := List([]), "candidates" := List([Int(0)])]);
            && !OneList(payload) && Schema.Violation(payload, Some(chunk.text)).None?
            && CandidatesFirst(payload.fields) == List([Int(0)])
            && Adapted(env, payload, chunk) == Structured([], None)
  {
    var payload := Dict(map["claims" := List([]), "candidates" := List([Int(0)])]);
    assert Entries(payload) == [];
  }

  /** An entry quoting the first character, with a confidence of five. */
  function OverconfidentEntry(): map<string, Value> {
    map["subject" := Str("x"), "predicate" := Str("x"), "object" := Str("x"), "claim_text" := Str("x"),
        "support_char_start" := Int(0), "support_char_end" := Int(1), "confidence" := Real(5.0)]
  }

  /** A bare list is not validated: an entry whose confidence is out of range becomes a candidate. */
  lemma BareListUnchecked(env: Env, chunk: ChunkRow)
    requires chunk.text != ""
    ensures OverconfidentOut(Adapted(env, List([Dict(OverconfidentEntry())]), chunk))
  {
    OneDict(OverconfidentEntry());
    hide DictsOf, OverconfidentEntry, Schema.Violation;
    OverconfidentAdapted(env, List([Dict(OverconfidentEntry())]), chunk);
  }

  /** Nor is the second of two lists. */
  lemma SecondListUnchecked(env: Env, chunk: ChunkRow)
    requires chunk.text != ""
    ensures var payload := Dict(map["claims" := List([]), "candidates" := List([Dict(OverconfidentEntry())])]);
            Schema.Violation(payload, Some(chunk.text)).None? && OverconfidentOut(Adapted(env, payload, chunk))
  {
    OneDict(OverconfidentEntry());
    hide DictsOf, OverconfidentEntry;
    OverconfidentAdapted(
      env, Dict(map["claims" := List([]), "candidates" := List([Dict(OverconfidentEntry())])]), chunk);
  }

  predicate OverconfidentOut(r: Structured) {
    r.Structured? && r.reason.None? && |r.candidates| == 1 && r.candidates[0].confidence == 5.0
      && !InRange(r.candidates[0])
  }

  lemma OneDict(fields: map<string, Value>)
    ensures DictsOf([Dict(fields)]) == [fields]
  {
    assert DictsOf([Dict(fields)][1..]) == [];
  }

  lemma OverconfidentAdapted(env: Env, payload: Value, chunk: ChunkRow)
    requires chunk.text != "" && Entries(payload) == [OverconfidentEntry()] && SchemaReason(payload, chunk.text).None?
    ensures OverconfidentOut(Adapted(env, payload, chunk))
  {
    hide Fit, StructuredCandidate, Build, AdaptFrom, Adapted, Entries, SchemaReason;
    var fields := OverconfidentEntry();
    OverconfidentFits(env, chunk);
    AcceptedIff(env, fields, chunk);
    BuiltFloats(env, fields, chunk, 0, 1, chunk.text[0..1]);
    OneEntry(env, payload, fields, chunk);
  }

  lemma OverconfidentFields(env: Env, chunk: ChunkRow)
    requires chunk.text != ""
    ensures var fields := OverconfidentEntry();
            HasStrings(fields) && !HasTokenSpan(fields) && ReadCharSpan(fields, chunk.text).None?
              && SpanOf(fields).0 == Int(0) && SpanOf(fields).1 == Int(1)
    ensures Get(OverconfidentEntry(), "support_quote_text") == Null && Get(OverconfidentEntry(), "metadata") == Null
  {
    StripOfTrimmed("x");
    hide Strip;
  }

  lemma OverconfidentFits(env: Env, chunk: ChunkRow)
    requires chunk.text != ""
    ensures Fit(env, OverconfidentEntry(), chunk)
  {
    OverconfidentFields(env, chunk);
    hide HasStrings, HasTokenSpan, ReadCharSpan, ReadTokenSpan, SpanOf, Get, OverconfidentEntry;
  }

  lemma OneEntry(env: Env, payload: Value, fields: map<string, Value>, chunk: ChunkRow)
    requires Entries(payload) == [fields] && SchemaReason(payload, chunk.text).None?
    requires StructuredCandidate(env, fields, chunk).Accepted?
    ensures Adapted(env, payload, chunk) == Structured([StructuredCandidate(env, fields, chunk).candidate], None)
  {
    hide StructuredCandidate, SchemaReason, Entries;
    var c := StructuredCandidate(env, fields, chunk).candidate;
    assert [fields][1..] == [] && [] + [c] == [c];
    assert AdaptFrom(env, [fields], chunk, [], None) == AdaptFrom(env, [fields][1..], chunk, [] + [c], None);
  }

  // ---------------------------------------------------------------- failed span repair

  lemma {:induction false} InvalidSpanBreaksContract(claim: Value, source: string)
    requires Quoted(claim) && !SpanValid(claim, source)
    ensures !Schema.Keeps(claim, Some(source))
  {
    hide Schema.Stated, Schema.TokenSpanned, Schema.InRange, Schema.Shaped;
    assert Get(claim.fields, "support_quote_text") == Str(Get(claim.fields, "support_quote_text").s);
  }

  /** A payload whose repair failed does not validate. */
  lemma {:induction false} FailedRepairInvalid(fields: map<string, Value>, source: string)
    requires RepairPayload(fields, source, true).1.Some?
    ensures Schema.Violation(Dict(RepairPayload(fields, source, true).0), Some(source)).Some?
  {
    hide RepairFrom, Schema.Violation, Schema.Keeps, Quoted, SpanValid, RepairedTo;
    var items := ClaimsFirst(fields).items;
    RepairFails(items, source, true);
    var r := RepairFrom(items, 0, source, true);
    var now := RepairPayload(fields, source, true).0;
    assert ClaimsFirst(now) == List(r.items);
    var k := r.error.value.index;
    assert r.items[k] == items[k] by {
      StillThere(items, r.items, k, source);
    }
    InvalidSpanBreaksContract(r.items[k], source);
    Schema.ViolationIs(Dict(now), Some(source));
  }

  lemma {:induction false} StillThere(was: seq<Value>, now: seq<Value>, k: nat, source: string)
    requires RepairedTo(was, now, k, source, true) && k < |was|
    ensures |now| == |was| && now[k] == was[k]
  {
  }

  /** In no mode does an extraction whose span repair failed end as a structured success. */
  lemma {:induction false} FailedRepairNeverSucceeds(env: Env, chunk: ChunkRow, mode: Mode, payload: Value,
      allowRepair: bool)
    requires RepairSpans(payload, chunk.text, mode, allowRepair).1.Some?
    ensures Extract(env, chunk, mode, Answered(payload), allowRepair).status != StructuredSuccess
  {
    hide RepairPayload, Schema.Violation, AdaptFrom, Entries, Heuristic;
    FailedRepairInvalid(payload.fields, chunk.text);
    var repaired := RepairSpans(payload, chunk.text, mode, allowRepair).0;
    AdaptIff(env, Entries(repaired), chunk, [], SchemaReason(repaired, chunk.text));
  }

  // ---------------------------------------------------------------- strict mode

  lemma {:induction false} AdaptedIsBuilt(env: Env, payload: Value, chunk: ChunkRow)
    requires Adapted(env, payload, chunk).Structured? && Adapted(env, payload, chunk).reason.None?
    ensures AllAccepted(env, Entries(payload), chunk, Adapted(env, payload, chunk).candidates)
  {
    hide AdaptFrom, StructuredCandidate, ValidEmpty, SchemaReason;
    if Entries(payload) != [] {
      AdaptIff(env, Entries(payload), chunk, [], SchemaReason(payload, chunk.text));
      assert Adapted(env, payload, chunk).candidates[0..] == Adapted(env, payload, chunk).candidates;
    }
  }

  lemma {:induction false} AcceptedStructured(env: Env, fields: map<string, Value>, chunk: ChunkRow, c: Candidate)
    requires StructuredCandidate(env, fields, chunk) == Accepted(c)
    ensures c.structured
  {
    hide Fit, StructuredCandidate, KindAndRelation, TokenSpanOf, RequiredStr, ParseMemoryType, FloatOr;
    AcceptedIff(env, fields, chunk);
  }

  /** Strict extraction returns nothing and a reason, or only structured candidates. */
  lemma {:induction false} StrictFailsClosed(env: Env, chunk: ChunkRow, answer: Answer, allowRepair: bool)
    ensures var r := Extract(env, chunk, JsonStrict, answer, allowRepair);
            || (r.status == StrictRejected && r.candidates == [] && r.detail.Some?)
            || (r.status == StructuredSuccess && r.detail.None? && forall c :: c in r.candidates ==> c.structured)
  {
    hide Adapted, RepairSpans, StructuredCandidate, Entries;
    var r := Extract(env, chunk, JsonStrict, answer, allowRepair);
    if r.status == StructuredSuccess {
      var repaired := RepairSpans(answer.payload, chunk.text, JsonStrict, allowRepair).0;
      AdaptedIsBuilt(env, repaired, chunk);
      forall c | c in r.candidates ensures c.structured {
        var k :| 0 <= k < |r.candidates| && r.candidates[k] == c;
        AcceptedStructured(env, Entries(repaired)[k], chunk, c);
      }
    }
  }

  // ---------------------------------------------------------------- in range

  /** The sentence patterns draft numbers in range. */
  ghost predicate DraftsInRange(env: Env) {
    forall text :: env.draft(text).Some? ==> InRange(env.draft(text).value)
  }

  lemma SpanInvariantKeepsNumbers(c: Candidate, source: string, chunkStart: int)
    requires SpanInvariant(c, source, chunkStart).Some?
    ensures InRange(SpanInvariant(c, source, chunkStart).value) <==> InRange(c)
  {
  }

  lemma {:induction false} HeuristicInRange(env: Env, chunk: ChunkRow, sentences: seq<Sentence>)
    requires DraftsInRange(env)
    ensures forall c :: c in HeuristicFrom(env, chunk, sentences) ==> InRange(c)
  {
    hide SpanInvariant;
    if sentences != [] {
      HeuristicInRange(env, chunk, sentences[1..]);
      var made := SentenceCandidate(env, chunk, sentences[0]);
      if made.Some? {
        assert InRange(made.value);
        hide InRange;
        if SpanInvariant(made.value, chunk.text, chunk.charStart).Some? {
          SpanInvariantKeepsNumbers(made.value, chunk.text, chunk.charStart);
          var once := SpanInvariant(made.value, chunk.text, chunk.charStart).value;
          if SpanInvariant(once, chunk.text, chunk.charStart).Some? {
            SpanInvariantKeepsNumbers(once, chunk.text, chunk.charStart);
          }
        }
      }
    }
  }

  /** The numbers of every entry of the payload that is adapted, read as floats, lie in [0,1]. */
  ghost predicate UnitEntries(env: Env, chunk: ChunkRow, mode: Mode, answer: Answer, allowRepair: bool) {
    answer.Answered? ==>
      forall fields :: fields in Entries(RepairSpans(answer.payload, chunk.text, mode, allowRepair).0) ==>
        UnitFloats(env, fields)
  }

  /**
   * Extraction gives candidates in range when it drafts them so and the payload's numbers are; a
   * structured success only then.
   */
  lemma ExtractedInRange(env: Env, chunk: ChunkRow, mode: Mode, answer: Answer, allowRepair: bool)
    requires DraftsInRange(env)
    ensures var r := Extract(env, chunk, mode, answer, allowRepair);
            var fine := forall c :: c in r.candidates ==> InRange(c);
            && (UnitEntries(env, chunk, mode, answer, allowRepair) ==> fine)
            && (r.status == StructuredSuccess ==> (fine <==> UnitEntries(env, chunk, mode, answer, allowRepair)))
  {
    CandidatesComeFrom(env, chunk, mode, answer, allowRepair);
    SuccessComesFrom(env, chunk, mode, answer, allowRepair);
    HeuristicInRange(env, chunk, SentencesFrom(chunk.text, 0, 0));
    hide Extract, Adapted, RepairSpans, Entries, InRange, UnitFloats, HeuristicFrom;
    if answer.Answered? {
      var repaired := RepairSpans(answer.payload, chunk.text, mode, allowRepair).0;
      if Adapted(env, repaired, chunk).Structured? && Adapted(env, repaired, chunk).reason.None? {
        AdaptedInRangeIff(env, repaired, chunk);
      }
    }
  }

  lemma SuccessComesFrom(env: Env, chunk: ChunkRow, mode: Mode, answer: Answer, allowRepair: bool)
    ensures var r := Extract(env, chunk, mode, answer, allowRepair);
            r.status == StructuredSuccess ==>
              && answer.Answered?
              && var a := Adapted(env, RepairSpans(answer.payload, chunk.text, mode, allowRepair).0, chunk);
                 a.Structured? && a.reason.None? && r.candidates == a.candidates
  {
    hide Adapted, RepairSpans, Heuristic;
  }

  // ---------------------------------------------------------------- anchored in the document

  lemma {:induction false} HeuristicAnchored(env: Env, chunk: ChunkRow, sentences: seq<Sentence>, document: string)
    requires SliceOf(chunk, document)
    ensures forall c :: c in HeuristicFrom(env, chunk, sentences) ==> Anchored(c, document)
  {
    hide SpanInvariant, SentenceCandidate, Anchored, SliceOf;
    if sentences != [] {
      HeuristicAnchored(env, chunk, sentences[1..], document);
      var made := SentenceCandidate(env, chunk, sentences[0]);
      if made.Some? && SpanInvariant(made.value, chunk.text, chunk.charStart).Some? {
        var once := SpanInvariant(made.value, chunk.text, chunk.charStart).value;
        if SpanInvariant(once, chunk.text, chunk.charStart).Some? {
          InvariantAnchors(once, chunk, document);
        }
      }
    }
  }

  lemma {:induction false} AcceptedAnchored(env: Env, fields: map<string, Value>, chunk: ChunkRow, c: Candidate,
      document: string)
    requires SliceOf(chunk, document) && StructuredCandidate(env, fields, chunk) == Accepted(c)
    ensures Anchored(c, document)
  {
    hide SpanInvariant, Build, Anchored, SliceOf, HasStrings, HasTokenSpan, ReadTokenSpan, Falsy, MakesDict;
    var (start, end) := SpanOf(fields);
    InvariantAnchors(Build(env, fields, chunk, start.n, end.n, chunk.text[start.n..end.n]), chunk, document);
  }

  lemma {:induction false} AdaptedAnchored(env: Env, payload: Value, chunk: ChunkRow, document: string)
    requires SliceOf(chunk, document)
    requires Adapted(env, payload, chunk).Structured? && Adapted(env, payload, chunk).reason.None?
    ensures forall c :: c in Adapted(env, payload, chunk).candidates ==> Anchored(c, document)
  {
    hide Adapted, StructuredCandidate, Entries, Anchored, SliceOf;
    AdaptedIsBuilt(env, payload, chunk);
    var cs := Adapted(env, payload, chunk).candidates;
    forall c | c in cs ensures Anchored(c, document) {
      var k :| 0 <= k < |cs| && cs[k] == c;
      AcceptedAnchored(env, Entries(payload)[k], chunk, c, document);
    }
  }

  /** Candidates come from the sentences or from a payload adapted without a reason. */
  lemma CandidatesComeFrom(env: Env, chunk: ChunkRow, mode: Mode, answer: Answer, allowRepair: bool)
    ensures var cs := Extract(env, chunk, mode, answer, allowRepair).candidates;
            || cs == [] || cs == Heuristic(env, chunk)
            || (answer.Answered?
                && var a := Adapted(env, RepairSpans(answer.payload, chunk.text, mode, allowRepair).0, chunk);
                   a.Structured? && a.reason.None? && cs == a.candidates)
  {
    hide Adapted, RepairSpans, Heuristic;
  }

  /** In every mode and whatever the extractor answers, each candidate quotes the document at its own offsets. */
  lemma {:induction false} EveryCandidateAnchored(env: Env, chunk: ChunkRow, mode: Mode, answer: Answer,
      allowRepair: bool, document: string)
    requires SliceOf(chunk, document)
    ensures forall c :: c in Extract(env, chunk, mode, answer, allowRepair).candidates ==> Anchored(c, document)
  {
    CandidatesComeFrom(env, chunk, mode, answer, allowRepair);
    HeuristicAnchored(env, chunk, SentencesFrom(chunk.text, 0, 0), document);
    hide Extract, Adapted, RepairSpans, Anchored, SliceOf, HeuristicFrom;
    if answer.Answered? {
      var repaired := RepairSpans(answer.payload, chunk.text, mode, allowRepair).0;
      if Adapted(env, repaired, chunk).Structured? && Adapted(env, repaired, chunk).reason.None? {
        AdaptedAnchored(env, repaired, chunk, document);
      }
    }
  }

  /** The candidates of the sentences with the span invariant left out. */
  function Direct(env: Env, chunk: ChunkRow, sentences: seq<Sentence>): seq<Candidate> {
    if sentences == [] then []
    else
      var first := SentenceCandidate(env, chunk, sentences[0]);
      (if first.Some? then [first.value] else []) + Direct(env, chunk, sentences[1..])
  }

  /** For sentences of the chunk the invariant changes nothing: the search for the quote is never reached. */
  lemma {:induction false} QuoteSearchUnused(env: Env, chunk: ChunkRow, sentences: seq<Sentence>)
    requires forall k :: 0 <= k < |sentences| ==> IsSentence(chunk.text, sentences[k])
    ensures HeuristicFrom(env, chunk, sentences) == Direct(env, chunk, sentences)
  {
    hide SentenceCandidate, FixedTwice, IsSentence;
    if sentences != [] {
      if SentenceCandidate(env, chunk, sentences[0]).Some? {
        SentenceHoldsSpan(env, chunk, sentences[0]);
      } else {
        NoDraft(env, chunk, sentences[0]);
      }
      QuoteSearchUnused(env, chunk, sentences[1..]);
    }
  }

  lemma {:induction false} NoDraft(env: Env, chunk: ChunkRow, s: Sentence)
    requires SentenceCandidate(env, chunk, s).None?
    ensures FixedTwice(SentenceCandidate(env, chunk, s), chunk).None?
  {
  }

  lemma {:induction false} HeuristicIsDirect(env: Env, chunk: ChunkRow)
    ensures Heuristic(env, chunk) == Direct(env, chunk, SentencesFrom(chunk.text, 0, 0))
  {
    hide IsSentence, HeuristicFrom;
    SentenceSpansAre(chunk.text);
    QuoteSearchUnused(env, chunk, SentencesFrom(chunk.text, 0, 0));
  }

  // ---------------------------------------------------------------- token ranges

  /** The row of chunk `c` of a document. */
  predicate RowOf(row: ChunkRow, c: Chunk) {
    row.text == c.text && row.charStart == c.charStart && row.tokenStart == c.tokenStart
  }

  /** The candidate's token range is the one the whole document gives for its character span. */
  predicate TokensMatch(c: Candidate, word: WordClass, document: string) {
    && c.charStart.Some? && c.charEnd.Some?
    && var range := TokenRange(Tokenize(word, document), c.charStart.value, c.charEnd.value);
       c.tokenStart == Shifted(0, RangeStart(range)) && c.tokenEnd == Shifted(0, RangeEnd(range))
  }

  lemma {:induction false} RowIsSlice(row: ChunkRow, word: WordClass, document: string, max: int, overlap: int, k: nat)
    requires ChunksOf(word, document, max, overlap).Chunked? && k < |ChunksOf(word, document, max, overlap).chunks|
    requires RowOf(row, ChunksOf(word, document, max, overlap).chunks[k])
    ensures SliceOf(row, document)
  {
    hide ChunksOf, Tokenize;
    ChunksAreStretches(word, document, max, overlap);
  }

  lemma {:induction false} ShiftedTwice(r: Option<(nat, nat)>, tokens: nat)
    ensures Shifted(tokens, RangeStart(r)) == Shifted(0, RangeStart(ShiftRange(r, tokens)))
    ensures Shifted(tokens, RangeEnd(r)) == Shifted(0, RangeEnd(ShiftRange(r, tokens)))
    ensures Plus(tokens, Shifted(0, RangeStart(r))) == Shifted(tokens, RangeStart(r))
    ensures Plus(tokens, Shifted(0, RangeEnd(r))) == Shifted(tokens, RangeEnd(r))
  {
  }

  /** A sentence's token range, found in the chunk alone, is the document's. */
  lemma {:induction false} SentenceTokensMatch(env: Env, row: ChunkRow, s: Sentence, document: string, max: nat,
      overlap: nat, k: nat)
    requires overlap < max && k < |ChunksOf(env.word, document, max, overlap).chunks|
    requires RowOf(row, ChunksOf(env.word, document, max, overlap).chunks[k])
    requires IsSentence(row.text, s) && SentenceCandidate(env, row, s).Some?
    ensures TokensMatch(SentenceCandidate(env, row, s).value, env.word, document)
  {
    hide TokenRange, Tokenize, ChunksOf, Unbroken, Trimmed, ShiftRange, Shifted, RangeStart, RangeEnd;
    ChunkTokenRange(env.word, document, max, overlap, k, s.start, s.end);
    ShiftedTwice(TokenRange(Tokenize(env.word, row.text), s.start, s.end), row.tokenStart);
  }

  /** So is that of an entry that states no token span of its own. */
  lemma {:induction false} EntryTokensMatch(env: Env, fields: map<string, Value>, row: ChunkRow, c: Candidate,
      document: string, max: nat, overlap: nat, k: nat)
    requires overlap < max && k < |ChunksOf(env.word, document, max, overlap).chunks|
    requires RowOf(row, ChunksOf(env.word, document, max, overlap).chunks[k])
    requires StructuredCandidate(env, fields, row) == Accepted(c) && !HasTokenSpan(fields)
    ensures TokensMatch(c, env.word, document)
  {
    hide TokenRange, Tokenize, ChunksOf, ShiftRange, Shifted, RangeStart, RangeEnd, StructuredCandidate;
    hide FloatOr, ParseMemoryType, KindAndRelation, RequiredStr, HasStrings, Falsy, MakesDict, Plus;
    AcceptedIff(env, fields, row);
    var (start, end) := SpanOf(fields);
    ChunkTokenRange(env.word, document, max, overlap, k, start.n, end.n);
    ShiftedTwice(TokenRange(Tokenize(env.word, row.text), start.n, end.n), row.tokenStart);
  }

  /** Every candidate the heuristics find in a document's chunk has the document's token range. */
  lemma {:induction false} HeuristicTokensMatch(env: Env, row: ChunkRow, document: string, max: nat, overlap: nat,
      k: nat)
    requires overlap < max && k < |ChunksOf(env.word, document, max, overlap).chunks|
    requires RowOf(row, ChunksOf(env.word, document, max, overlap).chunks[k])
    ensures forall c :: c in Heuristic(env, row) ==> TokensMatch(c, env.word, document)
  {
    hide IsSentence, Heuristic;
    SentenceSpansAre(row.text);
    HeuristicIsDirect(env, row);
    DirectTokensMatch(env, row, SentencesFrom(row.text, 0, 0), document, max, overlap, k);
  }

  lemma {:induction false} DirectTokensMatch(env: Env, row: ChunkRow, sentences: seq<Sentence>, document: string,
      max: nat, overlap: nat, k: nat)
    requires overlap < max && k < |ChunksOf(env.word, document, max, overlap).chunks|
    requires RowOf(row, ChunksOf(env.word, document, max, overlap).chunks[k])
    requires forall j :: 0 <= j < |sentences| ==> IsSentence(row.text, sentences[j])
    ensures forall c :: c in Direct(env, row, sentences) ==> TokensMatch(c, env.word, document)
  {
    hide TokensMatch, SentenceCandidate, IsSentence, ChunksOf, Tokenize;
    if sentences != [] {
      if SentenceCandidate(env, row, sentences[0]).Some? {
        SentenceTokensMatch(env, row, sentences[0], document, max, overlap, k);
      }
      DirectTokensMatch(env, row, sentences[1..], document, max, overlap, k);
    }
  }

  // ---------------------------------------------------------------- what an accepted entry says

  /** `short` is the text, or its first `n` characters. */
  predicate Shortened(short: string, text: string, n: nat) {
    short <= text && |short| <= n && (|text| <= n ==> short == text) && (|text| > n ==> |short| == n)
  }

  /**
   * An accepted entry's candidate says what the entry says, trimmed and cut to the
   * column widths, cites the chunk's evidence, and carries a relation and a known kind.
   */
  lemma {:induction false} AcceptedSays(env: Env, fields: map<string, Value>, chunk: ChunkRow, c: Candidate)
    requires StructuredCandidate(env, fields, chunk) == Accepted(c)
    ensures Shortened(c.subject, RequiredStr(fields, "subject"), 240)
              && Shortened(c.predicate_, RequiredStr(fields, "predicate"), 120)
    ensures Shortened(c.object_, RequiredStr(fields, "object"), 500) && c.claimText == RequiredStr(fields, "claim_text")
    ensures c.subject != "" && c.predicate_ != "" && c.object_ != "" && c.claimText != ""
    ensures c.evidenceId == Some(chunk.evidenceId) && c.chunkId == Some(chunk.id) && c.spanId == chunk.spanId
    ensures c.reviewRequired == chunk.reviewRequired && c.memoryLevel == ProjectMemory
    ensures c.evidenceKind in Schema.EVIDENCE_KINDS && Schema.NonBlank(Str(c.supportRelation))
              && c.evidenceRelation == c.supportRelation
  {
    hide TokenSpanOf, ParseMemoryType, FloatOr, RequiredStr, StructuredCandidate, ReadCharSpan, ReadTokenSpan, Falsy,
      MakesDict;
    AcceptedIff(env, fields, chunk);
    hide KindAndRelation;
    KnownKind(fields);
  }

  lemma KnownKind(fields: map<string, Value>)
    ensures var (kind, relation) := KindAndRelation(fields);
            kind in Schema.EVIDENCE_KINDS && Schema.NonBlank(Str(relation))
  {
    StripOfTrimmed("supports");
    hide Strip;
  }
}
