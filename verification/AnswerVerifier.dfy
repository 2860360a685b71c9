/** `AnswerVerifier.verify_context`, and what public mode guarantees from store to report. */
module AnswerVerifier {
  import opened Options
  import opened Text
  import opened Store
  import opened WriteGovernor
  import opened Lifecycle
  import opened Review
  import opened Results
  import opened Retrieval
  import opened ContextBuilder

  datatype Risk = Low | Medium | High

  datatype Issue =
    | PendingClaimInContext(claimId: Option<string>)
    | UnsafeClaimStatus(claimId: Option<string>, status: Status)
    | ClaimWithoutSupport(claimId: Option<string>)
    | PendingEvidenceInContext(evidenceId: Option<string>)
    | ChunkWithoutEvidence(id: string)

  datatype Report = Report(
    ok: bool, risk: Risk, issues: seq<Issue>, claimIds: seq<string>, spanIds: seq<string>, blocked: bool)

  predicate Unsafe(s: Status) {
    s == Disputed || s == Superseded || s == Rejected || s == Archived || s == Stale
  }

  /** A claim awaiting review, or a chunk whose source does. */
  predicate Pending(i: Item) {
    if i.result.kind.ClaimResult? then i.result.status == Some(PendingReview)
    else i.source.Some? && i.source.value.reviewStatus == EvidencePending
  }

  predicate UnsafeItem(i: Item) {
    i.result.kind.ClaimResult? && i.result.status.Some? && Unsafe(i.result.status.value)
  }

  function IssuesOf(i: Item): seq<Issue> {
    var r := i.result;
    if r.kind.ClaimResult? then
      (if r.status == Some(PendingReview) then [PendingClaimInContext(r.claimId)] else [])
      + (if r.status.Some? && Unsafe(r.status.value) then [UnsafeClaimStatus(r.claimId, r.status.value)] else [])
      + (if i.support == [] then [ClaimWithoutSupport(r.claimId)] else [])
    else
      (if i.source.Some? && i.source.value.reviewStatus == EvidencePending then [PendingEvidenceInContext(r.evidenceId)]
        else [])
      + (if !Truthy(r.evidenceId) then [ChunkWithoutEvidence(r.id)] else [])
  }

  function AllIssues(items: seq<Item>): seq<Issue> {
    if items == [] then [] else AllIssues(items[..|items| - 1]) + IssuesOf(items[|items| - 1])
  }

  function SupportSpanIds(support: seq<Support>): seq<string> {
    if support == [] then []
    else
      var last := support[|support| - 1];
      SupportSpanIds(support[..|support| - 1]) + (if Truthy(last.spanId) then [last.spanId.value] else [])
  }

  function CheckedSpans(items: seq<Item>): seq<string> {
    if items == [] then []
    else
      var i := items[|items| - 1];
      CheckedSpans(items[..|items| - 1])
        + (if i.result.kind.ClaimResult? then SupportSpanIds(i.support) else i.result.spanIds)
  }

  function CheckedClaims(items: seq<Item>): seq<string> {
    if items == [] then []
    else
      var r := items[|items| - 1].result;
      CheckedClaims(items[..|items| - 1]) + (if r.kind.ClaimResult? && Truthy(r.claimId) then [r.claimId.value] else [])
  }

  ghost predicate AnyPending(items: seq<Item>) {
    exists k :: 0 <= k < |items| && Pending(items[k])
  }

  ghost predicate AnyUnsafe(items: seq<Item>) {
    exists k :: 0 <= k < |items| && UnsafeItem(items[k])
  }

  /** `verify_context`. The report's verdicts say exactly which items are in the packet. */
  method VerifyContext(items: seq<Item>) returns (r: Report)
    ensures r.issues == AllIssues(items) && r.claimIds == CheckedClaims(items) && r.spanIds == CheckedSpans(items)
    ensures r.blocked <==> AnyPending(items)
    ensures r.risk == High <==> AnyUnsafe(items)
    ensures r.risk == Low <==> r.issues == []
    ensures r.ok <==> r.issues == []
  {
    hide AllIssues, CheckedClaims, CheckedSpans, AnyPending, AnyUnsafe;
    var issues, claimIds, spanIds, blocked, severe := CheckItems(items);
    var risk := if severe then High else if issues != [] then Medium else Low;
    if blocked && risk == Low {
      risk := Medium;
    }
    r := Report(issues == [] && !blocked, risk, issues, claimIds, spanIds, blocked);
  }

  /** The loop over the items; `severe` says whether an issue of high severity was found. */
  method CheckItems(items: seq<Item>)
    returns (issues: seq<Issue>, claimIds: seq<string>, spanIds: seq<string>, blocked: bool, severe: bool)
    ensures issues == AllIssues(items) && claimIds == CheckedClaims(items) && spanIds == CheckedSpans(items)
    ensures blocked == AnyPending(items) && severe == AnyUnsafe(items)
    ensures blocked || severe ==> issues != []
  {
    hide AllIssues, CheckedClaims, CheckedSpans, IssuesOf, Pending, UnsafeItem, AnyPending, AnyUnsafe;
    issues, claimIds, spanIds, blocked, severe := [], [], [], false, false;
    NothingChecked();
    assert items[..0] == [];
    for k := 0 to |items|
      invariant issues == AllIssues(items[..k]) && claimIds == CheckedClaims(items[..k])
                  && spanIds == CheckedSpans(items[..k])
      invariant blocked == AnyPending(items[..k]) && severe == AnyUnsafe(items[..k])
      invariant blocked || severe ==> |issues| > 0
    {
      OneMore(items, k);
      var found, claims, spans, pending, unsafe := VerifyItem(items[k]);
      issues, claimIds, spanIds := issues + found, claimIds + claims, spanIds + spans;
      blocked, severe := blocked || pending, severe || unsafe;
    }
    assert items[..|items|] == items;
  }

  lemma NothingChecked()
    ensures AllIssues([]) == [] && CheckedClaims([]) == [] && CheckedSpans([]) == [] && !AnyPending([])
              && !AnyUnsafe([])
  {
  }

  lemma OneMore(items: seq<Item>, k: nat)
    requires k < |items|
    ensures AllIssues(items[..k + 1]) == AllIssues(items[..k]) + IssuesOf(items[k])
    ensures CheckedClaims(items[..k + 1]) == CheckedClaims(items[..k]) + CheckedClaims([items[k]])
    ensures CheckedSpans(items[..k + 1]) == CheckedSpans(items[..k]) + CheckedSpans([items[k]])
    ensures AnyPending(items[..k + 1]) <==> AnyPending(items[..k]) || Pending(items[k])
    ensures AnyUnsafe(items[..k + 1]) <==> AnyUnsafe(items[..k]) || UnsafeItem(items[k])
  {
    hide IssuesOf, SupportSpanIds;
    assert items[..k + 1][..k] == items[..k] && [items[k]][..0] == [];
    OneMorePending(items[..k], items[k]);
    assert items[..k + 1] == items[..k] + [items[k]];
  }

  lemma OneMorePending(items: seq<Item>, i: Item)
    ensures AnyPending(items + [i]) <==> AnyPending(items) || Pending(i)
    ensures AnyUnsafe(items + [i]) <==> AnyUnsafe(items) || UnsafeItem(i)
  {
    hide Pending, UnsafeItem;
    var all := items + [i];
    assert all[|items|] == i;
    if AnyPending(items) {
      var k :| 0 <= k < |items| && Pending(items[k]);
      assert Pending(all[k]);
    }
    if AnyUnsafe(items) {
      var k :| 0 <= k < |items| && UnsafeItem(items[k]);
      assert UnsafeItem(all[k]);
    }
  }

  /** One item's turn. */
  method VerifyItem(i: Item)
    returns (issues: seq<Issue>, claimIds: seq<string>, spanIds: seq<string>, pending: bool, severe: bool)
    ensures issues == IssuesOf(i) && pending == Pending(i) && severe == UnsafeItem(i)
    ensures claimIds == CheckedClaims([i]) && spanIds == CheckedSpans([i])
    ensures pending || severe ==> |issues| > 0
  {
    issues, claimIds, spanIds, pending, severe := [], [], [], false, false;
    assert [i][..0] == [];
    var r := i.result;
    match r.kind {
      case ClaimResult =>
        if Truthy(r.claimId) {
          claimIds := [r.claimId.value];
        }
        if r.status == Some(PendingReview) {
          pending := true;
          issues := issues + [PendingClaimInContext(r.claimId)];
        }
        if r.status.Some? && Unsafe(r.status.value) {
          severe := true;
          issues := issues + [UnsafeClaimStatus(r.claimId, r.status.value)];
        }
        if i.support == [] {
          issues := issues + [ClaimWithoutSupport(r.claimId)];
        }
        spanIds := SupportSpanIds(i.support);
      case ChunkResult =>
        spanIds := r.spanIds;
        if i.source.Some? && i.source.value.reviewStatus == EvidencePending {
          pending := true;
          issues := issues + [PendingEvidenceInContext(r.evidenceId)];
        }
        if !Truthy(r.evidenceId) {
          issues := issues + [ChunkWithoutEvidence(r.id)];
        }
    }
  }

  /** A chunk of this id is among the items and names no evidence. */
  ghost predicate WithoutEvidence(items: seq<Item>, id: string) {
    exists k :: 0 <= k < |items| && items[k].result.kind.ChunkResult? && items[k].result.id == id
      && !Truthy(items[k].result.evidenceId)
  }

  /** A claim of this id is among the items and has no supporting evidence. */
  ghost predicate WithoutSupport(items: seq<Item>, id: Option<string>) {
    exists k :: 0 <= k < |items| && items[k].result.kind.ClaimResult? && items[k].result.claimId == id
      && items[k].support == []
  }

  lemma {:induction false} IssueOfItem(items: seq<Item>, x: Issue)
    ensures x in AllIssues(items) <==> exists k :: 0 <= k < |items| && x in IssuesOf(items[k])
  {
    hide IssuesOf;
    if items != [] {
      var init := items[..|items| - 1];
      IssueOfItem(init, x);
      if x in AllIssues(init) {
        var k :| 0 <= k < |init| && x in IssuesOf(init[k]);
        assert x in IssuesOf(items[k]);
      }
      if k :| 0 <= k < |items| && x in IssuesOf(items[k]) {
        assert k < |init| ==> x in IssuesOf(init[k]);
      }
    }
  }

  lemma EvidenceIssueIff(items: seq<Item>, id: string)
    ensures ChunkWithoutEvidence(id) in AllIssues(items) <==> WithoutEvidence(items, id)
  {
    IssueOfItem(items, ChunkWithoutEvidence(id));
    hide AllIssues;
    forall k | 0 <= k < |items|
      ensures ChunkWithoutEvidence(id) in IssuesOf(items[k]) <==>
                items[k].result.kind.ChunkResult? && items[k].result.id == id && !Truthy(items[k].result.evidenceId)
    {
    }
    hide IssuesOf;
  }

  lemma SupportIssueIff(items: seq<Item>, id: Option<string>)
    ensures ClaimWithoutSupport(id) in AllIssues(items) <==> WithoutSupport(items, id)
  {
    IssueOfItem(items, ClaimWithoutSupport(id));
    hide AllIssues;
    forall k | 0 <= k < |items|
      ensures ClaimWithoutSupport(id) in IssuesOf(items[k]) <==>
                items[k].result.kind.ClaimResult? && items[k].result.claimId == id && items[k].support == []
    {
    }
    hide IssuesOf;
  }

  // ---------------------------------------------------------------- public mode

  /** An active claim, or a chunk of active evidence, of the store the search ran on. */
  ghost predicate Publishable(t: Tables, project: string, i: Item) {
    if i.result.kind.ClaimResult? then
      exists c :: c in t.claims && c.projectId == project && c.status == Active && i.result.id == c.id
        && i.result.status == Some(Active)
    else
      exists c :: c in t.chunks && i.result.id == c.id && i.result.evidenceId == Some(c.evidenceId)
               && Sourced(t, project, {EvidenceActive}, c)
                    && (i.source.Some? ==> i.source.value.reviewStatus == EvidenceActive)
  }

  /** A claim without support, or a chunk that the store holds under the empty evidence id. */
  ghost predicate OnlyUnsupported(t: Tables, x: Issue) {
    x.ClaimWithoutSupport?
      || (x.ChunkWithoutEvidence? && exists c :: c in t.chunks && c.id == x.id && c.evidenceId == "")
  }

  const PUBLIC := Resolved(Public, false)

  lemma {:induction false} PackedIsFound(t: Tables, pending: bool, budget: int, rs: seq<Result>, i: Item)
    requires i in Pack(t, pending, budget, rs).included
    ensures exists r :: r in rs && i == ItemOf(t, r, pending)
  {
    hide ItemOf, Hidden, WarningsOf, Estimate;
    var init, last := rs[..|rs| - 1], rs[|rs| - 1];
    if i in Pack(t, pending, budget, init).included {
      PackedIsFound(t, pending, budget, init, i);
      var r :| r in init && i == ItemOf(t, r, pending);
      assert r in rs;
    } else {
      assert last in rs && i == ItemOf(t, last, pending);
    }
  }

  lemma SourceIsActive(t: Tables, r: Result)
    ensures var i := ItemOf(t, r, false);
            i.result == r && (i.source.Some? ==> i.source.value.reviewStatus == EvidenceActive)
  {
  }

  /** Every item of a public packet is an active claim or a chunk of active evidence. */
  lemma PublicItemsPublishable(sc: Scoring, t: Tables, project: string, budget: int, i: Item)
    requires i in Built(sc, t, project, budget, PUBLIC).0.included
    ensures Publishable(t, project, i)
  {
    hide Found, TouchAll, Pack, ItemOf, Sourced;
    var rs := Found(sc, t, project, TOP_K, {Active}, {EvidenceActive});
    PackedIsFound(TouchAll(t, rs), false, budget, rs, i);
    var r :| r in rs && i == ItemOf(TouchAll(t, rs), r, false);
    SourceIsActive(TouchAll(t, rs), r);
    FoundAdmitted(sc, t, project, TOP_K, {Active}, {EvidenceActive}, r);
  }

  lemma PublishableIssues(t: Tables, project: string, i: Item)
    requires Publishable(t, project, i)
    ensures !Pending(i) && !UnsafeItem(i)
    ensures forall x :: x in IssuesOf(i) ==> OnlyUnsupported(t, x)
  {
    hide Sourced;
  }

  lemma {:induction false} OnlySupportIssues(t: Tables, project: string, items: seq<Item>)
    requires forall k :: 0 <= k < |items| ==> Publishable(t, project, items[k])
    ensures forall x :: x in AllIssues(items) ==> OnlyUnsupported(t, x)
  {
    hide Publishable, IssuesOf, OnlyUnsupported;
    if items != [] {
      OnlySupportIssues(t, project, items[..|items| - 1]);
      PublishableIssues(t, project, items[|items| - 1]);
    }
  }

  /**
   * In public mode, whatever the store holds, verifying a built context never blocks
   * publication nor reports high risk, and finds no issue but claims without support
   * and chunks stored without an evidence id.
   */
  method BuildAndVerify(sc: Scoring, db: Database, project: string, budget: int, mode: Option<string>,
      includePending: bool)
    returns (packet: Option<Packet>, report: Option<Report>)
    requires sc.lower("public") == "public" && sc.lower("internal") == "internal"
    modifies db
    ensures packet.Some? <==> ResolveMode(sc.lower, mode, includePending).Resolved?
    ensures packet.Some? <==> report.Some?
    ensures packet.Some? && packet.value.mode == Public ==>
              && (forall i :: i in packet.value.included ==> Publishable(old(db.View()), project, i))
              && !report.value.blocked && report.value.risk != High
              && (forall x :: x in report.value.issues ==> OnlyUnsupported(old(db.View()), x))
              && (forall id :: ChunkWithoutEvidence(id) in report.value.issues <==>
                   WithoutEvidence(packet.value.included, id))
              && (forall id :: ClaimWithoutSupport(id) in report.value.issues <==>
                   WithoutSupport(packet.value.included, id))
  {
    hide Found, TouchAll, Pack, Publishable, IssuesOf, Pending, UnsafeItem, OnlyUnsupported, WithoutEvidence,
      WithoutSupport;
    ghost var t := db.View();
    packet := Build(sc, db, project, budget, mode, includePending);
    if packet.None? {
      return None, None;
    }
    var items := packet.value.included;
    var r := VerifyContext(items);
    report := Some(r);
    PublicExcludesPending(sc.lower, mode, includePending);
    if packet.value.mode == Public {
      PublicReport(sc, t, project, budget, items);
    }
  }

  lemma PublicReport(sc: Scoring, t: Tables, project: string, budget: int, items: seq<Item>)
    requires items == Built(sc, t, project, budget, PUBLIC).0.included
    ensures forall i :: i in items ==> Publishable(t, project, i)
    ensures forall k :: 0 <= k < |items| ==> !Pending(items[k]) && !UnsafeItem(items[k])
    ensures forall x :: x in AllIssues(items) ==> OnlyUnsupported(t, x)
    ensures forall id :: ChunkWithoutEvidence(id) in AllIssues(items) <==> WithoutEvidence(items, id)
    ensures forall id :: ClaimWithoutSupport(id) in AllIssues(items) <==> WithoutSupport(items, id)
  {
    hide Built, Publishable, Pending, UnsafeItem, AllIssues, OnlyUnsupported, WithoutEvidence, WithoutSupport;
    forall id ensures ChunkWithoutEvidence(id) in AllIssues(items) <==> WithoutEvidence(items, id) {
      EvidenceIssueIff(items, id);
    }
    forall id ensures ClaimWithoutSupport(id) in AllIssues(items) <==> WithoutSupport(items, id) {
      SupportIssueIff(items, id);
    }
    forall i | i in items ensures Publishable(t, project, i) {
      PublicItemsPublishable(sc, t, project, budget, i);
    }
    forall k | 0 <= k < |items| ensures !Pending(items[k]) && !UnsafeItem(items[k]) {
      assert items[k] in items;
      PublishableIssues(t, project, items[k]);
    }
    OnlySupportIssues(t, project, items);
  }
}
