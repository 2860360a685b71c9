/** `ContextBuilder.build`: packing search results into a token budget. */
module ContextBuilder {
  import opened Options
  import opened Text
  import opened Store
  import opened WriteGovernor
  import opened Lifecycle
  import opened Review
  import opened Results
  import opened Retrieval

  const TOP_K := 24

  datatype Reason = TokenBudgetExceeded | PendingReviewEvidenceExcluded

  datatype Warning = DisputedClaim(id: string) | PendingClaim(id: string) | UnlinkedClaim(id: string)

  /** An included result: its support when it is a claim, its source when it is a chunk. */
  datatype Item = Item(result: Result, estimate: nat, support: seq<Support>, source: Option<Evidence>)

  datatype Left = Left(id: string, kind: Kind, reason: Reason, estimate: nat)

  datatype Packet = Packet(
    budget: int, included: seq<Item>, excluded: seq<Left>, warnings: seq<Warning>, used: nat, mode: Mode, pending: bool)

  /** The number of words `str.split` finds from position `i` on. */
  function WordsFrom(s: string, i: nat): nat
    requires i <= |s|
    decreases |s| - i
  {
    if i == |s| then 0
    else WordsFrom(s, i + 1) + if !Space(s[i]) && (i + 1 == |s| || Space(s[i + 1])) then 1 else 0
  }

  /** `max(1, len(text.split()))`. */
  function Estimate(text: string): (n: nat)
    ensures n >= 1
  {
    if WordsFrom(text, 0) > 1 then WordsFrom(text, 0) else 1
  }

  // ---------------------------------------------------------------- what an item is given

  /** The source of a support, when pending ones are let in or it is active. */
  predicate Visible(t: Tables, pending: bool, evidenceId: string) {
    var e := LookupEvidence(t.evidence, evidenceId);
    e.Some? && (pending || e.value.reviewStatus == EvidenceActive)
  }

  function SupportRows(t: Tables, claimId: string, pending: bool): seq<Support> {
    Mapped(
      Filter(t.supports, (x: SupportSpan) => x.support.claimId == claimId && Visible(t, pending, x.support.evidenceId)),
      (x: SupportSpan) => x.support)
  }

  function LinkRows(t: Tables, claimId: string, pending: bool): seq<Support> {
    Mapped(Filter(t.links, (x: Link) => x.support.claimId == claimId && Visible(t, pending, x.support.evidenceId)),
           (x: Link) => x.support)
  }

  /** `_supporting_evidence`: the support spans, or the links when there is none. */
  function SupportingEvidence(t: Tables, claimId: string, pending: bool): seq<Support> {
    if SupportRows(t, claimId, pending) != [] then SupportRows(t, claimId, pending) else LinkRows(t, claimId, pending)
  }

  /** `_evidence_source`. */
  function EvidenceSource(t: Tables, evidenceId: string, pending: bool): Option<Evidence> {
    var e := LookupEvidence(t.evidence, evidenceId);
    if e.Some? && (pending || e.value.reviewStatus == EvidenceActive) then e else None
  }

  predicate AsClaim(r: Result) {
    r.kind.ClaimResult? && Truthy(r.claimId)
  }

  predicate AsChunk(r: Result) {
    r.kind.ChunkResult? && Truthy(r.evidenceId)
  }

  function ItemOf(t: Tables, r: Result, pending: bool): Item {
    Item(r, Estimate(r.text),
         if AsClaim(r) then SupportingEvidence(t, r.claimId.value, pending) else [],
         if AsChunk(r) then EvidenceSource(t, r.evidenceId.value, pending) else None)
  }

  /** A chunk whose source may not be shown. */
  predicate Hidden(t: Tables, r: Result, pending: bool) {
    AsChunk(r) && !pending && EvidenceSource(t, r.evidenceId.value, pending).None?
  }

  function WarningsOf(i: Item): seq<Warning> {
    if !AsClaim(i.result) then []
    else
      var id := i.result.claimId.value;
      (if i.result.status == Some(Disputed) then [DisputedClaim(id)] else [])
      + (if i.result.status == Some(PendingReview) then [PendingClaim(id)] else [])
      + (if i.support == [] then [UnlinkedClaim(id)] else [])
  }

  // ---------------------------------------------------------------- packing

  datatype Packing = Packing(included: seq<Item>, excluded: seq<Left>, warnings: seq<Warning>, used: nat)

  function PackOne(t: Tables, pending: bool, budget: int, p: Packing, r: Result): Packing {
    var estimate := Estimate(r.text);
    if p.used + estimate > budget then p.(excluded := p.excluded + [Left(r.id, r.kind, TokenBudgetExceeded, estimate)])
    else
      var item := ItemOf(t, r, pending);
      if Hidden(t, r, pending) then
        p.(excluded := p.excluded + [Left(r.id, r.kind, PendingReviewEvidenceExcluded, estimate)])
      else p.(included := p.included + [item], warnings := p.warnings + WarningsOf(item), used := p.used + estimate)
  }

  function Pack(t: Tables, pending: bool, budget: int, rs: seq<Result>): Packing {
    if rs == [] then Packing([], [], [], 0)
    else PackOne(t, pending, budget, Pack(t, pending, budget, rs[..|rs| - 1]), rs[|rs| - 1])
  }

  method PackResults(db: Database, pending: bool, budget: int, rs: seq<Result>)
    returns (included: seq<Item>, excluded: seq<Left>, warnings: seq<Warning>, used: nat)
    ensures Packing(included, excluded, warnings, used) == Pack(db.View(), pending, budget, rs)
  {
    hide ItemOf, Hidden, WarningsOf, Estimate;
    included, excluded, warnings, used := [], [], [], 0;
    assert rs[..0] == [];
    for k := 0 to |rs|
      invariant Packing(included, excluded, warnings, used) == Pack(db.View(), pending, budget, rs[..k])
    {
      assert rs[..k + 1][..k] == rs[..k];
      var r := rs[k];
      var estimate := Estimate(r.text);
      if used + estimate > budget {
        excluded := excluded + [Left(r.id, r.kind, TokenBudgetExceeded, estimate)];
      } else {
        var item := ItemOf(db.View(), r, pending);
        if Hidden(db.View(), r, pending) {
          excluded := excluded + [Left(r.id, r.kind, PendingReviewEvidenceExcluded, estimate)];
        } else {
          included, warnings, used := included + [item], warnings + WarningsOf(item), used + estimate;
        }
      }
    }
    assert rs[..|rs|] == rs;
  }

  /** The statuses the builder's search runs with. */
  function BuildStatuses(r: Resolved): set<Status>
    requires r.Resolved?
  {
    Statuses(r, None)
  }

  /** What a build finds and packs, and the tables with the found claims touched. */
  function Built(sc: Scoring, t: Tables, project: string, budget: int, r: Resolved): (Packing, Tables)
    requires r.Resolved?
  {
    var rs := Found(sc, t, project, TOP_K, BuildStatuses(r), ReviewStatuses(r, BuildStatuses(r)));
    (Pack(TouchAll(t, rs), r.pending, budget, rs), TouchAll(t, rs))
  }

  function ModeName(m: Mode): string {
    match m case Public => "public" case Internal => "internal"
  }

  /** `build`; none when the mode is invalid. */
  method Build(sc: Scoring, db: Database, project: string, budget: int, mode: Option<string>, includePending: bool)
    returns (packet: Option<Packet>)
    requires sc.lower("public") == "public" && sc.lower("internal") == "internal"
    modifies db
    ensures var r := ResolveMode(sc.lower, mode, includePending);
            if r.InvalidMode? then packet.None? && db.View() == old(db.View())
            else
              var (p, t) := Built(sc, old(db.View()), project, budget, r);
              packet == Some(Packet(budget, p.included, p.excluded, p.warnings, p.used, r.mode, r.pending))
                && db.View() == t
  {
    hide Found, TouchAll, Pack;
    var r := ResolveMode(sc.lower, mode, includePending);
    if r.InvalidMode? {
      return None;
    }
    ResolveAgain(sc.lower, mode, includePending);
    var results := Search(sc, db, project, TOP_K, None, Some(ModeName(r.mode)), r.pending);
    var included, excluded, warnings, used := PackResults(db, r.pending, budget, results.value);
    packet := Some(Packet(budget, included, excluded, warnings, used, r.mode, r.pending));
  }

  /** A resolved mode resolves to itself. */
  lemma ResolveAgain(lower: string -> string, mode: Option<string>, includePending: bool)
    requires lower("public") == "public" && lower("internal") == "internal"
    ensures var r := ResolveMode(lower, mode, includePending);
            r.Resolved? ==> ResolveMode(lower, Some(ModeName(r.mode)), r.pending) == r
  {
    hide Strip;
    StripOfTrimmed("public");
    StripOfTrimmed("internal");
  }

  // ---------------------------------------------------------------- what packing guarantees

  function Total(items: seq<Item>): nat {
    if items == [] then 0 else Total(items[..|items| - 1]) + items[|items| - 1].estimate
  }

  function IncludedResults(items: seq<Item>): seq<Result> {
    Mapped(items, (i: Item) => i.result)
  }

  /** The results at the positions where the mask holds, in order. */
  function Masked<T>(rs: seq<T>, mask: seq<bool>, keep: bool): seq<T>
    requires |mask| == |rs|
  {
    if rs == [] then []
    else Masked(rs[..|rs| - 1], mask[..|rs| - 1], keep) + (if mask[|rs| - 1] == keep then [rs[|rs| - 1]] else [])
  }

  /** Every result is included or left out, each list in the order of the results. */
  ghost predicate Partition(p: Packing, rs: seq<Result>, mask: seq<bool>) {
    && |mask| == |rs|
    && IncludedResults(p.included) == Masked(rs, mask, true)
    && Mapped(p.excluded, (x: Left) => (x.id, x.kind)) == Mapped(Masked(rs, mask, false), (r: Result) => (r.id, r.kind))
  }

  /** Nothing left out for the budget fits what is left of it. */
  ghost predicate NoRoom(p: Packing, budget: int) {
    forall k :: 0 <= k < |p.excluded| && p.excluded[k].reason.TokenBudgetExceeded? ==>
      p.used + p.excluded[k].estimate > budget
  }

  lemma MaskedNext<T>(rs: seq<T>, mask: seq<bool>, keep: bool, r: T, b: bool)
    requires |mask| == |rs|
    ensures Masked(rs + [r], mask + [b], keep) == Masked(rs, mask, keep) + (if b == keep then [r] else [])
  {
    assert (rs + [r])[..|rs|] == rs && (mask + [b])[..|rs|] == mask;
  }

  lemma PackOneKeeps(t: Tables, pending: bool, budget: int, p: Packing, rs: seq<Result>, mask: seq<bool>, r: Result)
    returns (b: bool)
    requires Partition(p, rs, mask) && p.used == Total(p.included) && (p.used == 0 || p.used <= budget)
               && NoRoom(p, budget)
    ensures var n := PackOne(t, pending, budget, p, r);
            && Partition(n, rs + [r], mask + [b])
            && n.used == Total(n.included) && (n.used == 0 || n.used <= budget) && NoRoom(n, budget)
  {
    hide ItemOf, Hidden, WarningsOf, Estimate, Masked;
    var n := PackOne(t, pending, budget, p, r);
    b := |n.included| > |p.included|;
    MaskedNext(rs, mask, true, r, b);
    MaskedNext(rs, mask, false, r, b);
    if b {
      assert n.included[..|p.included|] == p.included;
      ItemResult(t, r, pending);
    }
  }

  lemma ItemResult(t: Tables, r: Result, pending: bool)
    ensures ItemOf(t, r, pending).result == r && ItemOf(t, r, pending).estimate == Estimate(r.text)
  {
  }

  /**
   * Packing splits the results in order, never spends more than a non-negative budget,
   * and whatever it left out for the budget still does not fit at the end.
   */
  lemma {:induction false} PackingIs(t: Tables, pending: bool, budget: int, rs: seq<Result>) returns (mask: seq<bool>)
    ensures var p := Pack(t, pending, budget, rs);
            && Partition(p, rs, mask)
            && p.used == Total(p.included) && (p.used == 0 || p.used <= budget) && NoRoom(p, budget)
  {
    hide PackOne, Partition, Total, NoRoom;
    if rs == [] {
      mask := [];
      EmptyPacking(budget);
    } else {
      var init, last := rs[..|rs| - 1], rs[|rs| - 1];
      mask := PackingIs(t, pending, budget, init);
      var b := PackOneKeeps(t, pending, budget, Pack(t, pending, budget, init), init, mask, last);
      mask := mask + [b];
      assert init + [last] == rs;
    }
  }

  lemma EmptyPacking(budget: int)
    ensures var p := Packing([], [], [], 0); Partition(p, [], []) && Total(p.included) == 0 && NoRoom(p, budget)
  {
  }

  /** Whatever was left out for another reason is a chunk whose source may not be shown. */
  lemma {:induction false} LeftOutIsHidden(t: Tables, pending: bool, budget: int, rs: seq<Result>, x: Left)
    requires x in Pack(t, pending, budget, rs).excluded && x.reason.PendingReviewEvidenceExcluded?
    ensures exists r :: r in rs && Hidden(t, r, pending) && x.id == r.id && x.kind == r.kind
  {
    hide ItemOf, Hidden, WarningsOf, Estimate;
    var init, last := rs[..|rs| - 1], rs[|rs| - 1];
    if x in Pack(t, pending, budget, init).excluded {
      LeftOutIsHidden(t, pending, budget, init, x);
      var r :| r in init && Hidden(t, r, pending) && x.id == r.id && x.kind == r.kind;
      assert r in rs;
    } else {
      assert last in rs && Hidden(t, last, pending);
    }
  }

  lemma {:induction false} TouchKeepsSources(t: Tables, rs: seq<Result>)
    ensures TouchAll(t, rs) == t.(claims := TouchAll(t, rs).claims)
  {
    if rs != [] {
      TouchKeepsSources(t, rs[..|rs| - 1]);
    }
  }

  /** In public mode every source a search admits may be shown: only the budget leaves anything out. */
  lemma PublicLeavesOutOnlyForBudget(sc: Scoring, t: Tables, project: string, budget: int, x: Left)
    requires x in Built(sc, t, project, budget, Resolved(Public, false)).0.excluded
    ensures x.reason.TokenBudgetExceeded?
  {
    hide Found, TouchAll, Pack;
    var rs := Found(sc, t, project, TOP_K, {Active}, {EvidenceActive});
    if x.reason.PendingReviewEvidenceExcluded? {
      LeftOutIsHidden(TouchAll(t, rs), false, budget, rs, x);
      var r :| r in rs && Hidden(TouchAll(t, rs), r, false);
      TouchKeepsSources(t, rs);
      FoundAdmitted(sc, t, project, TOP_K, {Active}, {EvidenceActive}, r);
    }
  }
}
