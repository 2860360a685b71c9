/** `RetrievalPlanner.search`: modes, status filters, deduplication, reranking and touching. */
module Retrieval {
  import opened Options
  import opened Text
  import opened Chunking
  import opened Store
  import opened WriteGovernor
  import opened Lifecycle
  import opened Review
  import opened Results
  import opened Rerank

  datatype Mode = Public | Internal

  datatype Resolved = Resolved(mode: Mode, pending: bool) | InvalidMode

  /** What scoring leaves open: the scores of the rows for the query, lower-casing, and embedding similarity. */
  datatype Scoring = Scoring(
    lower: string -> string,
    claim: (Tables, Claim) -> real,
    chunk: (Tables, TextChunk) -> real,
    similarity: Similarity)

  /** `resolve_retrieval_mode`. A missing or blank mode is inferred from the pending flag. */
  function ResolveMode(lower: string -> string, mode: Option<string>, includePending: bool): Resolved {
    var m := lower(Strip(mode.Or("")));
    if m == "public" then Resolved(Public, false)
    else if m == "internal" then Resolved(Internal, includePending)
    else if m != "" then InvalidMode
    else Resolved(if includePending then Internal else Public, includePending)
  }

  /** Public mode never lets pending material in. */
  lemma PublicExcludesPending(lower: string -> string, mode: Option<string>, includePending: bool)
    ensures var r := ResolveMode(lower, mode, includePending);
            r.Resolved? && r.mode == Public ==> !r.pending
  {
  }

  /** Claim statuses a search admits; public mode overrides a caller's choice. */
  function Statuses(r: Resolved, chosen: Option<set<Status>>): set<Status>
    requires r.Resolved?
  {
    if r.mode == Public then {Active}
    else if chosen.Some? then chosen.value
    else if r.pending then {Active, PendingReview, Disputed}
    else {Active, Disputed}
  }

  function ReviewStatuses(r: Resolved, statuses: set<Status>): set<ReviewStatus>
    requires r.Resolved?
  {
    if r.mode == Public then {EvidenceActive}
    else if PendingReview in statuses then {EvidenceActive, EvidencePending}
    else {EvidenceActive}
  }

  const ROW_LIMIT := 1000

  function SpanIdsOfClaim(t: Tables, claimId: string): seq<string> {
    SpanIdsOf(Filter(t.links, (l: Link) => l.support.claimId == claimId && l.support.spanId.Some?))
  }

  function SpanIdsOf(links: seq<Link>): seq<string> {
    Mapped(links, (l: Link) => l.support.spanId.Or(""))
  }

  function SpanIdsOfChunk(t: Tables, chunkId: string): seq<string> {
    Mapped(Filter(t.spans, (s: TokenSpan) => s.chunkId == chunkId), (s: TokenSpan) => s.id)
  }

  function ClaimHit(sc: Scoring, t: Tables): Claim -> Result {
    (c: Claim) =>
      Result(ClaimResult, c.id, c.claimText, sc.claim(t, c), None, Some(c.id), SpanIdsOfClaim(t, c.id), Some(c.status))
  }

  function ChunkHit(sc: Scoring, t: Tables): TextChunk -> Result {
    (c: TextChunk) =>
      Result(ChunkResult, c.id, c.text, sc.chunk(t, c), Some(c.evidenceId), None, SpanIdsOfChunk(t, c.id), None)
  }

  function ClaimRows(t: Tables, project: string, statuses: set<Status>): seq<Claim> {
    First(Filter(t.claims, (c: Claim) => c.projectId == project && c.status in statuses), ROW_LIMIT)
  }

  /** The chunk's source is of the project and has one of the review statuses. */
  predicate Sourced(t: Tables, project: string, statuses: set<ReviewStatus>, c: TextChunk) {
    var e := LookupEvidence(t.evidence, c.evidenceId);
    e.Some? && e.value.projectId == project && e.value.reviewStatus in statuses
  }

  function ChunkRows(t: Tables, project: string, statuses: set<ReviewStatus>): seq<TextChunk> {
    First(Filter(t.chunks, (c: TextChunk) => Sourced(t, project, statuses, c)), ROW_LIMIT)
  }

  /** `_search_claims`: rows that score above 0.10, best first, at most `topK` (Python's slice when negative). */
  function SearchClaims(sc: Scoring, t: Tables, project: string, statuses: set<Status>, topK: int): seq<Result> {
    var hits := Mapped(ClaimRows(t, project, statuses), ClaimHit(sc, t));
    PySlice(Sorted(Filter(hits, (r: Result) => r.score > 0.10)), 0, topK)
  }

  /** `_search_chunks`, above 0.12. */
  function SearchChunks(sc: Scoring, t: Tables, project: string, statuses: set<ReviewStatus>, topK: int): seq<Result> {
    var hits := Mapped(ChunkRows(t, project, statuses), ChunkHit(sc, t));
    PySlice(Sorted(Filter(hits, (r: Result) => r.score > 0.12)), 0, topK)
  }

  function KeyOf(r: Result): (Kind, string) {
    (r.kind, r.id)
  }

  function DedupeFrom(rs: seq<Result>, seen: set<(Kind, string)>): seq<Result> {
    if rs == [] then []
    else if KeyOf(rs[0]) in seen then DedupeFrom(rs[1..], seen)
    else [rs[0]] + DedupeFrom(rs[1..], seen + {KeyOf(rs[0])})
  }

  /** `_dedupe_results`. */
  method DedupeResults(rs: seq<Result>) returns (out: seq<Result>)
    ensures out == DedupeFrom(rs, {})
  {
    out := [];
    var seen: set<(Kind, string)> := {};
    var k := 0;
    assert rs[0..] == rs;
    while k < |rs|
      invariant 0 <= k <= |rs|
      invariant DedupeFrom(rs, {}) == out + DedupeFrom(rs[k..], seen)
    {
      assert rs[k..][1..] == rs[k + 1..];
      if KeyOf(rs[k]) !in seen {
        Assoc(out, [rs[k]], DedupeFrom(rs[k + 1..], seen + {KeyOf(rs[k])}));
        out, seen := out + [rs[k]], seen + {KeyOf(rs[k])};
      }
      k := k + 1;
    }
  }

  ghost predicate DistinctKeys(rs: seq<Result>) {
    forall j, k :: 0 <= j < k < |rs| ==> KeyOf(rs[j]) != KeyOf(rs[k])
  }

  ghost predicate Represented(r: Result, out: seq<Result>) {
    exists k :: 0 <= k < |out| && KeyOf(out[k]) == KeyOf(r)
  }

  /** One result of every key not seen before, and never two. */
  ghost predicate Deduped(rs: seq<Result>, seen: set<(Kind, string)>, out: seq<Result>) {
    && DistinctKeys(out)
    && (forall k :: 0 <= k < |out| ==> out[k] in rs && KeyOf(out[k]) !in seen)
    && (forall k :: 0 <= k < |rs| && KeyOf(rs[k]) !in seen ==> Represented(rs[k], out))
  }

  lemma {:induction false} DedupeIs(rs: seq<Result>, seen: set<(Kind, string)>)
    ensures Deduped(rs, seen, DedupeFrom(rs, seen))
    decreases |rs|
  {
    hide KeyOf, Deduped;
    if rs == [] {
      DedupedNone(seen);
    } else if KeyOf(rs[0]) in seen {
      DedupeIs(rs[1..], seen);
      DedupedSkip(rs, seen, DedupeFrom(rs[1..], seen));
    } else {
      DedupeIs(rs[1..], seen + {KeyOf(rs[0])});
      DedupedCons(rs, seen, DedupeFrom(rs[1..], seen + {KeyOf(rs[0])}));
    }
  }

  lemma DedupedNone(seen: set<(Kind, string)>)
    ensures Deduped([], seen, [])
  {
  }

  lemma DedupedSkip(rs: seq<Result>, seen: set<(Kind, string)>, out: seq<Result>)
    requires rs != [] && KeyOf(rs[0]) in seen && Deduped(rs[1..], seen, out)
    ensures Deduped(rs, seen, out)
  {
    hide KeyOf;
    forall k | 0 <= k < |rs| && KeyOf(rs[k]) !in seen ensures Represented(rs[k], out) {
      assert rs[1..][k - 1] == rs[k];
    }
  }

  lemma DistinctCons(r: Result, rest: seq<Result>)
    requires DistinctKeys(rest) && forall k :: 0 <= k < |rest| ==> KeyOf(rest[k]) != KeyOf(r)
    ensures DistinctKeys([r] + rest)
  {
    hide KeyOf;
    var out := [r] + rest;
    assert forall k :: 1 <= k < |out| ==> out[k] == rest[k - 1];
  }

  lemma DedupedCons(rs: seq<Result>, seen: set<(Kind, string)>, rest: seq<Result>)
    requires rs != [] && Deduped(rs[1..], seen + {KeyOf(rs[0])}, rest) && KeyOf(rs[0]) !in seen
    ensures Deduped(rs, seen, [rs[0]] + rest)
  {
    var out := [rs[0]] + rest;
    hide KeyOf, Represented;
    DistinctCons(rs[0], rest);
    hide DistinctKeys;
    forall k | 0 <= k < |out| ensures out[k] in rs && KeyOf(out[k]) !in seen {
      NewKey(rs, seen, rest, k);
    }
    forall k | 0 <= k < |rs| && KeyOf(rs[k]) !in seen ensures Represented(rs[k], out) {
      RepresentedCons(rs, seen, rest, k);
    }
  }

  lemma NewKey(rs: seq<Result>, seen: set<(Kind, string)>, rest: seq<Result>, k: nat)
    requires rs != [] && Deduped(rs[1..], seen + {KeyOf(rs[0])}, rest) && KeyOf(rs[0]) !in seen && k <= |rest|
    ensures ([rs[0]] + rest)[k] in rs && KeyOf(([rs[0]] + rest)[k]) !in seen
  {
    hide KeyOf, DistinctKeys, Represented;
    if k > 0 {
      assert rest[k - 1] in rs[1..];
    }
  }

  lemma RepresentedCons(rs: seq<Result>, seen: set<(Kind, string)>, rest: seq<Result>, k: nat)
    requires rs != [] && Deduped(rs[1..], seen + {KeyOf(rs[0])}, rest) && k < |rs| && KeyOf(rs[k]) !in seen
    ensures Represented(rs[k], [rs[0]] + rest)
  {
    hide KeyOf;
    var out := [rs[0]] + rest;
    if KeyOf(rs[k]) == KeyOf(rs[0]) {
      assert KeyOf(out[0]) == KeyOf(rs[k]);
    } else {
      assert rs[1..][k - 1] == rs[k];
      assert Represented(rs[k], rest);
      var i :| 0 <= i < |rest| && KeyOf(rest[i]) == KeyOf(rs[k]);
      assert KeyOf(out[i + 1]) == KeyOf(rs[k]);
    }
  }

  const RELEVANCE := 0.78

  /** The results of a search, before they are touched. */
  function Found(sc: Scoring, t: Tables, project: string, topK: int, statuses: set<Status>,
      reviews: set<ReviewStatus>): seq<Result>
  {
    var claims := SearchClaims(sc, t, project, statuses, topK * 2);
    var chunks := SearchChunks(sc, t, project, reviews, topK * 2);
    Diversify(sc.similarity, RELEVANCE, DedupeFrom(Sorted(claims + chunks), {}), topK)
  }

  function TouchAll(t: Tables, rs: seq<Result>): Tables {
    if rs == [] then t
    else
      var init, last := TouchAll(t, rs[..|rs| - 1]), rs[|rs| - 1];
      if Truthy(last.claimId) then Touch(init, last.claimId.value, 0.02) else init
  }

  method TouchClaims(db: Database, rs: seq<Result>)
    modifies db
    ensures db.View() == TouchAll(old(db.View()), rs)
  {
    ghost var was := db.View();
    assert rs[..0] == [];
    for k := 0 to |rs|
      invariant db.View() == TouchAll(was, rs[..k])
    {
      assert rs[..k + 1][..k] == rs[..k];
      if Truthy(rs[k].claimId) {
        TouchClaim(db, rs[k].claimId.value, 0.02);
      }
    }
    assert rs[..|rs|] == rs;
  }

  /** `search`; none when the mode is invalid. */
  method Search(sc: Scoring, db: Database, project: string, topK: int, chosen: Option<set<Status>>,
      mode: Option<string>, includePending: bool)
    returns (results: Option<seq<Result>>)
    modifies db
    ensures var r := ResolveMode(sc.lower, mode, includePending);
            var t := old(db.View());
            if r.InvalidMode? then results.None? && db.View() == t
            else
              var statuses := Statuses(r, chosen);
              var rs := Found(sc, t, project, topK, statuses, ReviewStatuses(r, statuses));
              results == Some(rs) && db.View() == TouchAll(t, rs)
  {
    hide SearchClaims, SearchChunks, Sorted;
    var r := ResolveMode(sc.lower, mode, includePending);
    if r.InvalidMode? {
      return None;
    }
    var statuses := Statuses(r, chosen);
    var claims := SearchClaims(sc, db.View(), project, statuses, topK * 2);
    var chunks := SearchChunks(sc, db.View(), project, ReviewStatuses(r, statuses), topK * 2);
    var raw := DedupeResults(Sorted(claims + chunks));
    var merged := DiversifyResults(sc.similarity, raw, topK, RELEVANCE);
    TouchClaims(db, merged);
    results := Some(merged);
  }

  // ---------------------------------------------------------------- where results come from

  /** A claim of the project with an admitted status, or a chunk of the project whose source has one. */
  ghost predicate Admitted(t: Tables, project: string, statuses: set<Status>, reviews: set<ReviewStatus>, r: Result) {
    if r.kind.ClaimResult? then
      exists c :: c in t.claims && c.projectId == project && c.status in statuses
               && r.id == c.id && r.claimId == Some(c.id) && r.status == Some(c.status) && r.text == c.claimText
                    && r.evidenceId.None?
    else
      exists c :: c in t.chunks && Sourced(t, project, reviews, c)
               && r.id == c.id && r.evidenceId == Some(c.evidenceId) && r.claimId.None? && r.status.None?
                    && r.text == c.text
  }

  lemma SliceMember<T>(xs: seq<T>, j: int, x: T)
    requires x in PySlice(xs, 0, j)
    ensures x in xs
  {
  }

  lemma SortedMember(rs: seq<Result>, r: Result)
    requires r in Sorted(rs)
    ensures r in rs
  {
    SortedIs(rs);
    assert r in multiset(Sorted(rs));
  }

  lemma ClaimAdmitted(sc: Scoring, t: Tables, project: string, statuses: set<Status>, reviews: set<ReviewStatus>,
      topK: int, r: Result)
    requires r in SearchClaims(sc, t, project, statuses, topK)
    ensures Admitted(t, project, statuses, reviews, r)
  {
    hide Sorted, PySlice;
    var hits := Mapped(ClaimRows(t, project, statuses), ClaimHit(sc, t));
    var kept := Filter(hits, (r: Result) => r.score > 0.10);
    SliceMember(Sorted(kept), topK, r);
    SortedMember(kept, r);
    var k :| 0 <= k < |hits| && hits[k] == r;
    var c := ClaimRows(t, project, statuses)[k];
    ClaimRowIs(t, project, statuses, c);
  }

  lemma ClaimRowIs(t: Tables, project: string, statuses: set<Status>, c: Claim)
    requires c in ClaimRows(t, project, statuses)
    ensures c in t.claims && c.projectId == project && c.status in statuses
  {
    var rows := Filter(t.claims, (c: Claim) => c.projectId == project && c.status in statuses);
    assert c in rows;
  }

  lemma ChunkAdmitted(sc: Scoring, t: Tables, project: string, statuses: set<Status>, reviews: set<ReviewStatus>,
      topK: int, r: Result)
    requires r in SearchChunks(sc, t, project, reviews, topK)
    ensures Admitted(t, project, statuses, reviews, r)
  {
    hide Sorted, PySlice, Sourced;
    var hits := Mapped(ChunkRows(t, project, reviews), ChunkHit(sc, t));
    var kept := Filter(hits, (r: Result) => r.score > 0.12);
    SliceMember(Sorted(kept), topK, r);
    SortedMember(kept, r);
    var k :| 0 <= k < |hits| && hits[k] == r;
    var c := ChunkRows(t, project, reviews)[k];
    ChunkRowIs(t, project, reviews, c);
  }

  lemma ChunkRowIs(t: Tables, project: string, reviews: set<ReviewStatus>, c: TextChunk)
    requires c in ChunkRows(t, project, reviews)
    ensures c in t.chunks && Sourced(t, project, reviews, c)
  {
    var rows := Filter(t.chunks, (c: TextChunk) => Sourced(t, project, reviews, c));
    assert c in rows;
  }

  lemma DedupedMember(rs: seq<Result>, r: Result)
    requires r in DedupeFrom(rs, {})
    ensures r in rs
  {
    DedupeIs(rs, {});
    var k :| 0 <= k < |DedupeFrom(rs, {})| && DedupeFrom(rs, {})[k] == r;
  }

  lemma DiversifyMember(sim: Similarity, weight: real, rs: seq<Result>, topK: int, r: Result)
    requires r in Diversify(sim, weight, rs, topK)
    ensures r in rs
  {
    if topK >= 0 {
      DiversifySelects(sim, weight, rs, topK);
      assert r in multiset(Diversify(sim, weight, rs, topK));
    } else {
      NegativeSelectsNothing(sim, weight, rs, topK);
    }
  }

  /** Every result of a search is of the project and of an admitted status. */
  lemma FoundAdmitted(sc: Scoring, t: Tables, project: string, topK: int, statuses: set<Status>,
      reviews: set<ReviewStatus>, r: Result)
    requires r in Found(sc, t, project, topK, statuses, reviews)
    ensures Admitted(t, project, statuses, reviews, r)
  {
    hide SearchClaims, SearchChunks, Sorted, Diversify, DedupeFrom, Admitted;
    var claims := SearchClaims(sc, t, project, statuses, topK * 2);
    var chunks := SearchChunks(sc, t, project, reviews, topK * 2);
    var raw := DedupeFrom(Sorted(claims + chunks), {});
    DiversifyMember(sc.similarity, RELEVANCE, raw, topK, r);
    DedupedMember(Sorted(claims + chunks), r);
    SortedMember(claims + chunks, r);
    if r in claims {
      ClaimAdmitted(sc, t, project, statuses, reviews, topK * 2, r);
    } else {
      ChunkAdmitted(sc, t, project, statuses, reviews, topK * 2, r);
    }
  }

  lemma TwicePresent(rs: seq<Result>, j: nat, k: nat)
    requires j < k < |rs| && rs[j] == rs[k]
    ensures multiset(rs)[rs[j]] >= 2
  {
    var a, b, c := rs[..j], rs[j + 1..k], rs[k + 1..];
    assert rs == a + [rs[j]] + b + [rs[k]] + c;
  }

  lemma {:induction false} OncePresent(rs: seq<Result>, r: Result)
    requires DistinctKeys(rs)
    ensures multiset(rs)[r] <= 1
  {
    hide KeyOf;
    if rs != [] {
      var rest := rs[1..];
      assert rs == [rs[0]] + rest;
      OncePresent(rest, r);
    }
  }

  /** Fewer results of distinct keys have distinct keys. */
  lemma DistinctKept(a: seq<Result>, b: seq<Result>)
    requires multiset(a) <= multiset(b) && DistinctKeys(b)
    ensures DistinctKeys(a)
  {
    forall j, k | 0 <= j < k < |a| ensures KeyOf(a[j]) != KeyOf(a[k]) {
      assert a[j] in multiset(b) && a[k] in multiset(b);
      var x :| 0 <= x < |b| && b[x] == a[j];
      var y :| 0 <= y < |b| && b[y] == a[k];
      if KeyOf(a[j]) == KeyOf(a[k]) {
        TwicePresent(a, j, k);
        OncePresent(b, a[j]);
      }
    }
  }

  /** A search finds at most `topK` results, and none twice. */
  lemma FoundOnce(sc: Scoring, t: Tables, project: string, topK: nat, statuses: set<Status>, reviews: set<ReviewStatus>)
    ensures |Found(sc, t, project, topK, statuses, reviews)| <= topK
    ensures DistinctKeys(Found(sc, t, project, topK, statuses, reviews))
  {
    hide SearchClaims, SearchChunks, Sorted, Diversify, DedupeFrom, DistinctKeys;
    var all := Sorted(SearchClaims(sc, t, project, statuses, topK * 2)
      + SearchChunks(sc, t, project, reviews, topK * 2));
    DedupeIs(all, {});
    DiversifySelects(sc.similarity, RELEVANCE, DedupeFrom(all, {}), topK);
    DistinctKept(Found(sc, t, project, topK, statuses, reviews), DedupeFrom(all, {}));
  }

  // ---------------------------------------------------------------- what is not missed

  lemma SliceIsTop<T>(xs: seq<T>, n: nat)
    ensures PySlice(xs, 0, n) == if |xs| <= n then xs else xs[..n]
  {
  }

  /** A claim row that scores above the threshold is returned, unless as many that score no less are. */
  lemma BestClaimsReturned(sc: Scoring, t: Tables, project: string, statuses: set<Status>, topK: nat, c: Claim)
    requires c in ClaimRows(t, project, statuses) && sc.claim(t, c) > 0.10
    ensures var rs := SearchClaims(sc, t, project, statuses, topK);
            ClaimHit(sc, t)(c) in rs || (|rs| == topK && forall r :: r in rs ==> r.score >= sc.claim(t, c))
  {
    hide Sorted, PySlice, ClaimRows, SpanIdsOfClaim;
    var rows := ClaimRows(t, project, statuses);
    var hits := Mapped(rows, ClaimHit(sc, t));
    var k :| 0 <= k < |rows| && rows[k] == c;
    assert hits[k] == ClaimHit(sc, t)(c);
    var kept := Filter(hits, (r: Result) => r.score > 0.10);
    assert hits[k] in kept;
    TopIsBest(kept, topK, hits[k]);
    SliceIsTop(Sorted(kept), topK);
  }

  /** So is a chunk row above its threshold. */
  lemma BestChunksReturned(sc: Scoring, t: Tables, project: string, statuses: set<ReviewStatus>, topK: nat,
      c: TextChunk)
    requires c in ChunkRows(t, project, statuses) && sc.chunk(t, c) > 0.12
    ensures var rs := SearchChunks(sc, t, project, statuses, topK);
            ChunkHit(sc, t)(c) in rs || (|rs| == topK && forall r :: r in rs ==> r.score >= sc.chunk(t, c))
  {
    hide Sorted, PySlice, ChunkRows, SpanIdsOfChunk;
    var rows := ChunkRows(t, project, statuses);
    var hits := Mapped(rows, ChunkHit(sc, t));
    var k :| 0 <= k < |rows| && rows[k] == c;
    assert hits[k] == ChunkHit(sc, t)(c);
    var kept := Filter(hits, (r: Result) => r.score > 0.12);
    assert hits[k] in kept;
    TopIsBest(kept, topK, hits[k]);
    SliceIsTop(Sorted(kept), topK);
  }

  /** With no more than `topK` distinct hits, a search returns one result for each of them. */
  lemma FewHitsAllFound(sc: Scoring, t: Tables, project: string, topK: nat, statuses: set<Status>,
      reviews: set<ReviewStatus>, r: Result)
    requires r in SearchClaims(sc, t, project, statuses, topK * 2)
               || r in SearchChunks(sc, t, project, reviews, topK * 2)
    requires |SearchClaims(sc, t, project, statuses, topK * 2)|
               + |SearchChunks(sc, t, project, reviews, topK * 2)| <= topK
    ensures Represented(r, Found(sc, t, project, topK, statuses, reviews))
  {
    hide SearchClaims, SearchChunks, Sorted, DedupeFrom, KeyOf;
    var all := SearchClaims(sc, t, project, statuses, topK * 2) + SearchChunks(sc, t, project, reviews, topK * 2);
    SortedIs(all);
    assert r in multiset(all);
    assert r in Sorted(all);
    var k :| 0 <= k < |Sorted(all)| && Sorted(all)[k] == r;
    DedupeIs(Sorted(all), {});
    DedupeShorter(Sorted(all), {});
    assert |Sorted(all)| == |multiset(Sorted(all))| == |multiset(all)| == |all|;
  }

  lemma {:induction false} DedupeShorter(rs: seq<Result>, seen: set<(Kind, string)>)
    ensures |DedupeFrom(rs, seen)| <= |rs|
    decreases |rs|
  {
    if rs != [] {
      DedupeShorter(rs[1..], seen);
      DedupeShorter(rs[1..], seen + {KeyOf(rs[0])});
    }
  }
}
