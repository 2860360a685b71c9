/** `ContradictionEngine`: pairwise detection, and the scan of one claim against its rivals. */
module Contradictions {
  import opened Options
  import opened Candidates
  import opened Store
  import opened Connections

  /**
   * Text functions of the detector: key normalisation, SQL's `lower`, polarity, and the
   * lower-cased words longer than three characters.
   */
  datatype Lexicon = Lexicon(
    key: string -> string,
    lower: string -> string,
    negates: string -> bool,
    words: string -> set<string>)

  datatype Kind = ConflictingObject | TextualNegation

  datatype Detection = Detection(kind: Kind, severity: real)

  const AFFIRMING := {"true", "yes", "allowed", "enabled"}
  const DENYING := {"false", "no", "not_allowed", "disabled"}

  /** `_conflicting_objects`. */
  predicate ConflictingObjects(lex: Lexicon, a: string, b: string) {
    var x, y := lex.key(a), lex.key(b);
    if x == y then false
    else if x in AFFIRMING && y in DENYING then true
    else if y in AFFIRMING && x in DENYING then true
    else false
  }

  /** `_overlap`: shared words over all words. */
  function Overlap(lex: Lexicon, a: string, b: string): real {
    var x, y := lex.words(a), lex.words(b);
    if x == {} || y == {} then 0.0
    else |x * y| as real / (if |x + y| > 1 then |x + y| else 1) as real
  }

  /** `detect`. */
  function Detect(lex: Lexicon, a: Claim, b: Claim): Option<Detection> {
    if lex.key(a.subject) != lex.key(b.subject) then None
    else
      var samePredicate := lex.key(a.predicate_) == lex.key(b.predicate_);
      var objectsDiffer := lex.key(a.object_) != lex.key(b.object_);
      var polarityDiffers := lex.negates(a.claimText) != lex.negates(b.claimText);
      if samePredicate && objectsDiffer && (polarityDiffers || ConflictingObjects(lex, a.object_, b.object_)) then
        Some(Detection(ConflictingObject, 0.75))
      else if polarityDiffers && Overlap(lex, a.claimText, b.claimText) >= 0.45 then
        Some(Detection(TextualNegation, 0.65))
      else None
  }

  /** Detection looks at the texts only. */
  predicate SameTexts(a: Claim, b: Claim) {
    a.subject == b.subject && a.predicate_ == b.predicate_ && a.object_ == b.object_ && a.claimText == b.claimText
  }

  lemma DetectSymmetric(lex: Lexicon, a: Claim, b: Claim)
    ensures Detect(lex, a, b) == Detect(lex, b, a)
  {
    var x, y := lex.words(a.claimText), lex.words(b.claimText);
    assert x * y == y * x && x + y == y + x;
  }

  /** A claim never contradicts one that says the same. */
  lemma DetectIrreflexive(lex: Lexicon, a: Claim, b: Claim)
    requires SameTexts(a, b)
    ensures Detect(lex, a, b) == None
  {
  }

  // ---------------------------------------------------------------- scanning

  /** Whether the query for the rivals of `c` selects `other`. */
  predicate Rival(lex: Lexicon, c: Claim, other: Claim) {
    other.id != c.id && other.projectId == c.projectId && Live(other.status)
      && lex.lower(other.subject) == lex.lower(c.subject)
  }

  function Rivals(lex: Lexicon, t: Tables, c: Claim): seq<Claim> {
    Filter(t.claims, (other: Claim) => Rival(lex, c, other))
  }

  /** A contradiction between the two claims is on record, in either direction. */
  predicate OnRecord(rows: seq<ContradictionRow>, a: string, b: string) {
    exists k :: 0 <= k < |rows| && ((rows[k].a == a && rows[k].b == b) || (rows[k].a == b && rows[k].b == a))
  }

  function DisputedBy(a: string, b: string): Claim -> Claim {
    (c: Claim) => if c.id == a || c.id == b then c.(status := Disputed) else c
  }

  /** `record`. */
  function Record(t: Tables, a: string, b: string): Tables {
    if OnRecord(t.contradictions, a, b) then t
    else t.(contradictions := t.contradictions + [ContradictionRow(a, b, false)],
            claims := Mapped(t.claims, DisputedBy(a, b)))
  }

  function ScanFrom(lex: Lexicon, t: Tables, c: Claim, rivals: seq<Claim>): Tables
    decreases |rivals|
  {
    if rivals == [] then t
    else ScanFrom(lex, if Detect(lex, c, rivals[0]).Some? then Record(t, c.id, rivals[0].id) else t, c, rivals[1..])
  }

  /** `scan_new_claim`. */
  function Scan(lex: Lexicon, t: Tables, id: string): Tables {
    match Lookup(t.claims, id)
    case None => t
    case Some(c) => ScanFrom(lex, t, c, Rivals(lex, t, c))
  }

  /** What the scan reports: every rival a contradiction is detected with. */
  function Detected(lex: Lexicon, t: Tables, id: string): seq<string> {
    match Lookup(t.claims, id)
    case None => []
    case Some(c) => DetectedAmong(lex, c, Rivals(lex, t, c))
  }

  function DetectedAmong(lex: Lexicon, c: Claim, rivals: seq<Claim>): seq<string> {
    if rivals == [] then []
    else (if Detect(lex, c, rivals[0]).Some? then [rivals[0].id] else []) + DetectedAmong(lex, c, rivals[1..])
  }

  // ---------------------------------------------------------------- order independence

  /** The two claims would be recorded as contradicting each other. */
  predicate Conflict(lex: Lexicon, a: Claim, b: Claim) {
    && a.id != b.id && a.projectId == b.projectId && lex.lower(a.subject) == lex.lower(b.subject)
    && Detect(lex, a, b).Some?
  }

  lemma ConflictSymmetric(lex: Lexicon, a: Claim, b: Claim)
    ensures Conflict(lex, a, b) <==> Conflict(lex, b, a)
  {
    DetectSymmetric(lex, a, b);
  }

  /** The unordered pairs on record. */
  function PairsOf(rows: seq<ContradictionRow>): set<set<string>> {
    set k | 0 <= k < |rows| :: {rows[k].a, rows[k].b}
  }

  /** The pairs that scanning the claims in `ids` should record. */
  function ConflictPairs(lex: Lexicon, claims: seq<Claim>, ids: set<string>): set<set<string>> {
    set i, j | 0 <= i < |claims| && 0 <= j < |claims| && Conflict(lex, claims[i], claims[j]) && claims[i].id in ids
             :: {claims[i].id, claims[j].id}
  }

  /** Each row pairs two different claims, and no pair is recorded twice. */
  ghost predicate OncePerPair(rows: seq<ContradictionRow>) {
    && (forall k :: 0 <= k < |rows| ==> rows[k].a != rows[k].b)
    && (forall j, k :: 0 <= j < k < |rows| ==> {rows[j].a, rows[j].b} != {rows[k].a, rows[k].b})
  }

  ghost predicate Paired(pairs: set<set<string>>, id: string) {
    exists p :: p in pairs && id in p
  }

  /** `t` is `was` with exactly these pairs recorded and exactly their claims disputed. */
  ghost predicate Recorded(was: Tables, pairs: set<set<string>>, t: Tables) {
    && t == was.(claims := t.claims, contradictions := t.contradictions)
    && OncePerPair(t.contradictions) && PairsOf(t.contradictions) == pairs
    && |t.claims| == |was.claims|
    && forall k :: 0 <= k < |was.claims| ==>
         t.claims[k] == if Paired(pairs, was.claims[k].id) then was.claims[k].(status := Disputed) else was.claims[k]
  }

  /** A store the scans start from: distinct ids, every claim live, nothing recorded. */
  ghost predicate Fresh(t: Tables) {
    && t.contradictions == []
    && (forall j, k :: 0 <= j < k < |t.claims| ==> t.claims[j].id != t.claims[k].id)
    && (forall k :: 0 <= k < |t.claims| ==> Live(t.claims[k].status))
  }

  lemma OnRecordIsPair(rows: seq<ContradictionRow>, a: string, b: string)
    ensures OnRecord(rows, a, b) <==> {a, b} in PairsOf(rows)
  {
    if {a, b} in PairsOf(rows) {
      var k :| 0 <= k < |rows| && {rows[k].a, rows[k].b} == {a, b};
      assert a in {rows[k].a, rows[k].b} && b in {rows[k].a, rows[k].b};
      assert rows[k].a in {a, b} && rows[k].b in {a, b};
    }
    if OnRecord(rows, a, b) {
      var k :| 0 <= k < |rows| && ((rows[k].a == a && rows[k].b == b) || (rows[k].a == b && rows[k].b == a));
      assert {rows[k].a, rows[k].b} == {a, b};
    }
  }

  lemma PairsAppend(rows: seq<ContradictionRow>, row: ContradictionRow)
    ensures PairsOf(rows + [row]) == PairsOf(rows) + {{row.a, row.b}}
  {
    var next := rows + [row];
    assert next[|rows|] == row;
    forall p | p in PairsOf(rows) ensures p in PairsOf(next) {
      var k :| 0 <= k < |rows| && p == {rows[k].a, rows[k].b};
      assert next[k] == rows[k];
    }
    assert {next[|rows|].a, next[|rows|].b} in PairsOf(next);
  }

  lemma OnceAppend(rows: seq<ContradictionRow>, a: string, b: string)
    requires OncePerPair(rows) && a != b && {a, b} !in PairsOf(rows)
    ensures OncePerPair(rows + [ContradictionRow(a, b, false)])
  {
    forall k | 0 <= k < |rows| ensures {rows[k].a, rows[k].b} != {a, b} {
      assert {rows[k].a, rows[k].b} in PairsOf(rows);
    }
  }

  /** `n` is `t` with the pair on record, its claims disputed unless it was there. */
  ghost predicate PairAdded(t: Tables, n: Tables, a: string, b: string) {
    && n == t.(claims := n.claims, contradictions := n.contradictions)
    && PairsOf(n.contradictions) == PairsOf(t.contradictions) + {{a, b}}
    && (a != b && OncePerPair(t.contradictions) ==> OncePerPair(n.contradictions))
    && |n.claims| == |t.claims|
    && forall k :: 0 <= k < |t.claims| ==>
         n.claims[k] == if {a, b} !in PairsOf(t.contradictions) && (t.claims[k].id == a || t.claims[k].id == b)
                        then t.claims[k].(status := Disputed) else t.claims[k]
  }

  lemma RecordEffect(t: Tables, a: string, b: string)
    ensures PairAdded(t, Record(t, a, b), a, b)
  {
    hide PairsOf, OncePerPair;
    OnRecordIsPair(t.contradictions, a, b);
    if OnRecord(t.contradictions, a, b) {
      assert PairsOf(t.contradictions) + {{a, b}} == PairsOf(t.contradictions);
    } else {
      PairsAppend(t.contradictions, ContradictionRow(a, b, false));
      if a != b && OncePerPair(t.contradictions) {
        OnceAppend(t.contradictions, a, b);
      }
    }
  }

  lemma PairedAdd(pairs: set<set<string>>, a: string, b: string, id: string)
    ensures Paired(pairs + {{a, b}}, id) <==> Paired(pairs, id) || id == a || id == b
  {
    if id == a || id == b {
      assert {a, b} in pairs + {{a, b}} && id in {a, b};
    }
    if Paired(pairs, id) {
      var p :| p in pairs && id in p;
      assert p in pairs + {{a, b}};
    }
    if Paired(pairs + {{a, b}}, id) && !(id == a || id == b) {
      var p :| p in pairs + {{a, b}} && id in p;
      assert p in pairs;
    }
  }

  /** Recording one contradiction adds its pair, whether or not it was there. */
  lemma RecordAdds(was: Tables, pairs: set<set<string>>, t: Tables, a: string, b: string)
    requires Recorded(was, pairs, t) && a != b
    ensures Recorded(was, pairs + {{a, b}}, Record(t, a, b))
  {
    hide PairsOf, Paired, OncePerPair;
    OnRecordIsPair(t.contradictions, a, b);
    if OnRecord(t.contradictions, a, b) {
      assert pairs + {{a, b}} == pairs;
    } else {
      PairsAppend(t.contradictions, ContradictionRow(a, b, false));
      OnceAppend(t.contradictions, a, b);
      forall k | 0 <= k < |was.claims|
        ensures Record(t, a, b).claims[k]
                == if Paired(pairs + {{a, b}}, was.claims[k].id) then was.claims[k].(status := Disputed)
                  else was.claims[k]
      {
        PairedAdd(pairs, a, b, was.claims[k].id);
      }
    }
  }

  /** The pairs one scan records. */
  function PairsWith(lex: Lexicon, c: Claim, rivals: seq<Claim>): set<set<string>> {
    set k | 0 <= k < |rivals| && Detect(lex, c, rivals[k]).Some? :: {c.id, rivals[k].id}
  }

  lemma PairsWithCons(lex: Lexicon, c: Claim, rivals: seq<Claim>)
    requires rivals != []
    ensures PairsWith(lex, c, rivals)
            == (if Detect(lex, c, rivals[0]).Some? then {{c.id, rivals[0].id}} else {}) + PairsWith(lex, c, rivals[1..])
  {
    hide Detect;
    assert forall k :: 1 <= k < |rivals| ==> rivals[k] == rivals[1..][k - 1];
    forall p | p in PairsWith(lex, c, rivals[1..]) ensures p in PairsWith(lex, c, rivals) {
      var k :| 0 <= k < |rivals[1..]| && Detect(lex, c, rivals[1..][k]).Some? && p == {c.id, rivals[1..][k].id};
      assert rivals[k + 1] == rivals[1..][k];
    }
  }

  lemma {:induction false} ScanFromAdds(lex: Lexicon, was: Tables, pairs: set<set<string>>, t: Tables, c: Claim,
      rivals: seq<Claim>)
    requires Recorded(was, pairs, t) && forall k :: 0 <= k < |rivals| ==> rivals[k].id != c.id
    ensures Recorded(was, pairs + PairsWith(lex, c, rivals), ScanFrom(lex, t, c, rivals))
    decreases |rivals|
  {
    hide Recorded, Record, Detect, PairsWith;
    if rivals == [] {
      NoPairs(lex, c);
      assert pairs + PairsWith(lex, c, []) == pairs;
    } else {
      PairsWithCons(lex, c, rivals);
      if Detect(lex, c, rivals[0]).Some? {
        RecordAdds(was, pairs, t, c.id, rivals[0].id);
        ScanFromAdds(lex, was, pairs + {{c.id, rivals[0].id}}, Record(t, c.id, rivals[0].id), c, rivals[1..]);
        assert pairs + {{c.id, rivals[0].id}} + PairsWith(lex, c, rivals[1..]) == pairs + PairsWith(lex, c, rivals);
      } else {
        ScanFromAdds(lex, was, pairs, t, c, rivals[1..]);
        assert pairs + PairsWith(lex, c, rivals[1..]) == pairs + PairsWith(lex, c, rivals);
      }
    }
  }

  lemma NoPairs(lex: Lexicon, c: Claim)
    ensures PairsWith(lex, c, []) == {}
  {
  }

  /** The rivals found in the middle of a series of scans are those of the start. */
  lemma {:induction false} RivalPairs(lex: Lexicon, was: Tables, pairs: set<set<string>>, t: Tables, c: Claim)
    requires Fresh(was) && Recorded(was, pairs, t) && c in t.claims
    ensures PairsWith(lex, c, Rivals(lex, t, c)) == ConflictPairs(lex, was.claims, {c.id})
  {
    hide Detect, Recorded, Fresh, Rivals, Conflict;
    var rivals := Rivals(lex, t, c);
    forall p | p in PairsWith(lex, c, rivals) ensures p in ConflictPairs(lex, was.claims, {c.id}) {
      var k :| 0 <= k < |rivals| && Detect(lex, c, rivals[k]).Some? && p == {c.id, rivals[k].id};
      var i, j := RivalConflicts(lex, was, pairs, t, c, rivals[k]);
      assert was.claims[i].id in {c.id};
    }
    forall p | p in ConflictPairs(lex, was.claims, {c.id}) ensures p in PairsWith(lex, c, rivals) {
      var a, b :| 0 <= a < |was.claims| && 0 <= b < |was.claims| && Conflict(lex, was.claims[a], was.claims[b])
               && was.claims[a].id in {c.id} && p == {was.claims[a].id, was.claims[b].id};
      var k := ConflictIsRival(lex, was, pairs, t, c, a, b);
      assert {c.id, rivals[k].id} == p;
    }
  }

  lemma {:induction false} RivalConflicts(lex: Lexicon, was: Tables, pairs: set<set<string>>, t: Tables, c: Claim,
      other: Claim)
    returns (i: nat, j: nat)
    requires Recorded(was, pairs, t) && c in t.claims && other in Rivals(lex, t, c) && Detect(lex, c, other).Some?
    ensures i < |was.claims| && j < |was.claims| && was.claims[i].id == c.id && was.claims[j].id == other.id
    ensures Conflict(lex, was.claims[i], was.claims[j])
  {
    hide Detect, Paired, PairsOf, OncePerPair;
    i :| 0 <= i < |t.claims| && t.claims[i] == c;
    j :| 0 <= j < |t.claims| && t.claims[j] == other;
    StatusOnly(lex, was.claims[i], was.claims[j], c, other);
  }

  lemma {:induction false} ConflictIsRival(lex: Lexicon, was: Tables, pairs: set<set<string>>, t: Tables, c: Claim,
      a: nat, b: nat)
    returns (k: nat)
    requires Fresh(was) && Recorded(was, pairs, t) && c in t.claims
    requires a < |was.claims| && b < |was.claims| && Conflict(lex, was.claims[a], was.claims[b])
               && was.claims[a].id == c.id
    ensures var rivals := Rivals(lex, t, c);
            k < |rivals| && rivals[k].id == was.claims[b].id && Detect(lex, c, rivals[k]).Some?
  {
    hide Detect, Paired, PairsOf, OncePerPair;
    var i :| 0 <= i < |t.claims| && t.claims[i] == c;
    assert a == i;
    var other := t.claims[b];
    StatusOnly(lex, was.claims[i], was.claims[b], c, other);
    assert Rival(lex, c, other) && other in t.claims;
    assert other in Rivals(lex, t, c);
    k :| 0 <= k < |Rivals(lex, t, c)| && Rivals(lex, t, c)[k] == other;
  }

  lemma RivalsDiffer(lex: Lexicon, t: Tables, c: Claim)
    ensures forall k :: 0 <= k < |Rivals(lex, t, c)| ==> Rivals(lex, t, c)[k].id != c.id
  {
    forall k | 0 <= k < |Rivals(lex, t, c)| ensures Rivals(lex, t, c)[k].id != c.id {
      assert Rivals(lex, t, c)[k] in Rivals(lex, t, c);
    }
  }

  /** Changing statuses changes neither texts nor detection. */
  lemma StatusOnly(lex: Lexicon, a: Claim, b: Claim, a': Claim, b': Claim)
    requires a' == a.(status := a'.status) && b' == b.(status := b'.status)
    ensures Detect(lex, a', b') == Detect(lex, a, b)
  {
  }

  /** One scan in a series adds exactly the conflicts of the scanned claim. */
  lemma {:induction false} ScanAdds(lex: Lexicon, was: Tables, ids: set<string>, t: Tables, id: string)
    requires Fresh(was) && Recorded(was, ConflictPairs(lex, was.claims, ids), t)
    ensures Recorded(was, ConflictPairs(lex, was.claims, ids + {id}), Scan(lex, t, id))
  {
    hide Recorded, Detect, ScanFrom, PairsWith, Conflict;
    var pairs := ConflictPairs(lex, was.claims, ids);
    ConflictPairsAdd(lex, was.claims, ids, id);
    match Lookup(t.claims, id) {
      case None =>
        NoSuchClaim(lex, was, pairs, t, id);
        assert pairs + {} == pairs;
      case Some(c) =>
        RivalPairs(lex, was, pairs, t, c);
        RivalsDiffer(lex, t, c);
        ScanFromAdds(lex, was, pairs, t, c, Rivals(lex, t, c));
    }
  }

  lemma ConflictPairsAdd(lex: Lexicon, claims: seq<Claim>, ids: set<string>, id: string)
    ensures ConflictPairs(lex, claims, ids + {id}) == ConflictPairs(lex, claims, ids) + ConflictPairs(lex, claims, {id})
  {
    hide Conflict;
    var all := ids + {id};
    forall p | p in ConflictPairs(lex, claims, ids) + ConflictPairs(lex, claims, {id})
      ensures p in ConflictPairs(lex, claims, all)
    {
      if p in ConflictPairs(lex, claims, ids) {
        var i, j :| 0 <= i < |claims| && 0 <= j < |claims| && Conflict(lex, claims[i], claims[j]) && claims[i].id in ids
                 && p == {claims[i].id, claims[j].id};
        assert claims[i].id in all;
      } else {
        var i, j :| 0 <= i < |claims| && 0 <= j < |claims| && Conflict(lex, claims[i], claims[j])
          && claims[i].id in {id}
                 && p == {claims[i].id, claims[j].id};
        assert claims[i].id in all;
      }
    }
  }

  lemma NoSuchClaim(lex: Lexicon, was: Tables, pairs: set<set<string>>, t: Tables, id: string)
    requires Recorded(was, pairs, t) && Lookup(t.claims, id).None?
    ensures ConflictPairs(lex, was.claims, {id}) == {}
  {
    hide Conflict, Paired;
    forall i | 0 <= i < |was.claims| ensures was.claims[i].id != id {
      assert t.claims[i].id == was.claims[i].id;
    }
  }

  function ScanAll(lex: Lexicon, t: Tables, ids: seq<string>): Tables {
    if ids == [] then t else Scan(lex, ScanAll(lex, t, ids[..|ids| - 1]), ids[|ids| - 1])
  }

  function Scanned(ids: seq<string>): set<string> {
    set k | 0 <= k < |ids| :: ids[k]
  }

  /**
   * Scanning any series of claims records, once each, exactly the conflicting pairs
   * with a scanned claim in them, and disputes exactly the claims of those pairs.
   */
  lemma {:induction false} ScansRecord(lex: Lexicon, t: Tables, ids: seq<string>)
    requires Fresh(t)
    ensures Recorded(t, ConflictPairs(lex, t.claims, Scanned(ids)), ScanAll(lex, t, ids))
  {
    hide Recorded, Conflict, Fresh, Scan;
    if ids == [] {
      NothingRecorded(t);
      assert ConflictPairs(lex, t.claims, Scanned([])) == {};
    } else {
      var init, last := ids[..|ids| - 1], ids[|ids| - 1];
      ScansRecord(lex, t, init);
      ScanAdds(lex, t, Scanned(init), ScanAll(lex, t, init), last);
      assert Scanned(ids) == Scanned(init) + {last};
    }
  }

  lemma NothingRecorded(t: Tables)
    requires Fresh(t)
    ensures Recorded(t, {}, t)
  {
  }

  /** The order of the scans does not matter: same pairs, same claims. */
  lemma OrderIndependent(lex: Lexicon, t: Tables, ids: seq<string>, other: seq<string>)
    requires Fresh(t) && Scanned(ids) == Scanned(other)
    ensures ScanAll(lex, t, ids).claims == ScanAll(lex, t, other).claims
    ensures PairsOf(ScanAll(lex, t, ids).contradictions) == PairsOf(ScanAll(lex, t, other).contradictions)
    ensures OncePerPair(ScanAll(lex, t, ids).contradictions)
  {
    hide OncePerPair, PairsOf, Paired, ConflictPairs, Scan;
    ScansRecord(lex, t, ids);
    ScansRecord(lex, t, other);
  }

  lemma SamePair(x: string, y: string, u: string, v: string)
    requires {x, y} == {u, v}
    ensures (x == u && y == v) || (x == v && y == u)
  {
    assert x in {u, v} && y in {u, v} && u in {x, y} && v in {x, y};
  }

  lemma PairIsConflict(lex: Lexicon, t: Tables, ids: set<string>, i: nat, j: nat)
    requires Fresh(t) && i < |t.claims| && j < |t.claims| && t.claims[i].id in ids
    ensures {t.claims[i].id, t.claims[j].id} in ConflictPairs(lex, t.claims, ids) <==>
              Conflict(lex, t.claims[i], t.claims[j])
  {
    hide Conflict;
    var pair := {t.claims[i].id, t.claims[j].id};
    if pair in ConflictPairs(lex, t.claims, ids) {
      var a, b :| 0 <= a < |t.claims| && 0 <= b < |t.claims| && Conflict(lex, t.claims[a], t.claims[b])
               && t.claims[a].id in ids && pair == {t.claims[a].id, t.claims[b].id};
      SamePair(t.claims[i].id, t.claims[j].id, t.claims[a].id, t.claims[b].id);
      ConflictSymmetric(lex, t.claims[a], t.claims[b]);
    }
  }

  /** Once every claim has been scanned, a pair is on record exactly when the two claims conflict. */
  lemma AllScanned(lex: Lexicon, t: Tables, ids: seq<string>, i: nat, j: nat)
    requires Fresh(t) && i < |t.claims| && j < |t.claims|
    requires forall k :: 0 <= k < |t.claims| ==> t.claims[k].id in Scanned(ids)
    ensures {t.claims[i].id, t.claims[j].id} in PairsOf(ScanAll(lex, t, ids).contradictions) <==>
              Conflict(lex, t.claims[i], t.claims[j])
  {
    hide OncePerPair, PairsOf, Paired, Scan, Conflict, ConflictPairs, ScanAll;
    ScansRecord(lex, t, ids);
    PairIsConflict(lex, t, Scanned(ids), i, j);
  }

  // ---------------------------------------------------------------- what a scan does to statuses

  /** The scan of `c` records a pair with this claim that was not on record. */
  predicate Newly(lex: Lexicon, t: Tables, c: Claim, rivals: seq<Claim>, id: string) {
    exists j :: 0 <= j < |rivals| && Detect(lex, c, rivals[j]).Some?
      && !OnRecord(t.contradictions, c.id, rivals[j].id) && (id == c.id || id == rivals[j].id)
  }

  /** Every rival the claim is detected against is on record with it. */
  ghost predicate AllOnRecord(lex: Lexicon, t: Tables, c: Claim) {
    forall r :: r in Rivals(lex, t, c) && Detect(lex, c, r).Some? ==> OnRecord(t.contradictions, c.id, r.id)
  }

  lemma NewlyCons(lex: Lexicon, t: Tables, c: Claim, rivals: seq<Claim>, id: string)
    requires rivals != []
    ensures var first := Detect(lex, c, rivals[0]).Some? && !OnRecord(t.contradictions, c.id, rivals[0].id);
            Newly(lex, t, c, rivals, id) <==>
              (first && (id == c.id || id == rivals[0].id)) || Newly(lex, t, c, rivals[1..], id)
  {
    hide Detect, OnRecord;
    assert forall j :: 1 <= j < |rivals| ==> rivals[j] == rivals[1..][j - 1];
    if Newly(lex, t, c, rivals[1..], id) {
      var j :| 0 <= j < |rivals[1..]| && Detect(lex, c, rivals[1..][j]).Some?
        && !OnRecord(t.contradictions, c.id, rivals[1..][j].id) && (id == c.id || id == rivals[1..][j].id);
      assert rivals[j + 1] == rivals[1..][j];
    }
  }

  lemma RecordOnRecord(t: Tables, a: string, b: string, x: string)
    ensures OnRecord(Record(t, a, b).contradictions, a, x) <==> OnRecord(t.contradictions, a, x) || x == b
  {
    RecordKeepsRecord(t, a, b, a, x);
    var rows, next := t.contradictions, Record(t, a, b).contradictions;
    if OnRecord(next, a, x) {
      var k :| 0 <= k < |next| && ((next[k].a == a && next[k].b == x) || (next[k].a == x && next[k].b == a));
      assert k < |rows| ==> next[k] == rows[k];
    }
  }

  /** After recording against the first rival, only the others can still be new. */
  lemma NewlyAfter(lex: Lexicon, t: Tables, c: Claim, rivals: seq<Claim>, b: string, id: string)
    requires !OnRecord(t.contradictions, c.id, b)
    ensures (id == c.id || id == b) || (Newly(lex, Record(t, c.id, b), c, rivals, id) <==> Newly(lex, t, c, rivals, id))
  {
    hide Detect, OnRecord, Record;
    forall j | 0 <= j < |rivals|
      ensures OnRecord(Record(t, c.id, b).contradictions, c.id, rivals[j].id) <==>
                OnRecord(t.contradictions, c.id, rivals[j].id) || rivals[j].id == b
    {
      RecordOnRecord(t, c.id, b, rivals[j].id);
    }
  }

  /** A scan disputes exactly the claims of the pairs that are new, and changes no other claim. */
  lemma {:induction false} ScanFromEffect(lex: Lexicon, t: Tables, c: Claim, rivals: seq<Claim>, k: nat)
    requires k < |t.claims|
    ensures |ScanFrom(lex, t, c, rivals).claims| == |t.claims|
    ensures ScanFrom(lex, t, c, rivals).claims[k]
            == if Newly(lex, t, c, rivals, t.claims[k].id) then t.claims[k].(status := Disputed) else t.claims[k]
    decreases |rivals|
  {
    hide Detect, OnRecord, Newly;
    if rivals == [] {
      NewlyNone(lex, t, c, t.claims[k].id);
    } else {
      var id, b := t.claims[k].id, rivals[0].id;
      var n := if Detect(lex, c, rivals[0]).Some? then Record(t, c.id, b) else t;
      NewlyCons(lex, t, c, rivals, id);
      ScanFromEffect(lex, n, c, rivals[1..], k);
      if Detect(lex, c, rivals[0]).Some? && !OnRecord(t.contradictions, c.id, b) {
        NewlyAfter(lex, t, c, rivals[1..], b, id);
      }
    }
  }

  lemma NewlyNone(lex: Lexicon, t: Tables, c: Claim, id: string)
    ensures !Newly(lex, t, c, [], id)
  {
  }

  lemma SameRow(claims: seq<Claim>, i: nat, c: Claim)
    requires Keyed(claims) && i < |claims| && c in claims && claims[i].id == c.id
    ensures claims[i] == c
  {
    var j :| 0 <= j < |claims| && claims[j] == c;
  }

  /**
   * A scan leaves every claim that is not live alone exactly when there is no such claim
   * to scan, or the scanned one is live itself, or all it is detected against is on record.
   */
  lemma ScanLeavesRestIff(lex: Lexicon, t: Tables, id: string)
    requires Keyed(t.claims)
    ensures LeavesRest(t.claims, Scan(lex, t, id).claims) <==>
              var c := Lookup(t.claims, id);
              c.None? || Live(c.value.status) || AllOnRecord(lex, t, c.value)
  {
    hide Detect, OnRecord, ScanFrom, Newly;
    if Lookup(t.claims, id).Some? {
      var c := Lookup(t.claims, id).value;
      var rivals := Rivals(lex, t, c);
      var n := Scan(lex, t, id);
      var at :| 0 <= at < |t.claims| && t.claims[at] == c;
      forall k | 0 <= k < |t.claims|
        ensures |n.claims| == |t.claims|
        ensures n.claims[k]
                  == if Newly(lex, t, c, rivals, t.claims[k].id) then t.claims[k].(status := Disputed) else t.claims[k]
        ensures k != at && !Live(t.claims[k].status) ==> n.claims[k] == t.claims[k]
      {
        ScanFromEffect(lex, t, c, rivals, k);
        if k != at && Newly(lex, t, c, rivals, t.claims[k].id) {
          NewlyIsRival(lex, t, c, k);
        }
      }
      NewlySelf(lex, t, c);
    }
  }

  /** Any other claim a scan disputes was live. */
  lemma NewlyIsRival(lex: Lexicon, t: Tables, c: Claim, k: nat)
    requires Keyed(t.claims) && k < |t.claims| && t.claims[k].id != c.id
    requires Newly(lex, t, c, Rivals(lex, t, c), t.claims[k].id)
    ensures Live(t.claims[k].status)
  {
    hide Detect, OnRecord;
    var rivals := Rivals(lex, t, c);
    var j :| 0 <= j < |rivals| && Detect(lex, c, rivals[j]).Some?
      && !OnRecord(t.contradictions, c.id, rivals[j].id) && (t.claims[k].id == c.id || t.claims[k].id == rivals[j].id);
    assert rivals[j] in rivals;
    SameRow(t.claims, k, rivals[j]);
  }

  /** The scanned claim is disputed exactly when it is detected against a rival not on record. */
  lemma NewlySelf(lex: Lexicon, t: Tables, c: Claim)
    ensures Newly(lex, t, c, Rivals(lex, t, c), c.id) <==> !AllOnRecord(lex, t, c)
  {
    hide Detect, OnRecord;
    var rivals := Rivals(lex, t, c);
    if !AllOnRecord(lex, t, c) {
      var r :| r in rivals && Detect(lex, c, r).Some? && !OnRecord(t.contradictions, c.id, r.id);
      var j :| 0 <= j < |rivals| && rivals[j] == r;
    }
  }

  /** A scan keeps every claim at its place. */
  lemma ScanSamePlaces(lex: Lexicon, t: Tables, id: string)
    ensures |Scan(lex, t, id).claims| == |t.claims|
    ensures forall k :: 0 <= k < |t.claims| ==>
              Scan(lex, t, id).claims[k] == t.claims[k].(status := Scan(lex, t, id).claims[k].status)
  {
    hide Newly, ScanFrom;
    if Lookup(t.claims, id).Some? && t.claims != [] {
      var c := Lookup(t.claims, id).value;
      ScanFromEffect(lex, t, c, Rivals(lex, t, c), 0);
      forall k | 0 <= k < |t.claims|
        ensures Scan(lex, t, id).claims[k] == t.claims[k].(status := Scan(lex, t, id).claims[k].status)
      {
        ScanFromEffect(lex, t, c, Rivals(lex, t, c), k);
      }
    }
  }

  /** What a scan does to a claim that is not live: nothing, unless it is the one scanned and a pair with it is new. */
  lemma ScanOfDormant(lex: Lexicon, t: Tables, id: string, k: nat)
    requires Keyed(t.claims) && k < |t.claims| && !Live(t.claims[k].status)
    ensures |Scan(lex, t, id).claims| == |t.claims|
    ensures Scan(lex, t, id).claims[k]
            == if t.claims[k].id == id && !AllOnRecord(lex, t, t.claims[k]) then t.claims[k].(status := Disputed)
              else t.claims[k]
  {
    hide Detect, OnRecord, ScanFrom, Newly, AllOnRecord;
    if Lookup(t.claims, id).Some? {
      var c := Lookup(t.claims, id).value;
      ScanFromEffect(lex, t, c, Rivals(lex, t, c), k);
      if t.claims[k].id == id {
        SameRow(t.claims, k, c);
        NewlySelf(lex, t, c);
      } else if Newly(lex, t, c, Rivals(lex, t, c), t.claims[k].id) {
        NewlyIsRival(lex, t, c, k);
      }
    }
  }

  /**
   * So a scan may revive: it disputes a rejected, archived, superseded or stale claim that conflicts
   * with a live one.
   */
  lemma ScanRevives(lex: Lexicon, t: Tables, c: Claim, other: Claim)
    requires t.claims == [c, other] && t.contradictions == [] && Conflict(lex, c, other)
    requires !Live(c.status) && Live(other.status)
    ensures |Scan(lex, t, c.id).claims| == 2 && Scan(lex, t, c.id).claims[0].status == Disputed
  {
    OneRival(lex, t, c, other);
    assert ScanFrom(lex, Record(t, c.id, other.id), c, [other][1..]) == Record(t, c.id, other.id);
  }

  lemma OneRival(lex: Lexicon, t: Tables, c: Claim, other: Claim)
    requires t.claims == [c, other] && Rival(lex, c, other)
    ensures Rivals(lex, t, c) == [other]
  {
    assert t.claims[1..] == [other] && [other][1..] == [];
    var keep := (other: Claim) => Rival(lex, c, other);
    assert !keep(c) && keep(other);
    assert Filter([other], keep) == [other] + Filter([other][1..], keep);
    assert Filter(t.claims, keep) == Filter(t.claims[1..], keep);
  }

  // ---------------------------------------------------------------- the scan as it runs

  /**
   * `record`: afterwards the pair is on record, once whatever its direction, and a pair
   * that was not there before leaves exactly its two claims disputed.
   */
  method RecordContradiction(con: Connection, a: string, b: string, autocommit: bool) returns (ok: bool)
    modifies con`executed, con`tables, con`durable
    ensures con.executed >= old(con.executed) && (ok <==> !Faulty(con.raises, old(con.executed), con.executed))
    ensures ok ==> con.tables == Record(old(con.tables), a, b) && PairAdded(old(con.tables), con.tables, a, b)
    ensures !autocommit ==> con.durable == old(con.durable)
    ensures ok && autocommit && old(con.durable == con.Seen()) ==> con.durable == con.Seen()
  {
    RecordEffect(con.tables, a, b);
    hide PairAdded;
    ok := con.Execute();
    if !ok || OnRecord(con.tables.contradictions, a, b) {
      return;
    }
    ok := con.Execute();
    if !ok {
      return;
    }
    con.tables := con.tables.(contradictions := con.tables.contradictions + [ContradictionRow(a, b, false)]);
    ok := con.Execute();
    if !ok {
      return;
    }
    con.tables := con.tables.(claims := Mapped(con.tables.claims, DisputedBy(a, b)));
    if autocommit {
      ok := con.Commit();
    }
  }

  /** What is left of a scan after one more rival. */
  lemma ScanStep(lex: Lexicon, t: Tables, c: Claim, rivals: seq<Claim>, k: nat, out: seq<string>)
    requires k < |rivals|
    ensures var found := Detect(lex, c, rivals[k]).Some?;
            && ScanFrom(lex, t, c, rivals[k..])
                 == ScanFrom(lex, if found then Record(t, c.id, rivals[k].id) else t, c, rivals[k + 1..])
            && out + DetectedAmong(lex, c, rivals[k..])
               == out + (if found then [rivals[k].id] else []) + DetectedAmong(lex, c, rivals[k + 1..])
  {
    hide Detect, Record;
    assert rivals[k..][1..] == rivals[k + 1..];
  }

  lemma ScanOver(lex: Lexicon, t: Tables, c: Claim, out: seq<string>)
    ensures ScanFrom(lex, t, c, []) == t && out + DetectedAmong(lex, c, []) == out && [] + out == out
  {
  }

  /** One turn of the loop over the rivals. */
  method ScanRival(lex: Lexicon, con: Connection, c: Claim, other: Claim, autocommit: bool)
    returns (ok: bool, found: bool)
    modifies con`executed, con`tables, con`durable
    ensures con.executed >= old(con.executed) && (ok <==> !Faulty(con.raises, old(con.executed), con.executed))
    ensures found <==> Detect(lex, c, other).Some?
    ensures ok ==> con.tables == if found then Record(old(con.tables), c.id, other.id) else old(con.tables)
    ensures !autocommit ==> con.durable == old(con.durable)
    ensures ok && autocommit && old(con.durable == con.Seen()) ==> con.durable == con.Seen()
  {
    hide Detect, Record, PairAdded;
    ok, found := true, Detect(lex, c, other).Some?;
    if found {
      ok := RecordContradiction(con, c.id, other.id, autocommit);
    }
  }

  /** `scan_new_claim`; without `autocommit` it commits nothing, wherever it stops. */
  method ScanNewClaim(lex: Lexicon, con: Connection, id: string, autocommit: bool) returns (ok: bool, out: seq<string>)
    modifies con`executed, con`tables, con`durable
    ensures con.executed >= old(con.executed) && (ok <==> !Faulty(con.raises, old(con.executed), con.executed))
    ensures ok ==> con.tables == Scan(lex, old(con.tables), id) && out == Detected(lex, old(con.tables), id)
    ensures !autocommit ==> con.durable == old(con.durable)
    ensures ok && autocommit && old(con.durable == con.Seen()) ==> con.durable == con.Seen()
  {
    hide Record, Detect, Rivals, Lookup;
    ghost var was := con.tables;
    out := [];
    ok := con.Execute();
    if !ok {
      return;
    }
    var claim := Lookup(con.tables.claims, id);
    if claim.None? {
      return;
    }
    ok := con.Execute();
    if !ok {
      return;
    }
    var rivals := Rivals(lex, con.tables, claim.value);
    hide ScanFrom, DetectedAmong;
    var k := 0;
    assert rivals[0..] == rivals;
    ScanOver(lex, was, claim.value, DetectedAmong(lex, claim.value, rivals));
    while k < |rivals|
      invariant 0 <= k <= |rivals| && con.executed >= old(con.executed)
                  && !Faulty(con.raises, old(con.executed), con.executed)
      invariant ScanFrom(lex, was, claim.value, rivals) == ScanFrom(lex, con.tables, claim.value, rivals[k..])
      invariant DetectedAmong(lex, claim.value, rivals) == out + DetectedAmong(lex, claim.value, rivals[k..])
      invariant !autocommit ==> con.durable == old(con.durable)
      invariant autocommit && old(con.durable == con.Seen()) ==> con.durable == con.Seen()
    {
      ScanStep(lex, con.tables, claim.value, rivals, k, out);
      var found;
      ok, found := ScanRival(lex, con, claim.value, rivals[k], autocommit);
      if !ok {
        return;
      }
      out := out + if found then [rivals[k].id] else [];
      k := k + 1;
    }
    ScanOver(lex, con.tables, claim.value, out);
  }

  // ---------------------------------------------------------------- one scan on any store

  lemma RecordKeepsRecord(t: Tables, a: string, b: string, x: string, y: string)
    ensures OnRecord(Record(t, a, b).contradictions, a, b)
    ensures OnRecord(t.contradictions, x, y) ==> OnRecord(Record(t, a, b).contradictions, x, y)
  {
    var n := Record(t, a, b);
    if !OnRecord(t.contradictions, a, b) {
      assert n.contradictions[|t.contradictions|] == ContradictionRow(a, b, false);
    }
    if OnRecord(t.contradictions, x, y) {
      var rows := t.contradictions;
      var k :| 0 <= k < |rows| && ((rows[k].a == x && rows[k].b == y) || (rows[k].a == y && rows[k].b == x));
      assert n.contradictions[k] == rows[k];
    }
  }

  lemma {:induction false} ScanFromCovers(lex: Lexicon, t: Tables, c: Claim, rivals: seq<Claim>, x: string)
    ensures OnRecord(t.contradictions, c.id, x) ==> OnRecord(ScanFrom(lex, t, c, rivals).contradictions, c.id, x)
    ensures (exists k :: 0 <= k < |rivals| && rivals[k].id == x && Detect(lex, c, rivals[k]).Some?) ==>
              OnRecord(ScanFrom(lex, t, c, rivals).contradictions, c.id, x)
    decreases |rivals|
  {
    hide Detect, Record, OnRecord;
    if rivals != [] {
      var n := if Detect(lex, c, rivals[0]).Some? then Record(t, c.id, rivals[0].id) else t;
      RecordKeepsRecord(t, c.id, rivals[0].id, c.id, x);
      ScanFromCovers(lex, n, c, rivals[1..], x);
      if k :| 0 < k < |rivals| && rivals[k].id == x && Detect(lex, c, rivals[k]).Some? {
        assert rivals[1..][k - 1] == rivals[k];
      }
    }
  }

  /** After a scan, on any store, every rival the claim conflicts with is on record against it. */
  lemma ScanCovers(lex: Lexicon, t: Tables, c: Claim, other: Claim)
    requires Lookup(t.claims, c.id) == Some(c) && other in t.claims && Rival(lex, c, other)
               && Detect(lex, c, other).Some?
    ensures OnRecord(Scan(lex, t, c.id).contradictions, c.id, other.id)
  {
    hide Detect, OnRecord, ScanFrom, Rival;
    var rivals := Rivals(lex, t, c);
    assert other in rivals;
    var k :| 0 <= k < |rivals| && rivals[k] == other;
    ScanFromCovers(lex, t, c, rivals, other.id);
  }
}
