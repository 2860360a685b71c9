/** `ReviewQueue`: reviewers' decisions on claims and on evidence. */
module Review {
  import opened Options
  import opened Store

  datatype Act = Acted(before: Status, after: Status, confidence: real) | UnsupportedAction | ClaimNotFound

  datatype EvidenceAct =
    | EvidenceActed(before: ReviewStatus, after: ReviewStatus)
    | UnsupportedEvidenceAction
    | EvidenceNotFound

  function StatusFor(action: string): Option<Status> {
    match action
    case "accept" => Some(Active)
    case "verify" => Some(Active)
    case "reject" => Some(Rejected)
    case "archive" => Some(Archived)
    case "dispute" => Some(Disputed)
    case "supersede" => Some(Superseded)
    case "restore" => Some(Active)
    case _ => None
  }

  function ConfidenceAfter(action: string, confidence: real): real {
    if action == "verify" then if confidence + 0.18 < 1.0 then confidence + 0.18 else 1.0
    else if action == "reject" then if confidence < 0.2 then confidence else 0.2
    else confidence
  }

  function Reviewed(id: string, after: Status, confidence: real): Claim -> Claim {
    (c: Claim) => if c.id == id then c.(status := after, confidence := confidence) else c
  }

  /** `act`. */
  function ActOn(t: Tables, id: string, action: string): (Tables, Act) {
    if StatusFor(action).None? then (t, UnsupportedAction)
    else match Lookup(t.claims, id)
      case None => (t, ClaimNotFound)
      case Some(c) =>
        var after := StatusFor(action).value;
        var confidence := ConfidenceAfter(action, c.confidence);
        (t.(claims := Mapped(t.claims, Reviewed(id, after, confidence))), Acted(c.status, after, confidence))
  }

  const ACTIONS := {"accept", "reject", "verify", "archive", "dispute", "supersede", "restore"}

  /** What an action makes of the claim it is about. */
  predicate OneReviewed(c: Claim, d: Claim, action: string, r: Act)
    requires r.Acted?
  {
    && r.before == c.status && d == c.(status := r.after, confidence := r.confidence)
    && (r.after == Active <==> action in {"accept", "verify", "restore"})
    && (r.after == Rejected <==> action == "reject")
    && (r.after == Archived <==> action == "archive")
    && (r.after == Disputed <==> action == "dispute")
    && (r.after == Superseded <==> action == "supersede")
    && (action == "verify" && c.confidence <= 1.0 ==>
         c.confidence <= r.confidence <= 1.0 && r.confidence - c.confidence <= 0.18)
    && (action == "verify" ==> r.confidence == 1.0 || r.confidence == c.confidence + 0.18)
    && (action == "reject" ==> r.confidence <= 0.2 && r.confidence <= c.confidence)
    && (action != "verify" && action != "reject" ==> r.confidence == c.confidence)
  }

  /** A known action on a stored claim is carried out, on that claim alone; nothing else changes anything. */
  ghost predicate ReviewDone(t: Tables, n: Tables, id: string, action: string, r: Act) {
    && n == t.(claims := n.claims) && |n.claims| == |t.claims|
    && (r.Acted? <==> action in ACTIONS && HasClaim(t.claims, id))
    && (r.UnsupportedAction? <==> action !in ACTIONS)
    && forall k :: 0 <= k < |t.claims| ==>
         if r.Acted? && t.claims[k].id == id then OneReviewed(t.claims[k], n.claims[k], action, r)
           else n.claims[k] == t.claims[k]
  }

  lemma OneReviewedIs(c: Claim, action: string)
    requires StatusFor(action).Some?
    ensures var after, confidence := StatusFor(action).value, ConfidenceAfter(action, c.confidence);
            OneReviewed(c, c.(status := after, confidence := confidence), action, Acted(c.status, after, confidence))
  {
  }

  lemma ReviewEffect(t: Tables, id: string, action: string)
    requires Keyed(t.claims)
    ensures ReviewDone(t, ActOn(t, id, action).0, id, action, ActOn(t, id, action).1)
  {
    hide OneReviewed, ConfidenceAfter;
    if StatusFor(action).Some? && Lookup(t.claims, id).Some? {
      var c := Lookup(t.claims, id).value;
      var j :| 0 <= j < |t.claims| && t.claims[j] == c;
      OneReviewedIs(c, action);
    }
  }

  /** `act`. */
  method ReviewClaim(db: Database, id: string, action: string) returns (r: Act)
    modifies db
    ensures (db.View(), r) == ActOn(old(db.View()), id, action)
    ensures old(Keyed(db.claims)) ==> ReviewDone(old(db.View()), db.View(), id, action, r)
  {
    if Keyed(db.claims) {
      ReviewEffect(db.View(), id, action);
    }
    hide ReviewDone, Keyed;
    var after := StatusFor(action);
    if after.None? {
      return UnsupportedAction;
    }
    var row := Lookup(db.claims, id);
    if row.None? {
      return ClaimNotFound;
    }
    var confidence := row.value.confidence;
    if action == "verify" {
      confidence := if confidence + 0.18 < 1.0 then confidence + 0.18 else 1.0;
    } else if action == "reject" {
      confidence := if confidence < 0.2 then confidence else 0.2;
    }
    db.claims := Mapped(db.claims, Reviewed(id, after.value, confidence));
    r := Acted(row.value.status, after.value, confidence);
  }

  function EvidenceStatusFor(action: string): Option<ReviewStatus> {
    match action
    case "approve" => Some(EvidenceActive)
    case "reject" => Some(EvidenceRejected)
    case _ => None
  }

  function LookupEvidence(rows: seq<Evidence>, id: string): (r: Option<Evidence>)
    ensures r.Some? ==> r.value in rows && r.value.id == id
    ensures r.None? ==> forall e :: e in rows ==> e.id != id
  {
    if rows == [] then None
    else if rows[0].id == id then Some(rows[0])
    else LookupEvidence(rows[1..], id)
  }

  function EvidenceReviewed(id: string, after: ReviewStatus): Evidence -> Evidence {
    (e: Evidence) => if e.id == id then e.(reviewStatus := after) else e
  }

  /** `review_evidence`. */
  function ReviewOf(t: Tables, id: string, action: string): (Tables, EvidenceAct) {
    if EvidenceStatusFor(action).None? then (t, UnsupportedEvidenceAction)
    else match LookupEvidence(t.evidence, id)
      case None => (t, EvidenceNotFound)
      case Some(e) =>
        var after := EvidenceStatusFor(action).value;
        (t.(evidence := Mapped(t.evidence, EvidenceReviewed(id, after))), EvidenceActed(e.reviewStatus, after))
  }

  ghost predicate EvidenceKeyed(rows: seq<Evidence>) {
    forall j, k :: 0 <= j < k < |rows| ==> rows[j].id != rows[k].id
  }

  /**
   * Approving or rejecting stored evidence changes that evidence's review status alone,
   * to active or to rejected, whatever it was, redacted too; nothing else changes anything.
   */
  ghost predicate EvidenceDone(t: Tables, n: Tables, id: string, action: string, r: EvidenceAct) {
    && n == t.(evidence := n.evidence) && |n.evidence| == |t.evidence|
    && (r.EvidenceActed? <==> action in {"approve", "reject"} && exists e :: e in t.evidence && e.id == id)
    && (r.UnsupportedEvidenceAction? <==> action !in {"approve", "reject"})
    && forall k :: 0 <= k < |t.evidence| ==>
         if r.EvidenceActed? && t.evidence[k].id == id then
           && r.before == t.evidence[k].reviewStatus && n.evidence[k] == t.evidence[k].(reviewStatus := r.after)
           && (r.after == EvidenceActive <==> action == "approve")
                && (r.after == EvidenceRejected <==> action == "reject")
         else n.evidence[k] == t.evidence[k]
  }

  lemma EvidenceReviewEffect(t: Tables, id: string, action: string)
    requires EvidenceKeyed(t.evidence)
    ensures EvidenceDone(t, ReviewOf(t, id, action).0, id, action, ReviewOf(t, id, action).1)
  {
    if e :| LookupEvidence(t.evidence, id) == Some(e) {
      var j :| 0 <= j < |t.evidence| && t.evidence[j] == e;
    }
  }

  /** `review_evidence`. */
  method ReviewEvidence(db: Database, id: string, action: string) returns (r: EvidenceAct)
    modifies db
    ensures (db.View(), r) == ReviewOf(old(db.View()), id, action)
    ensures old(EvidenceKeyed(db.evidence)) ==> EvidenceDone(old(db.View()), db.View(), id, action, r)
  {
    if EvidenceKeyed(db.evidence) {
      EvidenceReviewEffect(db.View(), id, action);
    }
    hide EvidenceDone, EvidenceKeyed;
    var after := EvidenceStatusFor(action);
    if after.None? {
      return UnsupportedEvidenceAction;
    }
    var row := LookupEvidence(db.evidence, id);
    if row.None? {
      return EvidenceNotFound;
    }
    db.evidence := Mapped(db.evidence, EvidenceReviewed(id, after.value));
    r := EvidenceActed(row.value.reviewStatus, after.value);
  }
}
