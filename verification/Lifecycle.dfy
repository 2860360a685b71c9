/** `MemoryLifecycleManager`: salience decay and touching. */
module Lifecycle {
  import opened Options
  import opened Store
  import opened WriteGovernor

  /** The rows decay looks at. */
  predicate Decays(c: Claim, project: string) {
    c.projectId == project && (c.status == Active || c.status == PendingReview)
  }

  /** A decayed row: less salient, and stale when it is old and no longer salient. `age` is in days. */
  function Decayed(policy: Policy, age: string -> int, c: Claim): Claim {
    var salience := Clamp(c.salience - policy.decayPerRun);
    var stale := (if age(c.createdAt) > 0 then age(c.createdAt) else 0) >= policy.staleAfterDays
      && salience <= policy.minimumSalience;
    c.(salience := salience, status := if stale then Stale else c.status)
  }

  function DecayStep(policy: Policy, age: string -> int, project: string): Claim -> Claim {
    (c: Claim) => if Decays(c, project) then Decayed(policy, age, c) else c
  }

  function DecayRows(t: Tables, project: string): seq<Claim> {
    Filter(t.claims, (c: Claim) => Decays(c, project))
  }

  /** `run_decay`. */
  function RunDecay(policy: Policy, age: string -> int, t: Tables, project: string): Tables {
    t.(claims := Mapped(t.claims, DecayStep(policy, age, project)))
  }

  function Changes(policy: Policy, age: string -> int): Claim -> bool {
    (c: Claim) => Decayed(policy, age, c) != c
  }

  function Stales(policy: Policy, age: string -> int): Claim -> bool {
    (c: Claim) => Decayed(policy, age, c).status == Stale
  }

  function SetDecay(row: Claim): Claim -> Claim {
    (c: Claim) => if c.id == row.id then c.(salience := row.salience, status := row.status) else c
  }

  /** The claims once the rows `done` have been updated. */
  ghost predicate DecayedSoFar(policy: Policy, age: string -> int, was: seq<Claim>, done: seq<Claim>, now: seq<Claim>) {
    && |now| == |was|
    && forall k :: 0 <= k < |was| ==> now[k] == if was[k] in done then Decayed(policy, age, was[k]) else was[k]
  }

  ghost predicate Within(rows: seq<Claim>, claims: seq<Claim>) {
    forall k :: 0 <= k < |rows| ==> rows[k] in claims
  }

  /** One row's turn: its `UPDATE` is sent only when something changes. */
  method DecayRow(policy: Policy, age: string -> int, db: Database, row: Claim) returns (changed: bool, stale: bool)
    modifies db`claims
    ensures changed == Changes(policy, age)(row) && stale == Stales(policy, age)(row)
    ensures db.claims == if changed then Mapped(old(db.claims), SetDecay(Decayed(policy, age, row))) else old(db.claims)
  {
    var now := Decayed(policy, age, row);
    changed, stale := now != row, now.status == Stale;
    if changed {
      db.claims := Mapped(db.claims, SetDecay(now));
    }
  }

  /**
   * Decay only wears: with a step that is not negative it lowers salience by the step or to
   * zero, only of the project's active and pending claims, and the only status it gives is
   * stale, to a claim that is old enough and no longer salient.
   */
  ghost predicate Worn(policy: Policy, age: string -> int, project: string, t: Tables, n: Tables) {
    && n == t.(claims := n.claims) && |n.claims| == |t.claims|
    && forall k :: 0 <= k < |t.claims| && 0.0 <= t.claims[k].salience <= 1.0 ==>
         var a, b := t.claims[k], n.claims[k];
         && (!Decays(a, project) ==> b == a) && b == a.(salience := b.salience, status := b.status)
         && 0.0 <= b.salience <= a.salience
         && (Decays(a, project) ==> b.salience == 0.0 || b.salience == a.salience - policy.decayPerRun)
         && (b.status != a.status ==>
               && b.status == Stale && b.salience <= policy.minimumSalience
               && (age(a.createdAt) >= policy.staleAfterDays || policy.staleAfterDays <= 0))
  }

  lemma DecayOnlyWears(policy: Policy, age: string -> int, t: Tables, project: string)
    requires policy.decayPerRun >= 0.0
    ensures Worn(policy, age, project, t, RunDecay(policy, age, t, project))
  {
  }

  /** `run_decay`: one update after another, which is decaying every row at once. */
  method DecayClaims(policy: Policy, age: string -> int, db: Database, project: string)
    returns (changed: nat, stale: nat)
    requires Keyed(db.claims)
    modifies db
    ensures db.View() == RunDecay(policy, age, old(db.View()), project)
    ensures changed == Tally(DecayRows(old(db.View()), project), Changes(policy, age))
    ensures stale == Tally(DecayRows(old(db.View()), project), Stales(policy, age))
    ensures policy.decayPerRun >= 0.0 ==> Worn(policy, age, project, old(db.View()), db.View())
  {
    hide Worn, Decayed, Tally, RunDecay, Mapped, SetDecay, Changes, Stales, DecayedSoFar, DecayRows, Filter, Within,
      Keyed;
    ghost var was := db.View();
    var rows := DecayRows(db.View(), project);
    changed, stale := 0, 0;
    DecayStart(policy, age, was, project);
    for k := 0 to |rows|
      invariant db.View() == was.(claims := db.claims)
      invariant DecayedSoFar(policy, age, was.claims, rows[..k], db.claims)
      invariant changed == Tally(rows[..k], Changes(policy, age)) && stale == Tally(rows[..k], Stales(policy, age))
    {
      TallyNext(rows, k, Changes(policy, age));
      TallyNext(rows, k, Stales(policy, age));
      DecayNext(policy, age, was.claims, rows, k, db.claims);
      var updated, aged := DecayRow(policy, age, db, rows[k]);
      changed, stale := changed + (if updated then 1 else 0), stale + (if aged then 1 else 0);
    }
    assert rows[..|rows|] == rows;
    DecayDone(policy, age, was, project, db.claims);
    if policy.decayPerRun >= 0.0 {
      DecayOnlyWears(policy, age, was, project);
    }
  }

  lemma DecayStart(policy: Policy, age: string -> int, was: Tables, project: string)
    ensures var rows := DecayRows(was, project);
            && DecayedSoFar(policy, age, was.claims, rows[..0], was.claims) && Within(rows, was.claims)
            && Tally(rows[..0], Changes(policy, age)) == 0 && Tally(rows[..0], Stales(policy, age)) == 0
  {
    var rows := DecayRows(was, project);
    assert rows[..0] == [];
    forall k | 0 <= k < |rows| ensures rows[k] in was.claims {
      assert rows[k] in rows;
    }
  }

  lemma TallyNext<T(!new)>(rows: seq<T>, k: nat, p: T -> bool)
    requires k < |rows|
    ensures Tally(rows[..k + 1], p) == Tally(rows[..k], p) + if p(rows[k]) then 1 else 0
  {
    assert rows[..k + 1][..k] == rows[..k];
  }

  lemma DecayNext(policy: Policy, age: string -> int, was: seq<Claim>, rows: seq<Claim>, k: nat, now: seq<Claim>)
    requires Keyed(was) && k < |rows| && Within(rows, was)
    requires DecayedSoFar(policy, age, was, rows[..k], now)
    ensures DecayedSoFar(policy, age, was, rows[..k + 1], Mapped(now, SetDecay(Decayed(policy, age, rows[k]))))
    ensures !Changes(policy, age)(rows[k]) ==> DecayedSoFar(policy, age, was, rows[..k + 1], now)
  {
    var d := Decayed(policy, age, rows[k]);
    assert d == rows[k].(salience := d.salience, status := d.status);
    hide Decayed;
    assert rows[..k + 1] == rows[..k] + [rows[k]];
    assert rows[k] in was;
  }

  lemma DecayDone(policy: Policy, age: string -> int, was: Tables, project: string, now: seq<Claim>)
    requires DecayedSoFar(policy, age, was.claims, DecayRows(was, project), now)
    ensures was.(claims := now) == RunDecay(policy, age, was, project)
  {
    hide Decayed;
  }

  function Touched(id: string, boost: real): Claim -> Claim {
    (c: Claim) => if c.id == id then c.(salience := AtMostOne(c.salience + boost)) else c
  }

  /** `touch_claim`. */
  function Touch(t: Tables, id: string, boost: real): Tables {
    t.(claims := Mapped(t.claims, Touched(id, boost)))
  }

  /**
   * A touch changes one claim's salience alone: it rises by the boost, to one at most, and
   * stays in range exactly when the boost does not take it below zero.
   */
  ghost predicate TouchedOnly(t: Tables, n: Tables, id: string, boost: real) {
    && n == t.(claims := n.claims) && |n.claims| == |t.claims|
    && forall k :: 0 <= k < |t.claims| ==>
         var c, d := t.claims[k], n.claims[k];
         && d == c.(salience := d.salience) && (c.id != id ==> d == c)
         && (c.id == id ==> d.salience <= 1.0 && (d.salience == 1.0 || d.salience == c.salience + boost))
         && (boost >= 0.0 && c.salience <= 1.0 ==> d.salience >= c.salience)
         && (0.0 <= c.salience <= 1.0 ==> (0.0 <= d.salience <= 1.0 <==> c.id != id || c.salience + boost >= 0.0))
  }

  lemma TouchKeepsRange(t: Tables, id: string, boost: real)
    ensures TouchedOnly(t, Touch(t, id, boost), id, boost)
  {
  }

  /** `touch_claim`. */
  method TouchClaim(db: Database, id: string, boost: real)
    modifies db
    ensures db.View() == Touch(old(db.View()), id, boost)
    ensures TouchedOnly(old(db.View()), db.View(), id, boost)
  {
    TouchKeepsRange(db.View(), id, boost);
    hide TouchedOnly;
    db.claims := Mapped(db.claims, Touched(id, boost));
  }

  /** One claim through `n` runs of decay. */
  function DecayedTimes(policy: Policy, age: string -> int, c: Claim, n: nat): Claim {
    if n == 0 then c else DecayStep(policy, age, c.projectId)(DecayedTimes(policy, age, c, n - 1))
  }

  /** After `n` runs of the default policy an old claim is stale, or has lost 0.03 for every run. */
  lemma {:induction false} DecaySteadily(age: string -> int, c: Claim, n: nat)
    requires (c.status == Active || c.status == PendingReview) && c.salience <= 1.0 && age(c.createdAt) >= 180
    ensures var d := DecayedTimes(DEFAULT_POLICY, age, c, n);
            && d.projectId == c.projectId && d.createdAt == c.createdAt
            && (d.status == Stale || (d.status == c.status && d.salience <= Clamp(1.0 - 0.03 * n as real)))
  {
    if n > 0 {
      DecaySteadily(age, c, n - 1);
    }
  }

  /**
   * Thirty runs of the default policy make every untouched claim of at least 180 days stale, however
   * salient it was.
   */
  lemma StaleWithinThirtyRuns(age: string -> int, c: Claim)
    requires (c.status == Active || c.status == PendingReview) && c.salience <= 1.0 && age(c.createdAt) >= 180
    ensures DecayedTimes(DEFAULT_POLICY, age, c, 30).status == Stale
  {
    DecaySteadily(age, c, 29);
    var d := DecayedTimes(DEFAULT_POLICY, age, c, 29);
    assert d.status != Stale ==> Clamp(d.salience - 0.03) <= 0.12;
  }
}
