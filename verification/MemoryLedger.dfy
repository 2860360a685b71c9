/** The ledger object: a table of rows, `append` and `verify_chain`. */
module MemoryLedger {
  import opened Options
  import opened Timestamps
  import opened LedgerFraming
  import opened Ledger
  import opened LedgerAppend

  datatype Outcome = Appended(row: Row) | DuplicateId

  class MemoryLedger {
    const digest: Digest
    var rows: seq<Row>

    constructor (digest: Digest)
      ensures this.digest == digest && rows == [] && Sound(digest, rows)
    {
      this.digest := digest;
      rows := [];
    }

    /**
     * `append` on one connection. The row goes after the newest row of its
     * project; an id already in the table violates the primary key and leaves the
     * table alone. The chain survives unless its newest stamp is `datetime.max`.
     */
    method Append(e: Event, id: string, clock: DateTime) returns (outcome: Outcome)
      requires Valid(clock)
      modifies this
      ensures outcome.DuplicateId? <==> HasId(old(rows), id)
      ensures outcome.DuplicateId? ==> rows == old(rows)
      ensures outcome.Appended? ==>
                && outcome.row == Seal(digest, id, e, Newest(Own(old(rows), e.projectId)), clock)
                && rows == old(rows) + [outcome.row]
      ensures outcome.Appended? && old(Sound(digest, rows)) && Clean(id) ==>
                (Sound(digest, rows) <==> !Exhausted(Own(old(rows), e.projectId)))
    {
      var taken := IsTaken(rows, id);
      if taken {
        return DuplicateId;
      }
      var row := Seal(digest, id, e, Newest(Own(rows, e.projectId)), clock);
      if Sound(digest, rows) && Clean(id) {
        AppendSound(digest, rows, id, e, clock);
      }
      rows := rows + [row];
      outcome := Appended(row);
    }

    /** `verify_chain`: one project's rows when a project is given, else the whole table. */
    method VerifyChain(project: Option<string>) returns (ok: bool, count: nat, issues: seq<Issue>)
      ensures ok <==> issues == []
      ensures project.None? ==> count == |rows| && (ok <==> Chained(digest, rows, false))
      ensures project.Some? ==>
                count == |Own(rows, project.value)| && (ok <==> Chained(digest, Own(rows, project.value), true))
      ensures CollisionFree(digest) && Sound(digest, rows) ==> (ok <==> project.Some? || OneProject(rows))
    {
      var selected := match project case Some(p) => Own(rows, p) case None => rows;
      count := |selected|;
      ok, issues := CheckRows(digest, selected, project.Some?);
      if CollisionFree(digest) && Sound(digest, rows) {
        if project.Some? {
          assert WellChained(digest, Own(rows, project.value));
          ProjectAccepted(digest, rows, project.value);
        } else {
          UnscopedNeedsOneProject(digest, rows);
        }
      }
    }
  }

  method IsTaken(rows: seq<Row>, id: string) returns (taken: bool)
    ensures taken <==> HasId(rows, id)
  {
    taken := false;
    for i := 0 to |rows|
      invariant taken <==> HasId(rows[..i], id)
    {
      HasIdStep(rows, i, id);
      taken := taken || rows[i].id == id;
    }
    assert rows[..|rows|] == rows;
  }

  lemma HasIdStep(rows: seq<Row>, i: nat, id: string)
    requires i < |rows|
    ensures HasId(rows[..i + 1], id) <==> HasId(rows[..i], id) || rows[i].id == id
  {
    var now := rows[..i + 1];
    if HasId(rows[..i], id) {
      var k :| 0 <= k < i && rows[..i][k].id == id;
      assert now[k].id == id;
    }
    if rows[i].id == id {
      assert now[i].id == id;
    }
    if HasId(now, id) && rows[i].id != id {
      var k :| 0 <= k < |now| && now[k].id == id;
      assert rows[..i][k].id == id;
    }
  }
}
