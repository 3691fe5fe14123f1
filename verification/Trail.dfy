// What the journal records of the runs and grants, in every reachable state.
module Trail {
  import opened Wrappers
  import opened Json
  import opened ControlPlane
  import opened Journals
  import opened Reachable

  /** The fields of a row's body. */
  function BodyText(e: JournalRow, name: string): Option<string> {
    if e.body.Obj? then TextField(e.body.members, name) else None
  }

  /** The row lies in a run, under the run's tenant and case. */
  predicate Placed(t: Tables, e: JournalRow) {
    e.runId in t.runs && e.tenantId == t.runs[e.runId].tenantId && e.caseId == t.runs[e.runId].caseId
  }

  /** A first row repeats the request. */
  predicate Requested(t: Tables, e: JournalRow)
    requires e.runId in t.runs
  {
    var r := t.runs[e.runId];
    && BodyText(e, "purpose") == Some(r.purpose) && BodyText(e, "audience") == Some(r.audience)
    && BodyText(e, "requester_subject") == Some(r.requester) && BodyText(e, "policy_version") == Some(r.policyVersion)
    && "risk_tier" in e.body.members && e.body.members["risk_tier"] == Num(r.riskTier)
  }

  /** A row that names this grant, its parent and its hash. */
  predicate Names(e: JournalRow, id: string, row: GrantRow) {
    && e.runId == row.runId && BodyText(e, "event_type") == Some("capability.delegated")
    && BodyText(e, "grant_id") == Some(id) && BodyText(e, "grant_hash") == Some(row.grantHash)
    && row.parent.Some? && BodyText(e, "parent_grant_id") == row.parent
  }

  ghost predicate NamesStored(t: Tables, e: JournalRow) { exists id :: id in t.grants && Names(e, id, t.grants[id]) }

  ghost predicate Journaled(t: Tables, id: string)
    requires id in t.grants
  {
    exists e :: e in t.journal && Names(e, id, t.grants[id])
  }

  /** First rows repeat their run's request, later ones name a stored grant, and every delegated grant is named. */
  ghost predicate Told(t: Tables) {
    && (forall e :: e in t.journal ==> Placed(t, e) && if e.sequence == 0 then Requested(t, e) else NamesStored(t, e))
    && (forall id :: id in t.grants && t.grants[id].parent.Some? ==> Journaled(t, id))
  }

  /** Two states where the runs and grants of the first are still there and the journal is the same. */
  lemma ToldStays(t: Tables, u: Tables)
    requires Told(t) && u.journal == t.journal
    requires forall id :: id in t.runs ==> id in u.runs && u.runs[id] == t.runs[id]
    requires forall id :: id in t.grants ==> id in u.grants && u.grants[id] == t.grants[id]
    requires forall id :: id in u.grants && id !in t.grants ==> u.grants[id].parent.None?
    ensures Told(u)
  {
    forall e | e in u.journal && e.sequence != 0 ensures NamesStored(u, e) {
      var id :| id in t.grants && Names(e, id, t.grants[id]);
      assert id in u.grants && Names(e, id, u.grants[id]);
    }
    forall id | id in u.grants && u.grants[id].parent.Some? ensures Journaled(u, id) {
      assert Journaled(t, id);
      var e :| e in t.journal && Names(e, id, t.grants[id]);
      assert e in u.journal && Names(e, id, u.grants[id]);
    }
  }

  lemma JournalGrows(t: Tables, u: Tables, e: JournalRow)
    requires Told(t) && u.journal == t.journal + [e] && u.grants == t.grants
    requires forall id :: id in t.runs ==> id in u.runs && u.runs[id] == t.runs[id]
    requires Placed(u, e) && e.sequence == 0 && Requested(u, e)
    ensures Told(u)
  {
    forall x | x in u.journal && x.sequence != 0 ensures NamesStored(u, x) {
      assert NamesStored(t, x);
    }
    forall id | id in u.grants && u.grants[id].parent.Some? ensures Journaled(u, id) {
      assert Journaled(t, id);
      var x :| x in t.journal && Names(x, id, t.grants[id]);
      assert x in u.journal;
    }
  }

  lemma GrantTold(t: Tables, u: Tables, e: JournalRow, id: string, row: GrantRow)
    requires Told(t) && u.journal == t.journal + [e] && u.runs == t.runs
    requires id !in t.grants && u.grants == t.grants[id := row]
    requires Placed(u, e) && e.sequence != 0 && Names(e, id, row)
    ensures Told(u)
  {
    assert u.journal[|t.journal|] == e;
    forall x | x in u.journal && x.sequence != 0 ensures NamesStored(u, x) {
      if x == e {
        assert id in u.grants && Names(e, id, u.grants[id]);
      } else {
        assert NamesStored(t, x);
        var i :| i in t.grants && Names(x, i, t.grants[i]);
        assert i in u.grants && Names(x, i, u.grants[i]);
      }
    }
    forall i | i in u.grants && u.grants[i].parent.Some? ensures Journaled(u, i) {
      if i == id {
        assert e in u.journal && Names(e, id, u.grants[id]);
      } else {
        assert Journaled(t, i);
        var x :| x in t.journal && Names(x, i, t.grants[i]);
        assert x in u.journal && Names(x, i, u.grants[i]);
      }
    }
  }

  lemma RequestTold(p: Platform, t: Tables, c: RunCall)
    requires Told(t)
    ensures Told(RequestRun(p, t, c).1)
  {
    RunWrites(p, t, c);
    var u := RequestRun(p, t, c).1;
    if u != t {
      var runId := RunId(p, c.request, c.key);
      var e := RunEvent(p, c.request, runId, c.eventId);
      FirstRowRepeats(p, c.request, runId, c.eventId, u);
      JournalGrows(t, u, e);
    }
  }

  lemma FirstRowRepeats(p: Platform, r: RunRequest, runId: string, eventId: string, u: Tables)
    requires runId in u.runs && u.runs[runId] == r
    ensures var e := RunEvent(p, r, runId, eventId); e.sequence == 0 && Placed(u, e) && Requested(u, e)
  {
  }

  lemma DelegationRowNames(p: Platform, t: Tables, g: GrantRecord, eventId: string, now: int)
    requires JournalInv(p, t) && g.runId in t.runs
    ensures var e := DelegationEvent(p, t, g, t.runs[g.runId], eventId);
            e.sequence != 0 && Placed(t, e) && Names(e, g.grantId, StoredGrant(g, now))
  {
    DelegationEventLinked(p, t, g, t.runs[g.runId], eventId);
  }

  lemma DelegateTold(p: Platform, t: Tables, c: DelegationCall, now: int)
    requires Told(t) && JournalInv(p, t)
    ensures Told(Delegate(p, t, c, now).1)
  {
    var g := DelegationRecord(p, c);
    DelegationWrites(p, t, g, c.eventId, c.outboxId, now);
    var u := Delegate(p, t, c, now).1;
    if u != t {
      DelegationRowNames(p, t, g, c.eventId, now);
      GrantTold(t, u, DelegationEvent(p, t, g, t.runs[g.runId], c.eventId), g.grantId, StoredGrant(g, now));
    }
  }

  lemma StepTold(p: Platform, t: Tables, op: Op)
    requires Told(t) && JournalInv(p, t)
    ensures Told(Step(p, t, op))
  {
    match op
    case Request(c) => RequestTold(p, t, c);
    case Root(id, runId, g, now) => ToldStays(t, Step(p, t, op));
    case Delegation(c, now) => DelegateTold(p, t, c, now);
    case Append(records) =>
      AppendLeaves(p, t, records);
      ToldStays(t, Step(p, t, op));
    case Persist(receipt, reconciliation, first, second) =>
      PersistLeaves(p, t, receipt, reconciliation, first, second);
      ToldStays(t, Step(p, t, op));
  }

  /**
   * In every reachable state each journal row lies in its run's scope; a run's first row
   * repeats its request, and the others are the delegations of the stored grants.
   */
  lemma {:induction false} JournalTells(p: Platform, ops: seq<Op>)
    requires p.Faithful()
    ensures Told(Exec(p, EMPTY, ops))
  {
    if ops != [] {
      var front := ops[..|ops| - 1];
      JournalTells(p, front);
      var f, w := ReachableInv(p, front);
      StepTold(p, Exec(p, EMPTY, front), ops[|ops| - 1]);
    }
  }
}
