// Exactly when the calls of the store succeed, in every state it can reach, from the
// arguments and the stored rows alone.
module Outcomes {
  import opened Wrappers
  import opened Hashing
  import opened Json
  import opened ControlPlane
  import opened Journals
  import opened Activities
  import opened GrantForest
  import opened Delegation
  import opened Announcements
  import opened Reachable

  // ---------- runs ----------

  /** The key is known for this request, or new like the run, the event and the announcement. */
  predicate Requestable(p: Platform, t: Tables, c: RunCall) {
    var key := KeyOf(p, c);
    && 1 <= |c.key| <= 500
    && if key in t.idempotency then t.idempotency[key].requestHash == p.hash(RequestValue(c.request))
       else RunId(p, c.request, c.key) !in t.runs && c.outboxId !in t.outbox &&
            forall e :: e in t.journal ==> e.eventId != c.eventId
  }

  /** A run-creation call succeeds exactly if it can be recorded or is a replay; a failure changes nothing. */
  lemma RequestsExactly(p: Platform, t: Tables, f: Forest, w: Ledger, c: RunCall)
    requires Inv(p, t, f, w)
    ensures RequestRun(p, t, c).0.Success? <==> Requestable(p, t, c)
    ensures RequestRun(p, t, c).0.Failure? ==> RequestRun(p, t, c).1 == t
  {
    var runId := RunId(p, c.request, c.key);
    if runId !in t.runs { FirstEventAccepted(p, t, c.request, runId, c.eventId); }
    RunOutcome(p, t, c);
  }

  /** The first event of a new run is accepted if its id is new. */
  lemma FirstEventAccepted(p: Platform, t: Tables, r: RunRequest, runId: string, eventId: string)
    requires JournalInv(p, t) && runId !in t.runs
    ensures JournalAccepts(t.(runs := t.runs[runId := r]), RunEvent(p, r, runId, eventId)) <==>
            forall e :: e in t.journal ==> e.eventId != eventId
  {
    NoRowsYet(p, t, runId);
    RowsOfIn(t.journal, runId);
  }

  lemma RunOutcome(p: Platform, t: Tables, c: RunCall)
    requires forall k :: k in t.idempotency ==> t.idempotency[k].resultRef.Some?
    ensures var (r, u) := RequestRun(p, t, c);
            var key, runId := KeyOf(p, c), RunId(p, c.request, c.key);
            (r.Success? <==>
               BoundedKey(c.key) &&
               (if key in t.idempotency then t.idempotency[key].requestHash == p.hash(RequestValue(c.request))
                else runId !in t.runs && c.outboxId !in t.outbox &&
                     JournalAccepts(t.(runs := t.runs[runId := c.request]), RunEvent(p, c.request, runId, c.eventId)))) &&
            (r.Failure? ==> u == t)
  {
  }

  /** What the identifier of a run is made of. */
  function RunIdentity(r: RunRequest, key: string): Value {
    Obj(map["case_id" := Str(r.caseId), "idempotency_key" := Str(key),
            "requester_subject" := Str(r.requester), "tenant_id" := Str(r.tenantId)])
  }

  /** A run's identifier decides scope, requester and key, up to a clash of the shortened digests. */
  lemma RunIdBinds(p: Platform, r: RunRequest, key: string, r': RunRequest, key': string)
    requires RunId(p, r, key) == RunId(p, r', key')
    ensures (r.tenantId == r'.tenantId && r.caseId == r'.caseId && r.requester == r'.requester && key == key') ||
            Clash(p.short, RunIdentity(r, key), RunIdentity(r', key'))
  {
    var x, y := RunIdentity(r, key), RunIdentity(r', key');
    assert RunId(p, r, key)[4..] == p.short(x) && RunId(p, r', key')[4..] == p.short(y);
    if x == y {
      assert x.members["case_id"] == y.members["case_id"] && x.members["idempotency_key"] == y.members["idempotency_key"];
      assert x.members["tenant_id"] == y.members["tenant_id"] && x.members["requester_subject"] == y.members["requester_subject"];
    }
  }

  function KeyValue(key: string): Value { Obj(map["idempotency_key" := Str(key)]) }

  /** The row of a key is that of one requester of one tenant and of that key, up to a clash. */
  lemma RunKeyBinds(p: Platform, r: RunRequest, key: string, r': RunRequest, key': string)
    requires RunKey(p, r, key) == RunKey(p, r', key')
    ensures r.tenantId == r'.tenantId && r.requester == r'.requester
    ensures key == key' || Clash(p.hash, KeyValue(key), KeyValue(key'))
  {
    assert KeyValue(key).members["idempotency_key"] == Str(key) && KeyValue(key').members["idempotency_key"] == Str(key');
  }

  // ---------- delegation ----------

  /** A grant that the constructor accepts. */
  predicate WellMade(g: Grant) {
    && 1 <= |g.tenantId| <= 200 && 1 <= |g.caseId| <= 200
    && (exists c :: c in g.capabilities) && (forall c :: c in g.capabilities ==> c != "")
    && 0 <= g.maxToolCalls && 0 <= g.maxModelCalls && 0 <= g.delegationDepth
  }

  /** Everything the child may do, the stored parent may do now, one level further up. */
  predicate MayDelegate(up: Node, row: GrantRow, runId: string, child: Grant, now: int) {
    && up.runId == runId && row.revokedAt.None? && now < up.grant.validUntil
    && (forall c :: c in child.capabilities ==> c in up.grant.capabilities)
    && (forall e :: e in child.allowedEffects ==> e in up.grant.allowedEffects)
    && child.tenantId == up.grant.tenantId && child.caseId == up.grant.caseId
    && child.maxToolCalls <= up.grant.maxToolCalls
    && child.maxModelCalls <= up.grant.maxModelCalls
    && child.validUntil <= up.grant.validUntil
    && child.delegationDepth + 1 <= up.grant.delegationDepth
  }

  /** The grant is stored already, or the event and the announcement can be. */
  predicate Recordable(t: Tables, id: string, parent: string, hash: string, eventId: string, outboxId: string) {
    if id in t.grants then t.grants[id].parent == Some(parent) && t.grants[id].grantHash == hash
    else outboxId !in t.outbox && forall e :: e in t.journal ==> e.eventId != eventId
  }

  /** The run exists, in the child's tenant and case. */
  predicate InRunOf(t: Tables, runId: string, child: Grant) {
    runId in t.runs && t.runs[runId].tenantId == child.tenantId && t.runs[runId].caseId == child.caseId
  }

  predicate Delegable(p: Platform, t: Tables, f: Forest, c: DelegationCall, now: int)
    requires f.Keys == t.grants.Keys
  {
    && c.runId != "" && c.parent != "" && 1 <= |c.key| <= 500
    && WellMade(c.child)
    && InRunOf(t, c.runId, c.child)
    && c.parent in f && MayDelegate(f[c.parent], t.grants[c.parent], c.runId, c.child, now)
    && Recordable(t, DelegationRecord(p, c).grantId, c.parent, p.hash(DocumentOf(p, c.child)), c.eventId, c.outboxId)
  }

  lemma WellMadeIsValid(g: Grant)
    ensures WellMade(g) <==> g.Valid()
  {
    if c :| c in g.capabilities { }
  }

  lemma MayIsPermitted(up: Node, row: GrantRow, runId: string, child: Grant, now: int)
    ensures MayDelegate(up, row, runId, child, now) <==>
            up.runId == runId && row.revokedAt.None? && now < up.grant.validUntil && up.grant.PermitsChild(child)
  {
  }

  /** The checks against a stored parent whose columns agree with its document. */
  lemma RefusalOf(p: Platform, t: Tables, g: GrantRecord, child: Grant, row: GrantRow, up: Grant, now: int)
    requires GrantOf(p, g.document) == Some(child) && g.parent in t.grants && t.grants[g.parent] == row
    requires GrantOf(p, row.document) == Some(up) && row.grantHash == p.hash(row.document)
    requires row.tenantId == up.tenantId && row.caseId == up.caseId && row.validUntil == up.validUntil
    ensures DelegationRefusal(p, t, g, now) == None <==>
            InRunOf(t, g.runId, child) && row.revokedAt.None? && now < up.validUntil &&
            row.runId == g.runId && up.PermitsChild(child)
  {
  }

  /** The checks against the forest, for a child that can be read. */
  lemma RefusalExactly(p: Platform, t: Tables, f: Forest, g: GrantRecord, child: Grant, now: int)
    requires Represents(p, t, f) && GrantOf(p, g.document) == Some(child)
    ensures DelegationRefusal(p, t, g, now) == None <==>
            InRunOf(t, g.runId, child) && g.parent in f && t.grants[g.parent].revokedAt.None? &&
            now < f[g.parent].grant.validUntil && f[g.parent].runId == g.runId && f[g.parent].grant.PermitsChild(child)
  {
    if g.parent in f {
      StoredParent(p, t, f, g.parent);
      RefusalOf(p, t, g, child, t.grants[g.parent], f[g.parent].grant, now);
    }
  }

  lemma StoredParent(p: Platform, t: Tables, f: Forest, id: string)
    requires Represents(p, t, f) && id in f
    ensures var row, up := t.grants[id], f[id].grant;
            GrantOf(p, row.document) == Some(up) && row.grantHash == p.hash(row.document) &&
            row.tenantId == up.tenantId && row.caseId == up.caseId && row.validUntil == up.validUntil &&
            row.runId == f[id].runId && row.parent == f[id].parent
  {
    assert SoundIn(p, t.runs)(t.grants[id], f[id].grant);
  }

  /** A delegation's event is the next of its run, and so is accepted if its id is new. */
  lemma EventAccepted(p: Platform, t: Tables, g: GrantRecord, eventId: string)
    requires JournalInv(p, t) && g.runId in t.runs
    ensures JournalAccepts(t, DelegationEvent(p, t, g, t.runs[g.runId], eventId)) <==>
            forall e :: e in t.journal ==> e.eventId != eventId
  {
    var e := DelegationEvent(p, t, g, t.runs[g.runId], eventId);
    DelegationEventLinked(p, t, g, t.runs[g.runId], eventId);
    var rows := RowsOf(t.journal, g.runId);
    RowsOfIn(t.journal, g.runId);
    forall r | r in t.journal && r.runId == g.runId
      ensures r.sequence != e.sequence
    {
      var i :| 0 <= i < |rows| && rows[i] == r;
      assert RowLinked(p, rows[i], i, PreviousOf(rows, i));
    }
  }

  lemma UnreadableRefused(p: Platform, t: Tables, g: GrantRecord, now: int)
    requires GrantOf(p, g.document) == None
    ensures DelegationRefusal(p, t, g, now) == Some(Malformed)
  {
  }

  lemma ChildReadable(p: Platform, child: Grant)
    requires p.Faithful()
    ensures GrantOf(p, DocumentOf(p, child)) == if WellMade(child) then Some(child) else None
  {
    WellMadeIsValid(child);
    if child.Valid() { GrantRoundTrip(p, child); } else { InvalidGrantUnreadable(p, child); }
  }

  /** The store's checks pass exactly for what may be delegated. */
  lemma PassesExactly(p: Platform, t: Tables, f: Forest, g: GrantRecord, child: Grant, now: int)
    requires p.Faithful() && Represents(p, t, f) && g.document == DocumentOf(p, child)
    ensures DelegationRefusal(p, t, g, now) == None <==>
            WellMade(child) && InRunOf(t, g.runId, child) &&
            g.parent in f && MayDelegate(f[g.parent], t.grants[g.parent], g.runId, child, now)
  {
    ChildReadable(p, child);
    if WellMade(child) {
      RefusalExactly(p, t, f, g, child, now);
      if g.parent in f { MayIsPermitted(f[g.parent], t.grants[g.parent], g.runId, child, now); }
    } else {
      UnreadableRefused(p, t, g, now);
    }
  }

  /** Once the checks have passed, only what is stored already can prevent a delegation. */
  lemma RecordedExactly(p: Platform, t: Tables, g: GrantRecord, eventId: string, outboxId: string, now: int)
    requires JournalInv(p, t)
    ensures var (r, u) := CreateDelegation(p, t, g, eventId, outboxId, now);
            (r.Success? <==> DelegationRefusal(p, t, g, now) == None &&
                             Recordable(t, g.grantId, g.parent, g.grantHash, eventId, outboxId)) &&
            (r.Failure? ==> u == t)
  {
    if g.runId in t.runs { EventAccepted(p, t, g, eventId); }
  }

  lemma RecordFields(p: Platform, c: DelegationCall)
    ensures var g := DelegationRecord(p, c);
            g.runId == c.runId && g.parent == c.parent && g.document == DocumentOf(p, c.child) &&
            g.grantHash == p.hash(DocumentOf(p, c.child))
  {
  }

  /** A delegation succeeds exactly if it may be made and can be recorded; a failure changes nothing. */
  lemma DelegatesExactly(p: Platform, t: Tables, f: Forest, w: Ledger, c: DelegationCall, now: int)
    requires p.Faithful() && Inv(p, t, f, w)
    ensures Delegate(p, t, c, now).0.Success? <==> Delegable(p, t, f, c, now)
    ensures Delegate(p, t, c, now).0.Failure? ==> Delegate(p, t, c, now).1 == t
  {
    var g := DelegationRecord(p, c);
    RecordFields(p, c);
    PassesExactly(p, t, f, g, c.child, now);
    RecordedExactly(p, t, g, c.eventId, c.outboxId, now);
  }

  /** What the identifier of a grant is made of. */
  function GrantIdentity(p: Platform, c: DelegationCall): Value {
    Obj(map["document" := DocumentOf(p, c.child), "idempotency_key" := Str(c.key),
            "parent_grant_id" := Str(c.parent), "run_id" := Str(c.runId)])
  }

  /** A grant's identifier decides the delegation, up to a clash of the shortened digests. */
  lemma GrantIdBinds(p: Platform, c: DelegationCall, d: DelegationCall)
    requires p.Faithful() && c.child.Valid() && d.child.Valid()
    requires DelegationRecord(p, c).grantId == DelegationRecord(p, d).grantId
    ensures SameDelegation(c, d) || Clash(p.short, GrantIdentity(p, c), GrantIdentity(p, d))
  {
    var x, y := GrantIdentity(p, c), GrantIdentity(p, d);
    assert DelegationRecord(p, c).grantId[6..] == p.short(x) && DelegationRecord(p, d).grantId[6..] == p.short(y);
    if x == y {
      assert x.members["document"] == y.members["document"] && x.members["idempotency_key"] == y.members["idempotency_key"];
      assert x.members["parent_grant_id"] == y.members["parent_grant_id"] && x.members["run_id"] == y.members["run_id"];
      GrantRoundTrip(p, c.child);
      GrantRoundTrip(p, d.child);
    }
  }

  /** A delegation that is not a replay stores the child under the parent, unrevoked, and answers its identifier. */
  lemma DelegationAdds(p: Platform, t: Tables, c: DelegationCall, now: int)
    requires Delegate(p, t, c, now).0.Success?
    ensures var (r, u) := Delegate(p, t, c, now);
            var id, doc := DelegationRecord(p, c).grantId, DocumentOf(p, c.child);
            r == Success(id) &&
            u.grants == if id in t.grants then t.grants
                        else t.grants[id := GrantRow(c.child.tenantId, c.child.caseId, c.runId, Some(c.parent), doc,
                                                     p.hash(doc), c.child.validUntil, None, now)]
  {
    DelegationWrites(p, t, DelegationRecord(p, c), c.eventId, c.outboxId, now);
    ReplayedOrNew(p, t, DelegationRecord(p, c), c.eventId, c.outboxId, now);
  }

  lemma ReplayedOrNew(p: Platform, t: Tables, g: GrantRecord, eventId: string, outboxId: string, now: int)
    requires CreateDelegation(p, t, g, eventId, outboxId, now).0.Success?
    ensures var (r, u) := CreateDelegation(p, t, g, eventId, outboxId, now);
            r == Success(g.grantId) && (g.grantId in t.grants <==> u == t)
  {
    assert g.grantId in CreateDelegation(p, t, g, eventId, outboxId, now).1.grants;
  }

  // ---------- activity records ----------

  /** What a record must say of the hash before it. */
  function HashBefore(rows: seq<Record>, k: nat): Value
    requires k <= |rows|
  {
    if k == 0 then Null else At(rows[k - 1], "record_hash")
  }

  /** A record of this run at place `k`, naming the hash before it, whose own two hashes recompute. */
  predicate Continues(p: Platform, t: Tables, runId: string, rows: seq<Record>, k: nat)
    requires k < |rows|
  {
    var r := rows[k];
    && runId in t.runs && TextField(r, "run_id") == Some(runId)
    && TextField(r, "tenant_id") == Some(t.runs[runId].tenantId)
    && TextField(r, "case_id") == Some(t.runs[runId].caseId)
    && TextField(r, "event_id").Some? && TextField(r, "event_type").Some?
    && "sequence" in r && r["sequence"] == Num(k)
    && "previous_event_hash" in r && r["previous_event_hash"] == HashBefore(rows, k)
    && "body" in r && TextField(r, "body_hash") == Some(p.hash(r["body"]))
    && TextField(r, "record_hash") == Some(p.hash(Obj(r - {"record_hash"})))
  }

  lemma ContinuesExactly(p: Platform, t: Tables, runId: string, rows: seq<Record>, k: nat)
    requires k < |rows| && runId in t.runs
    requires k > 0 ==> TextField(rows[k - 1], "record_hash").Some?
    ensures Continues(p, t, runId, rows, k) <==>
            InScope(t, runId, rows[k]) && Linked(p, rows[k], k, PreviousHash(rows, k))
  {
  }

  /** The rows from place `n` on continue the run. */
  predicate AllContinue(p: Platform, t: Tables, runId: string, rows: seq<Record>, n: nat) {
    forall k :: n <= k < |rows| ==> Continues(p, t, runId, rows, k)
  }

  lemma AllContinueExactly(p: Platform, t: Tables, runId: string, existing: seq<Record>, records: seq<Record>)
    requires runId in t.runs && Chain(p, existing)
    ensures AllContinue(p, t, runId, existing + records, |existing|) <==>
            Chain(p, existing + records) && Scoped(t, runId, records)
  {
    var rows, n := existing + records, |existing|;
    if AllContinue(p, t, runId, rows, n) {
      forall k | 0 <= k < |rows|
        ensures Linked(p, rows[k], k, PreviousHash(rows, k)) && (k >= n ==> InScope(t, runId, rows[k]))
      {
        if k < n {
          assert Linked(p, existing[k], k, PreviousHash(existing, k)) && PreviousHash(existing, k) == PreviousHash(rows, k);
        } else {
          if k > n { assert Continues(p, t, runId, rows, k - 1); }
          if k == n > 0 { assert Linked(p, existing[n - 1], n - 1, PreviousHash(existing, n - 1)); }
          assert Continues(p, t, runId, rows, k);
          ContinuesExactly(p, t, runId, rows, k);
        }
      }
      forall i | 0 <= i < |records| ensures InScope(t, runId, records[i]) { assert rows[n + i] == records[i]; }
    }
    if Chain(p, rows) && Scoped(t, runId, records) {
      forall k | n <= k < |rows|
        ensures Continues(p, t, runId, rows, k)
      {
        assert InScope(t, runId, records[k - n]) && Linked(p, rows[k], k, PreviousHash(rows, k));
        if k > 0 { assert Linked(p, rows[k - 1], k - 1, PreviousHash(rows, k - 1)); }
        ContinuesExactly(p, t, runId, rows, k);
      }
    }
  }

  /** The event ids of the batch are different, and new to the stored records and to the outbox. */
  predicate NewIds(t: Tables, records: seq<Record>) {
    && (forall i, j :: 0 <= i < j < |records| ==> TextField(records[i], "event_id") != TextField(records[j], "event_id"))
    && (forall r, x :: r in records && x in t.activities ==> TextField(x, "event_id") != TextField(r, "event_id"))
    && forall r :: r in records ==> "outbox_" + TextAt(r, "event_id") !in t.outbox
  }

  lemma NewIdsExactly(t: Tables, records: seq<Record>)
    requires HaveIds(t.activities) && HaveIds(records)
    ensures NewIds(t, records) <==> FreshIds(EventIds(t.activities), t.outbox.Keys, records)
  {
    forall r | r in records
      ensures EventId(r) == TextAt(r, "event_id") && TextField(r, "event_id") == Some(EventId(r))
      ensures EventId(r) in EventIds(t.activities) <==> exists x :: x in t.activities && TextField(x, "event_id") == TextField(r, "event_id")
    {
      IdUsed(t.activities, r);
    }
    forall i | 0 <= i < |records| ensures records[i] in records { }
  }

  lemma CommittableExactly(p: Platform, t: Tables, runId: string, existing: seq<Record>, records: seq<Record>)
    requires HaveIds(t.activities) && runId in t.runs && Chain(p, existing)
    ensures Committable(p, t, runId, existing, records) <==>
            AllContinue(p, t, runId, existing + records, |existing|) && NewIds(t, records)
  {
    AllContinueExactly(p, t, runId, existing, records);
    if Scoped(t, runId, records) {
      forall i | 0 <= i < |records| ensures TextField(records[i], "event_id").Some? { assert InScope(t, runId, records[i]); }
      NewIdsExactly(t, records);
    }
  }

  /**
   * A batch is stored exactly if it is not empty, every record continues the run that the
   * first one names, and its event ids are new; a failure changes nothing.
   */
  lemma AppendsExactly(p: Platform, t: Tables, f: Forest, w: Ledger, records: seq<Record>)
    requires Inv(p, t, f, w)
    ensures var (r, u) := AppendActivities(p, t, records);
            (r.Success? <==>
               records != [] && NewIds(t, records) &&
               var runId := TextAt(records[0], "run_id");
               var existing := ActivitiesOf(t.activities, runId);
               AllContinue(p, t, runId, existing + records, |existing|)) &&
            u.activities == t.activities + (if r.Success? then records else []) &&
            (r.Failure? ==> u == t)
  {
    if records != [] {
      var runId := TextAt(records[0], "run_id");
      var existing := ActivitiesOf(t.activities, runId);
      assert (existing + records)[|existing|] == records[0];
      if AllContinue(p, t, runId, existing + records, |existing|) { assert Continues(p, t, runId, existing + records, |existing|); }
      if Names(t, records, runId) {
        AppendCall(p, t, records, runId);
        CommittableExactly(p, t, runId, existing, records);
      }
    }
  }

  /** What reconstruction returns in a reachable state: the run's records, each continuing those before. */
  lemma RebuiltContinues(p: Platform, t: Tables, f: Forest, w: Ledger, runId: string)
    requires Inv(p, t, f, w) && runId in t.runs
    ensures Reconstruct(p, t, runId).Some?
    ensures AllContinue(p, t, runId, Reconstruct(p, t, runId).value, 0)
  {
    var rows := ActivitiesOf(t.activities, runId);
    ReconstructSucceeds(p, t, runId);
    AllContinueExactly(p, t, runId, [], rows);
    assert [] + rows == rows;
  }

  // ---------- effect records ----------

  /** A document of this run, with the identifier its kind has and a hash that recomputes. */
  predicate Fit(p: Platform, t: Tables, runId: string, doc: Record, idField: string) {
    && runId in t.runs
    && TextField(doc, "run_id") == Some(runId)
    && TextField(doc, "tenant_id") == Some(t.runs[runId].tenantId)
    && TextField(doc, "case_id") == Some(t.runs[runId].caseId)
    && TextField(doc, "record_hash") == Some(p.hash(Obj(doc - {"record_hash"})))
    && TextField(doc, idField).Some?
  }

  predicate HasId(rows: seq<EffectRow>, id: string) { exists e :: e in rows && e.recordId == id }

  /** A document with this identifier and hash is stored already, or can be. */
  predicate Placeable(t: Tables, kind: EffectKind, id: string, hash: Option<string>) {
    if HasId(t.effects, id) then
      forall e :: e in t.effects && e.recordId == id ==> e.kind == kind && TextField(e.document, "record_hash") == hash
    else
      "outbox_" + id !in t.outbox &&
      forall e :: e in t.effects && e.kind == kind ==> TextField(e.document, "record_hash") != hash
  }

  /** The reconciliation names the receipt, by identifier and hash, and is another record. */
  predicate Pairs(receipt: Record, reconciliation: Record) {
    && "receipt_id" in receipt && "record_hash" in receipt
    && "receipt_id" in reconciliation && reconciliation["receipt_id"] == receipt["receipt_id"]
    && "receipt_hash" in reconciliation && reconciliation["receipt_hash"] == receipt["record_hash"]
    && TextField(reconciliation, "reconciliation_id") != TextField(receipt, "receipt_id")
  }

  predicate Placed(p: Platform, t: Tables, runId: string, kind: EffectKind, doc: Record, idField: string) {
    && Fit(p, t, runId, doc, idField)
    && Placeable(t, kind, TextField(doc, idField).value, TextField(doc, "record_hash"))
  }

  /** The row a document adds, if its identifier is new. */
  function NewRow(t: Tables, kind: EffectKind, runId: string, doc: Record, idField: string, now: int): seq<EffectRow>
    requires TextField(doc, idField).Some?
  {
    var id := TextField(doc, idField).value;
    if HasId(t.effects, id) then [] else [EffectRow(id, kind, runId, doc, now)]
  }

  lemma {:induction false} FindsId(rows: seq<EffectRow>, id: string)
    ensures FindEffect(rows, id).Some? <==> HasId(rows, id)
    ensures FindEffect(rows, id).Some? ==> FindEffect(rows, id).value in rows && FindEffect(rows, id).value.recordId == id
  {
    FindEffectFinds(rows, id);
    if e :| e in rows && e.recordId == id {
      var i :| 0 <= i < |rows| && rows[i] == e;
    }
    if FindEffect(rows, id).Some? { assert FindEffect(rows, id).value.recordId == id; }
  }

  predicate DistinctIds(rows: seq<EffectRow>) {
    forall i, j :: 0 <= i < j < |rows| ==> rows[i].recordId != rows[j].recordId
  }

  /** One document: exactly when it is placed, and what that adds. */
  lemma PersistsOne(p: Platform, t: Tables, runId: string, kind: EffectKind, doc: Record, now: int)
    requires runId in t.runs && DistinctIds(t.effects)
    ensures var r := PersistEffect(p, t, runId, kind, doc, now);
            var idField := if kind == ExecutionReceipt then "receipt_id" else "reconciliation_id";
            (r.Success? <==> Placed(p, t, runId, kind, doc, idField)) &&
            (r.Success? ==>
               r.value.runs == t.runs && r.value.effects == t.effects + NewRow(t, kind, runId, doc, idField, now) &&
               forall id :: id in r.value.outbox <==>
                 id in t.outbox || (id == "outbox_" + TextField(doc, idField).value && !HasId(t.effects, TextField(doc, idField).value)))
  {
    var idField := if kind == ExecutionReceipt then "receipt_id" else "reconciliation_id";
    assert idField == IdentityField(kind);
    if TextField(doc, idField).Some? {
      var id := TextField(doc, idField).value;
      FindsId(t.effects, id);
      if FindEffect(t.effects, id).Some? {
        var e := FindEffect(t.effects, id).value;
        forall x | x in t.effects && x.recordId == id ensures x == e { }
      }
    }
  }

  lemma HasIdJoin(a: seq<EffectRow>, b: seq<EffectRow>, id: string)
    ensures HasId(a + b, id) <==> HasId(a, id) || HasId(b, id)
  {
    if e :| e in a && e.recordId == id { assert e in a + b; }
    if e :| e in b && e.recordId == id { assert e in a + b; }
  }

  /** Placing the receipt does not affect another identifier's record of the other kind. */
  lemma PlaceableNext(t: Tables, u: Tables, added: seq<EffectRow>, other: string, id: string, hash: Option<string>)
    requires u.effects == t.effects + added && other != id
    requires forall e :: e in added ==> e.recordId == other && e.kind == ExecutionReceipt
    requires "outbox_" + id in u.outbox ==> "outbox_" + id in t.outbox
    requires t.outbox.Keys <= u.outbox.Keys
    ensures Placeable(u, Reconciliation, id, hash) <==> Placeable(t, Reconciliation, id, hash)
    ensures HasId(u.effects, id) <==> HasId(t.effects, id)
  {
    HasIdJoin(t.effects, added, id);
    assert forall e :: e in u.effects <==> e in t.effects || e in added;
  }

  lemma OtherKey(a: string, b: string)
    ensures "outbox_" + a == "outbox_" + b <==> a == b
  {
    assert a == ("outbox_" + a)[7..] && b == ("outbox_" + b)[7..];
  }

  /** After the receipt is placed its identifier is taken, by a receipt. */
  lemma ReceiptTaken(t: Tables, u: Tables, runId: string, receipt: Record, now: int, hash: Option<string>)
    requires TextField(receipt, "receipt_id").Some?
    requires Placeable(t, ExecutionReceipt, TextField(receipt, "receipt_id").value, TextField(receipt, "record_hash"))
    requires u.effects == t.effects + NewRow(t, ExecutionReceipt, runId, receipt, "receipt_id", now)
    ensures !Placeable(u, Reconciliation, TextField(receipt, "receipt_id").value, hash)
  {
    var id := TextField(receipt, "receipt_id").value;
    var added := NewRow(t, ExecutionReceipt, runId, receipt, "receipt_id", now);
    HasIdJoin(t.effects, added, id);
    if HasId(t.effects, id) {
      var e :| e in t.effects && e.recordId == id;
      assert e in u.effects && e.kind == ExecutionReceipt;
    } else {
      assert added[0] in u.effects && added[0] in added && added[0].recordId == id;
    }
  }

  lemma DistinctGrows(p: Platform, t: Tables, runId: string, kind: EffectKind, doc: Record, idField: string, now: int)
    requires DistinctIds(t.effects) && TextField(doc, idField).Some?
    ensures DistinctIds(t.effects + NewRow(t, kind, runId, doc, idField, now))
  {
  }

  /** What a successful call adds. */
  function NewRows(t: Tables, runId: string, receipt: Record, reconciliation: Record, first: int, second: int): seq<EffectRow>
    requires TextField(receipt, "receipt_id").Some? && TextField(reconciliation, "reconciliation_id").Some?
  {
    NewRow(t, ExecutionReceipt, runId, receipt, "receipt_id", first) +
    NewRow(t, Reconciliation, runId, reconciliation, "reconciliation_id", second)
  }

  /** The second pass of the loop, as if the first had not been. */
  lemma SecondPass(p: Platform, t: Tables, runId: string, receipt: Record, reconciliation: Record, first: int, second: int)
    requires runId in t.runs && DistinctIds(t.effects)
    requires PersistEffect(p, t, runId, ExecutionReceipt, receipt, first).Success?
    ensures var u := PersistEffect(p, t, runId, ExecutionReceipt, receipt, first).value;
            u.runs == t.runs &&
            var r := PersistEffect(p, u, runId, Reconciliation, reconciliation, second);
            (r.Success? <==> Placed(p, t, runId, Reconciliation, reconciliation, "reconciliation_id") &&
                             TextField(reconciliation, "reconciliation_id") != TextField(receipt, "receipt_id")) &&
            (r.Success? ==>
               r.value.runs == t.runs &&
               r.value.effects == t.effects + NewRows(t, runId, receipt, reconciliation, first, second))
  {
    PersistsOne(p, t, runId, ExecutionReceipt, receipt, first);
    var u := PersistEffect(p, t, runId, ExecutionReceipt, receipt, first).value;
    DistinctGrows(p, t, runId, ExecutionReceipt, receipt, "receipt_id", first);
    PersistsOne(p, u, runId, Reconciliation, reconciliation, second);
    var id, hash := TextField(reconciliation, "reconciliation_id"), TextField(reconciliation, "record_hash");
    if id.Some? {
      var other := TextField(receipt, "receipt_id").value;
      OtherKey(other, id.value);
      if other == id.value {
        ReceiptTaken(t, u, runId, receipt, first, hash);
      } else {
        PlaceableNext(t, u, NewRow(t, ExecutionReceipt, runId, receipt, "receipt_id", first), other, id.value, hash);
      }
    }
  }

  /**
   * Receipt and reconciliation are stored exactly if both belong to one existing run and
   * recompute, the reconciliation names that receipt, and their identifiers and hashes
   * are new or stored as these records already.
   */
  lemma PersistsExactly(p: Platform, t: Tables, receipt: Record, reconciliation: Record, first: int, second: int)
    requires EffectInv(p, t)
    ensures var (r, u) := PersistEffects(p, t, receipt, reconciliation, first, second);
            var runId := TextField(receipt, "run_id");
            (r.Success? <==>
               runId.Some? && Pairs(receipt, reconciliation) &&
               Placed(p, t, runId.value, ExecutionReceipt, receipt, "receipt_id") &&
               Placed(p, t, runId.value, Reconciliation, reconciliation, "reconciliation_id")) &&
            u.effects == t.effects + (if r.Success? then NewRows(t, runId.value, receipt, reconciliation, first, second) else [])
  {
    var runId := TextField(receipt, "run_id");
    if runId.Some? && runId.value in t.runs {
      PersistsOne(p, t, runId.value, ExecutionReceipt, receipt, first);
      if PersistEffect(p, t, runId.value, ExecutionReceipt, receipt, first).Success? {
        SecondPass(p, t, runId.value, receipt, reconciliation, first, second);
      }
    }
  }

  // ---------- pairs of records over whole runs ----------

  /** The receipts that the operations of a log try to store. */
  function Receipts(ops: seq<Op>): set<Record> {
    set i | 0 <= i < |ops| && ops[i].Persist? :: ops[i].receipt
  }

  /** A stored receipt that a stored reconciliation names, in its run unless its hash is shared. */
  ghost predicate Reconciles(p: Platform, submitted: set<Record>, r: EffectRow, e: EffectRow) {
    && r.kind == ExecutionReceipt
    && TextField(e.document, "receipt_id") == Some(r.recordId)
    && TextField(e.document, "receipt_hash").Some?
    && TextField(e.document, "receipt_hash") == TextField(r.document, "record_hash")
    && (r.runId == e.runId || exists d :: d in submitted && Clash(p.hash, Payload(d), Payload(r.document)))
  }

  ghost predicate Paired(p: Platform, t: Tables, submitted: set<Record>) {
    forall e :: e in t.effects && e.kind == Reconciliation ==>
      exists r :: r in t.effects && Reconciles(p, submitted, r, e)
  }

  lemma PairedGrows(p: Platform, t: Tables, u: Tables, a: set<Record>, b: set<Record>, added: seq<EffectRow>)
    requires Paired(p, t, a) && a <= b && u.effects == t.effects + added
    requires forall e :: e in added && e.kind == Reconciliation ==> exists r :: r in u.effects && Reconciles(p, b, r, e)
    ensures Paired(p, u, b)
  {
    forall e | e in u.effects && e.kind == Reconciliation
      ensures exists r :: r in u.effects && Reconciles(p, b, r, e)
    {
      if e in t.effects {
        var r :| r in t.effects && Reconciles(p, a, r, e);
        assert r in u.effects && Reconciles(p, b, r, e);
      }
    }
  }

  /** A record with the receipt's hash, stored before, is of the receipt's run, or the two clash. */
  lemma SameHashSameRun(p: Platform, t: Tables, runId: string, receipt: Record, r: EffectRow)
    requires Fit(p, t, runId, receipt, "receipt_id") && SoundEffect(p, t.runs, r)
    requires TextField(r.document, "record_hash") == TextField(receipt, "record_hash")
    ensures r.runId == runId || Clash(p.hash, Payload(receipt), Payload(r.document))
  {
    if Payload(receipt) == Payload(r.document) {
      assert Payload(receipt).members["run_id"] == Payload(r.document).members["run_id"];
    }
  }

  /** Once the receipt is placed, a row for it is stored. */
  lemma ReceiptStored(p: Platform, t: Tables, u: Tables, runId: string, receipt: Record, first: int, more: seq<EffectRow>)
    returns (r: EffectRow)
    requires EffectInv(p, t) && Placed(p, t, runId, ExecutionReceipt, receipt, "receipt_id")
    requires u.effects == t.effects + (NewRow(t, ExecutionReceipt, runId, receipt, "receipt_id", first) + more)
    ensures r in u.effects && r.kind == ExecutionReceipt && Some(r.recordId) == TextField(receipt, "receipt_id")
    ensures TextField(r.document, "record_hash") == TextField(receipt, "record_hash")
    ensures r.runId == runId || Clash(p.hash, Payload(receipt), Payload(r.document))
  {
    var id := TextField(receipt, "receipt_id").value;
    if HasId(t.effects, id) {
      r :| r in t.effects && r.recordId == id;
      var i :| 0 <= i < |t.effects| && t.effects[i] == r;
      SameHashSameRun(p, t, runId, receipt, r);
    } else {
      r := EffectRow(id, ExecutionReceipt, runId, receipt, first);
      assert NewRow(t, ExecutionReceipt, runId, receipt, "receipt_id", first) == [r];
      assert u.effects[|t.effects|] == r;
    }
  }

  lemma PersistPairs(p: Platform, t: Tables, submitted: set<Record>, receipt: Record, reconciliation: Record, first: int, second: int)
    requires EffectInv(p, t) && Paired(p, t, submitted)
    ensures Paired(p, PersistEffects(p, t, receipt, reconciliation, first, second).1, submitted + {receipt})
  {
    var (res, u) := PersistEffects(p, t, receipt, reconciliation, first, second);
    PersistsExactly(p, t, receipt, reconciliation, first, second);
    if res.Success? {
      var runId := TextField(receipt, "run_id").value;
      var more := NewRow(t, Reconciliation, runId, reconciliation, "reconciliation_id", second);
      var added := NewRow(t, ExecutionReceipt, runId, receipt, "receipt_id", first) + more;
      var r := ReceiptStored(p, t, u, runId, receipt, first, more);
      forall e | e in added && e.kind == Reconciliation
        ensures exists x :: x in u.effects && Reconciles(p, submitted + {receipt}, x, e)
      {
        assert e in more;
        assert receipt in submitted + {receipt};
        assert Reconciles(p, submitted + {receipt}, r, e);
      }
      PairedGrows(p, t, u, submitted, submitted + {receipt}, added);
    } else {
      PairedGrows(p, t, u, submitted, submitted + {receipt}, []);
    }
  }

  /** Only persisting effect records writes their table. */
  lemma EffectsElsewhere(p: Platform, t: Tables, op: Op)
    requires !op.Persist?
    ensures Step(p, t, op).effects == t.effects
  {
    match op
    case Request(c) => RunWrites(p, t, c);
    case Root(id, runId, g, now) => RootWrites(p, t, id, runId, g, now);
    case Delegation(c, now) => DelegationWrites(p, t, DelegationRecord(p, c), c.eventId, c.outboxId, now);
    case Append(records) => AppendLeaves(p, t, records);
  }

  lemma ReceiptsSnoc(ops: seq<Op>)
    requires ops != []
    ensures var last := ops[|ops| - 1];
            Receipts(ops) == Receipts(ops[..|ops| - 1]) + if last.Persist? then {last.receipt} else {}
  {
    var front := ops[..|ops| - 1];
    forall d | d in Receipts(front) ensures d in Receipts(ops) {
      var i :| 0 <= i < |front| && front[i].Persist? && front[i].receipt == d;
      assert ops[i].Persist? && ops[i].receipt == d;
    }
  }

  /**
   * In every reachable state each stored reconciliation has a stored receipt whose
   * identifier and hash it names, in the same run - unless that receipt's hash is also
   * the hash of another one that was to be stored.
   */
  lemma {:induction false} ReconciliationsPaired(p: Platform, ops: seq<Op>)
    requires p.Faithful()
    ensures Paired(p, Exec(p, EMPTY, ops), Receipts(ops))
  {
    if ops != [] {
      var front, last := ops[..|ops| - 1], ops[|ops| - 1];
      var t := Exec(p, EMPTY, front);
      ReconciliationsPaired(p, front);
      var f, w := ReachableInv(p, front);
      ReceiptsSnoc(ops);
      if last.Persist? {
        PersistPairs(p, t, Receipts(front), last.receipt, last.reconciliation, last.first, last.second);
      } else {
        EffectsElsewhere(p, t, last);
        PairedGrows(p, t, Step(p, t, last), Receipts(front), Receipts(ops), []);
      }
    }
  }
}
