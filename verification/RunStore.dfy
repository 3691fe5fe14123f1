// The store's transactions on the run tables, statement by statement, and the
// service in front of them.
module RunStore {
  import opened Wrappers
  import opened Json
  import opened ControlPlane

  class PostgresStore {
    const platform: Platform
    var runs: map<string, RunRequest>
    var grants: map<string, GrantRow>
    var idempotency: map<IdemKey, IdemRow>
    var journal: seq<JournalRow>
    var activities: seq<Record>
    var effects: seq<EffectRow>
    var outbox: map<string, OutboxRow>

    constructor (platform: Platform)
      ensures this.platform == platform && Db() == EMPTY
    {
      this.platform := platform;
      runs, grants, idempotency, journal := map[], map[], map[], [];
      activities, effects, outbox := [], [], map[];
    }

    function Db(): Tables
      reads this
    {
      Tables(runs, grants, idempotency, journal, activities, effects, outbox)
    }

    /** What leaving a transaction with an exception does. */
    method Rollback(saved: Tables)
      modifies this
      ensures Db() == saved
    {
      runs, grants, idempotency, journal := saved.runs, saved.grants, saved.idempotency, saved.journal;
      activities, effects, outbox := saved.activities, saved.effects, saved.outbox;
    }

    method CreateRun(runId: string, run: RunRequest, event: JournalRow, outboxId: string, announcement: OutboxRow,
                     key: IdemKey, requestHash: string, resultRef: string)
      returns (r: Result<string, Error>)
      modifies this
      ensures (r, Db()) == ControlPlane.CreateRun(old(Db()), runId, run, event, outboxId, announcement, key, requestHash, resultRef)
    {
      var saved := Db();
      if key in idempotency {
        var existing := idempotency[key];
        if existing.requestHash != requestHash { return Failure(ReusedKey); }
        if existing.resultRef.None? { return Failure(NoCommittedResult); }
        return Success(existing.resultRef.value);
      }
      idempotency := idempotency[key := IdemRow(requestHash, None)];
      if runId in runs { Rollback(saved); return Failure(Constraint); }
      runs := runs[runId := run];
      if !JournalAccepts(Db(), event) { Rollback(saved); return Failure(Constraint); }
      journal := journal + [event];
      if outboxId in outbox { Rollback(saved); return Failure(Constraint); }
      outbox := outbox[outboxId := announcement];
      idempotency := idempotency[key := IdemRow(requestHash, Some(resultRef))];
      assert idempotency == saved.idempotency[key := IdemRow(requestHash, Some(resultRef))];
      return Success(resultRef);
    }

    method CreateDelegation(g: GrantRecord, eventId: string, outboxId: string, now: int)
      returns (r: Result<string, Error>)
      modifies this
      ensures (r, Db()) == ControlPlane.CreateDelegation(platform, old(Db()), g, eventId, outboxId, now)
    {
      var saved := Db();
      var refusal := DelegationRefusal(platform, saved, g, now);
      if refusal.Some? { return Failure(refusal.value); }
      if g.grantId in grants {
        var existing := grants[g.grantId];
        if (existing.parent, existing.grantHash) != (Some(g.parent), g.grantHash) { return Failure(GrantCollision); }
        return Success(g.grantId);
      }
      grants := grants[g.grantId := StoredGrant(g, now)];
      var event := DelegationEvent(platform, Db(), g, runs[g.runId], eventId);
      if !JournalAccepts(Db(), event) { Rollback(saved); return Failure(Constraint); }
      journal := journal + [event];
      if outboxId in outbox { Rollback(saved); return Failure(Constraint); }
      outbox := outbox[outboxId := OutboxRow(event.tenantId, "capability_grant", g.grantId,
                                             "capability.delegated", event.body)];
      return Success(g.grantId);
    }

    method AppendAgentActivities(records: seq<Record>) returns (r: Result<(), Error>)
      modifies this
      ensures (r, Db()) == ControlPlane.AppendActivities(platform, old(Db()), records)
    {
      if records == [] { return Failure(EmptyBatch); }
      var named := TextField(records[0], "run_id");
      if named.None? { return Failure(Malformed); }
      var runId := named.value;
      var saved := Db();
      if runId !in runs { return Failure(NoRun); }
      var last := LatestActivity(ActivitiesOf(activities, runId));
      var expectedSequence := if last.None? then 0 else SequenceOf(last.value) + 1;
      var expectedPrevious := if last.None? then None else TextField(last.value, "record_hash");
      ghost var result := AppendFrom(platform, saved, runId, records, expectedSequence, expectedPrevious);
      var i := 0;
      while i < |records|
        invariant 0 <= i <= |records| && runs == saved.runs
        invariant result == AppendFrom(platform, Db(), runId, records[i..], expectedSequence, expectedPrevious)
      {
        var record := records[i];
        assert records[i..][0] == record && records[i..][1..] == records[i + 1..];
        var step := AppendOne(runId, record, expectedSequence, expectedPrevious);
        if step.Failure? { Rollback(saved); return Failure(step.error); }
        expectedSequence := expectedSequence + 1;
        expectedPrevious := TextField(record, "record_hash");
        i := i + 1;
      }
      return Success(());
    }

    /** The checks and the two insertions for one record. */
    method AppendOne(runId: string, record: Record, expectedSequence: int, expectedPrevious: Option<string>)
      returns (r: Result<(), Error>)
      requires runId in runs
      modifies this
      ensures match ControlPlane.AppendOne(platform, old(Db()), runId, record, expectedSequence, expectedPrevious)
              case Failure(e) => r == Failure(e)
              case Success(t) => r == Success(()) && Db() == t
    {
      if !(ACTIVITY_FIELDS <= record.Keys) { return Failure(Malformed); }
      if record["run_id"] != Str(runId)
         || record["tenant_id"] != Str(runs[runId].tenantId) || record["case_id"] != Str(runs[runId].caseId)
         || record["sequence"] != Num(expectedSequence)
         || record["previous_event_hash"] != OptionalText(expectedPrevious)
         || record["body_hash"] != Str(platform.hash(record["body"]))
      {
        return Failure(BrokenChain);
      }
      if record["record_hash"] != Str(platform.hash(Payload(record))) { return Failure(BadRecordHash); }
      if !ActivityAccepts(Db(), record) || "outbox_" + record["event_id"].text in outbox { return Failure(Constraint); }
      outbox := outbox["outbox_" + record["event_id"].text := ActivityOutbox(record)];
      activities := activities + [record];
      return Success(());
    }

    method ReconstructAgentActivities(runId: string) returns (r: Option<seq<Record>>)
      ensures r == ControlPlane.Reconstruct(platform, Db(), runId)
    {
      var records := SortBySequence(ActivitiesOf(activities, runId));
      var previous: Option<string> := None;
      var sequence := 0;
      while sequence < |records|
        invariant 0 <= sequence <= |records|
        invariant previous == PreviousHash(records, sequence)
        invariant Chain(platform, records[..sequence])
      {
        var record := records[sequence];
        var linked := Linked(platform, record, sequence, previous);
        if !linked {
          NotLinked(platform, records, sequence);
          return None;
        }
        LinkedPrefix(platform, records, sequence);
        previous := TextField(record, "record_hash");
        sequence := sequence + 1;
      }
      assert records[..sequence] == records;
      return Some(records);
    }

    method PersistEffectRecords(receipt: Record, reconciliation: Record, first: int, second: int) returns (r: Result<(), Error>)
      modifies this
      ensures (r, Db()) == ControlPlane.PersistEffects(platform, old(Db()), receipt, reconciliation, first, second)
    {
      var saved := Db();
      var named := TextField(receipt, "run_id");
      if named.None? { return Failure(Malformed); }
      var runId := named.value;
      if runId !in runs { return Failure(NoRun); }
      if !("receipt_id" in receipt && "record_hash" in receipt &&
           "receipt_id" in reconciliation && "receipt_hash" in reconciliation) { return Failure(Malformed); }
      if reconciliation["receipt_id"] != receipt["receipt_id"] { return Failure(OtherReceipt); }
      if reconciliation["receipt_hash"] != receipt["record_hash"] { return Failure(BadReceiptHash); }
      r := PersistOne(runId, ExecutionReceipt, receipt, first);
      if r.Failure? { Rollback(saved); return; }
      r := PersistOne(runId, Reconciliation, reconciliation, second);
      if r.Failure? { Rollback(saved); return; }
      return Success(());
    }

    /** The body of the loop over the two documents. */
    method PersistOne(runId: string, kind: EffectKind, doc: Record, now: int) returns (r: Result<(), Error>)
      requires runId in runs
      modifies this
      ensures match PersistEffect(platform, old(Db()), runId, kind, doc, now)
              case Failure(e) => r == Failure(e)
              case Success(t) => r == Success(()) && Db() == t
      ensures runs == old(runs)
    {
      if !EffectInScope(platform, Db(), runId, doc) { return Failure(BadEffect); }
      var id := TextField(doc, IdentityField(kind));
      if id.None? { return Failure(Malformed); }
      var existing := FindEffect(effects, id.value);
      if existing.Some? {
        if existing.value.kind != kind ||
           TextField(existing.value.document, "record_hash") != TextField(doc, "record_hash") {
          return Failure(EffectCollision);
        }
        return Success(());
      }
      if exists x | x in effects :: x.kind == kind &&
           TextField(x.document, "record_hash") == TextField(doc, "record_hash") {
        return Failure(Constraint);
      }
      if "outbox_" + id.value in outbox { return Failure(Constraint); }
      effects := effects + [EffectRow(id.value, kind, runId, doc, now)];
      outbox := outbox["outbox_" + id.value := EffectOutbox(id.value, kind, doc)];
      return Success(());
    }

    method LoadEffectRecords(runId: string) returns (r: Option<seq<Record>>)
      ensures r == LoadEffects(platform, Db(), runId)
    {
      var records := Documents(SortByCreation(EffectsOf(effects, runId)));
      for i := 0 to |records|
        invariant forall j :: 0 <= j < i ==> Recomputes(platform, records[j])
      {
        if !Recomputes(platform, records[i]) { return None; }
      }
      return Some(records);
    }
  }

  lemma NotLinked(p: Platform, rows: seq<Record>, n: nat)
    requires n < |rows| && !Linked(p, rows[n], n, PreviousHash(rows, n))
    ensures !Chain(p, rows)
  {
  }

  lemma LinkedPrefix(p: Platform, rows: seq<Record>, n: nat)
    requires n < |rows| && Chain(p, rows[..n]) && Linked(p, rows[n], n, PreviousHash(rows, n))
    ensures Chain(p, rows[..n + 1])
  {
    var r := rows[..n + 1];
    forall i | 0 <= i < |r|
      ensures Linked(p, r[i], i, PreviousHash(r, i))
    {
      assert PreviousHash(r, i) == PreviousHash(rows, i);
      if i < n {
        assert PreviousHash(rows[..n], i) == PreviousHash(rows, i);
        assert Linked(p, rows[..n][i], i, PreviousHash(rows[..n], i));
      }
    }
  }

  class ControlPlaneService {
    const store: PostgresStore

    constructor (store: PostgresStore)
      ensures this.store == store
    {
      this.store := store;
    }

    method CreateRun(c: RunCall) returns (r: Result<string, Error>)
      modifies store
      ensures (r, store.Db()) == RequestRun(store.platform, old(store.Db()), c)
    {
      if !BoundedKey(c.key) { return Failure(BadArgument); }
      var runId := RunId(store.platform, c.request, c.key);
      var event := RunEvent(store.platform, c.request, runId, c.eventId);
      r := store.CreateRun(runId, c.request, event, c.outboxId, RunOutbox(event),
                           RunKey(store.platform, c.request, c.key),
                           store.platform.hash(RequestValue(c.request)), runId);
    }

    method DelegateCapability(c: DelegationCall, now: int) returns (r: Result<string, Error>)
      modifies store
      ensures (r, store.Db()) == Delegate(store.platform, old(store.Db()), c, now)
    {
      if c.runId == "" || c.parent == "" { return Failure(BadArgument); }
      if !BoundedKey(c.key) { return Failure(BadArgument); }
      r := store.CreateDelegation(DelegationRecord(store.platform, c), c.eventId, c.outboxId, now);
    }
  }
}
