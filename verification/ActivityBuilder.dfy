// The trusted builder of activity records, and why the store takes its output.
module ActivityBuilder {
  import opened Wrappers
  import opened Hashing
  import opened Json
  import opened ControlPlane
  import opened Activities

  datatype RunContext = RunContext(tenantId: string, caseId: string, runId: string, createdAt: string)

  /** What an untrusted caller supplies for one record. */
  datatype Draft = Draft(eventType: string, body: Value, actorSubject: string, actorType: string)

  function DraftEventId(p: Platform, c: RunContext, sequence: int, d: Draft): string {
    "event_" + p.short(Obj(map[
      "run_id" := Str(c.runId), "sequence" := Num(sequence),
      "event_type" := Str(d.eventType), "body_hash" := Str(p.hash(d.body))]))
  }

  /** Any members except the record's own hash can serve as the template. */
  type Template = r: Record | "record_hash" !in r witness map[]

  /** The members with fixed values. */
  const FIXED_MEMBERS: Record := map[
    "$schema" := Str("https://digitrans.app/schemas/provable-agent-reference/agent-activity-record.schema.json"),
    "event_version" := Str("0.1-draft"),
    "record_type" := Str("agent_activity"),
    "parent_run_id" := Null,
    "policy_version" := Str("policy:synthetic:1"),
    "occurred_at_assurance" := Str("source_declared"),
    "observed_at_assurance" := Str("control_plane_observed"),
    "operation_id" := Null,
    "attempt_id" := Null,
    "limitations" := Arr([Str("Synthetic activity with development-only time assurance.")])]

  lemma FixedMembersLeaveHash()
    ensures "record_hash" !in FIXED_MEMBERS
  {
    assert "record_hash"[7] != "record_type"[7] && "record_hash"[0] != "limitations"[0];
  }

  const ACTIVITY_TEMPLATE: Template := (FixedMembersLeaveHash(); FIXED_MEMBERS)

  /** The other members that nothing checks afterwards. */
  function Descriptive(c: RunContext, d: Draft): (r: Record)
    ensures r.Keys == {"actor", "occurred_at", "observed_at", "correlation_id"}
  {
    map[
      "actor" := Obj(map["subject" := Str(d.actorSubject), "issuer" := Str("synthetic://local-test-issuer"),
                         "actor_type" := Str(d.actorType)]),
      "occurred_at" := Str(c.createdAt),
      "observed_at" := Str(c.createdAt),
      "correlation_id" := Str("correlation_" + c.runId)]
  }

  /** Identity, scope, order and hashes. */
  function Binding(p: Platform, c: RunContext, sequence: int, previous: Option<string>, d: Draft): (r: Record)
    ensures r.Keys == ACTIVITY_FIELDS - {"record_hash"}
    ensures r["run_id"] == Str(c.runId) && r["tenant_id"] == Str(c.tenantId) && r["case_id"] == Str(c.caseId)
    ensures r["event_id"].Str? && r["event_type"].Str?
    ensures r["sequence"] == Num(sequence) && r["previous_event_hash"] == OptionalText(previous)
    ensures r["body_hash"] == Str(p.hash(r["body"]))
  {
    map[
      "event_id" := Str(DraftEventId(p, c, sequence, d)),
      "event_type" := Str(d.eventType),
      "tenant_id" := Str(c.tenantId),
      "case_id" := Str(c.caseId),
      "run_id" := Str(c.runId),
      "sequence" := Num(sequence),
      "previous_event_hash" := OptionalText(previous),
      "body" := d.body,
      "body_hash" := Str(p.hash(d.body))]
  }

  function DraftPayload(p: Platform, fixed: Template, c: RunContext, sequence: int, previous: Option<string>, d: Draft): Record {
    fixed + Descriptive(c, d) + Binding(p, c, sequence, previous, d)
  }

  function Built(p: Platform, fixed: Template, c: RunContext, sequence: int, previous: Option<string>, d: Draft): Record {
    var payload := DraftPayload(p, fixed, c, sequence, previous, d);
    payload["record_hash" := Str(p.hash(Obj(payload)))]
  }

  /** A built record carries the trusted scope and is linked at its place. */
  lemma BuiltIsLinked(p: Platform, fixed: Template, c: RunContext, sequence: int, previous: Option<string>, d: Draft)
    ensures var r := Built(p, fixed, c, sequence, previous, d);
            Linked(p, r, sequence, previous) && OfContext(c, r)
  {
    SealedRecord(p, fixed + Descriptive(c, d), Binding(p, c, sequence, previous, d));
  }

  lemma BindingSays(p: Platform, c: RunContext, sequence: int, previous: Option<string>, d: Draft)
    ensures var b := Binding(p, c, sequence, previous, d);
            b["body"] == d.body && b["event_type"] == Str(d.eventType) && b["event_id"] == Str(DraftEventId(p, c, sequence, d))
  {
  }

  /** It carries the caller's body and type, and its own hash. */
  lemma BuiltCarries(p: Platform, fixed: Template, c: RunContext, sequence: int, previous: Option<string>, d: Draft)
    ensures var r := Built(p, fixed, c, sequence, previous, d);
            && {"body", "event_type", "event_id", "record_hash"} <= r.Keys
            && r["body"] == d.body && r["event_type"] == Str(d.eventType)
            && r["event_id"] == Str(DraftEventId(p, c, sequence, d))
            && r["record_hash"] == Str(p.hash(Obj(r - {"record_hash"})))
  {
    BindingSays(p, c, sequence, previous, d);
    SealedRecord(p, fixed + Descriptive(c, d), Binding(p, c, sequence, previous, d));
  }

  /** Every other member is a descriptive one, or else has its fixed value. */
  lemma BuiltKeeps(p: Platform, fixed: Template, c: RunContext, sequence: int, previous: Option<string>, d: Draft, k: string)
    requires k !in ACTIVITY_FIELDS
    ensures var r, e := Built(p, fixed, c, sequence, previous, d), Descriptive(c, d);
            (k in r <==> k in e || k in fixed) && (k in r ==> r[k] == if k in e then e[k] else fixed[k])
  {
  }

  /** The descriptive members name the caller's actor, and the context's time and run. */
  lemma DescriptiveSays(c: RunContext, d: Draft)
    ensures var e := Descriptive(c, d);
            && e["actor"] == Obj(map["subject" := Str(d.actorSubject), "issuer" := Str("synthetic://local-test-issuer"),
                                     "actor_type" := Str(d.actorType)])
            && e["occurred_at"] == Str(c.createdAt) && e["observed_at"] == Str(c.createdAt)
            && e["correlation_id"] == Str("correlation_" + c.runId)
  {
  }

  /** What an event id is made of. */
  function EventIdentity(p: Platform, c: RunContext, sequence: int, d: Draft): Value {
    Obj(map["run_id" := Str(c.runId), "sequence" := Num(sequence),
            "event_type" := Str(d.eventType), "body_hash" := Str(p.hash(d.body))])
  }

  /** An event id decides run, place, type and body hash, or the two identities clash. */
  lemma EventIdBinds(p: Platform, c: RunContext, i: int, d: Draft, c': RunContext, j: int, d': Draft)
    requires DraftEventId(p, c, i, d) == DraftEventId(p, c', j, d')
    ensures (c.runId == c'.runId && i == j && d.eventType == d'.eventType && p.hash(d.body) == p.hash(d'.body)) ||
            Clash(p.short, EventIdentity(p, c, i, d), EventIdentity(p, c', j, d'))
  {
    var x, y := EventIdentity(p, c, i, d), EventIdentity(p, c', j, d');
    assert DraftEventId(p, c, i, d)[6..] == p.short(x) && DraftEventId(p, c', j, d')[6..] == p.short(y);
    if x == y {
      assert x.members["run_id"] == y.members["run_id"] && x.members["sequence"] == y.members["sequence"];
      assert x.members["event_type"] == y.members["event_type"] && x.members["body_hash"] == y.members["body_hash"];
    }
  }

  /** Sealing two parts with their digest hides neither. */
  lemma SealedRecord(p: Platform, a: Record, b: Record)
    requires "record_hash" !in a && "record_hash" !in b
    ensures var r := (a + b)["record_hash" := Str(p.hash(Obj(a + b)))];
            Payload(r) == Obj(a + b) && r["record_hash"] == Str(p.hash(Payload(r))) &&
            forall k :: k in b ==> k in r && r[k] == b[k]
  {
    var r := (a + b)["record_hash" := Str(p.hash(Obj(a + b)))];
    assert r - {"record_hash"} == a + b;
  }

  predicate OfContext(c: RunContext, r: Record) {
    && ACTIVITY_FIELDS <= r.Keys
    && r["run_id"] == Str(c.runId) && r["tenant_id"] == Str(c.tenantId) && r["case_id"] == Str(c.caseId)
    && r["event_id"].Str? && r["event_type"].Str?
  }

  /** A chain of records in the trusted scope. */
  predicate TrustedChain(p: Platform, c: RunContext, rows: seq<Record>) {
    Chain(p, rows) && forall i :: 0 <= i < |rows| ==> OfContext(c, rows[i])
  }

  lemma OutputGrows(p: Platform, fixed: Template, c: RunContext, rows: seq<Record>, d: Draft, r: Record)
    requires TrustedChain(p, c, rows) && r == Built(p, fixed, c, |rows|, PreviousHash(rows, |rows|), d)
    ensures TrustedChain(p, c, rows + [r])
    ensures PreviousHash(rows + [r], |rows| + 1) == TextField(r, "record_hash")
  {
    BuiltIsLinked(p, fixed, c, |rows|, PreviousHash(rows, |rows|), d);
    ExtendTrusted(p, c, rows, r);
  }

  lemma ExtendTrusted(p: Platform, c: RunContext, rows: seq<Record>, r: Record)
    requires TrustedChain(p, c, rows) && OfContext(c, r)
    requires Linked(p, r, |rows|, PreviousHash(rows, |rows|))
    ensures TrustedChain(p, c, rows + [r])
    ensures PreviousHash(rows + [r], |rows| + 1) == TextField(r, "record_hash")
  {
    ChainExtend(p, rows, r);
  }

  /** What the builder's two counters say about the chain written so far. */
  predicate Tracks(p: Platform, c: RunContext, rows: seq<Record>, sequence: int, previous: Option<string>) {
    sequence == |rows| && previous == PreviousHash(rows, |rows|) && TrustedChain(p, c, rows)
  }

  lemma TracksNext(p: Platform, fixed: Template, c: RunContext, rows: seq<Record>, sequence: int, previous: Option<string>,
                   d: Draft, r: Record)
    requires Tracks(p, c, rows, sequence, previous) && r == Built(p, fixed, c, sequence, previous, d)
    ensures Tracks(p, c, rows + [r], sequence + 1, TextField(r, "record_hash"))
  {
    OutputGrows(p, fixed, c, rows, d, r);
  }

  class ActivityRecordBuilder {
    const platform: Platform
    const fixed: Template
    const context: RunContext
    var previousHash: Option<string>
    var sequence: int
    ghost var output: seq<Record>

    ghost predicate Valid()
      reads this
    {
      Tracks(platform, context, output, sequence, previousHash)
    }

    constructor (platform: Platform, context: RunContext)
      ensures Valid() && output == [] && this.platform == platform
      ensures this.fixed == ACTIVITY_TEMPLATE && this.context == context
    {
      this.platform := platform;
      this.fixed := ACTIVITY_TEMPLATE;
      this.context := context;
      previousHash := None;
      sequence := 0;
      output := [];
    }

    method Append(d: Draft) returns (record: Record)
      requires Valid()
      modifies this
      ensures Valid()
      ensures record == Built(platform, fixed, context, old(sequence), old(previousHash), d)
      ensures output == old(output) + [record]
    {
      record := Built(platform, fixed, context, sequence, previousHash, d);
      TracksNext(platform, fixed, context, output, sequence, previousHash, d, record);
      sequence := sequence + 1;
      previousHash := TextField(record, "record_hash");
      output := output + [record];
    }
  }

  /**
   * Whatever a builder wrote for a run is accepted in any split into batches, given
   * fresh event ids, and is what reconstruction returns.
   */
  lemma BuilderOutputAccepted(p: Platform, t: Tables, c: RunContext, batches: seq<seq<Record>>)
    requires ActivityInv(p, t) && c.runId in t.runs && ActivitiesOf(t.activities, c.runId) == []
    requires t.runs[c.runId].tenantId == c.tenantId && t.runs[c.runId].caseId == c.caseId
    requires TrustedChain(p, c, Concat(batches))
    requires forall i :: 0 <= i < |batches| ==> batches[i] != []
    requires FreshIds(EventIds(t.activities), t.outbox.Keys, Concat(batches))
    ensures AppendAll(p, t, batches).Success?
    ensures Reconstruct(p, AppendAll(p, t, batches).value, c.runId) == Some(Concat(batches))
  {
    var all := Concat(batches);
    assert [] + all == all;
    forall i | 0 <= i < |all|
      ensures InScope(t, c.runId, all[i])
    {
      assert OfContext(c, all[i]);
    }
    AnySplitAccepted(p, t, c.runId, batches);
  }
}
