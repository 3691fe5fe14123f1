// The run tables of the control plane and what each transaction does to them.
module ControlPlane {
  import opened Wrappers
  import opened Json
  import opened KeyOrder

  /** Digests, truncated digests and timestamp texts, kept abstract. */
  datatype Platform = Platform(
    hash: Value -> string,
    short: Value -> string,
    isoformat: int -> string,
    fromisoformat: string -> Option<int>)
  {
    ghost predicate Faithful() {
      forall t :: fromisoformat(isoformat(t)) == Some(t)
    }
  }

  /** A stored JSON object. */
  type Record = map<string, Value>

  datatype Error =
    | BadArgument
    | ReusedKey | NoCommittedResult
    | OutsideRun | NoParent | ParentCorrupt | ParentExpired | ParentOutsideRun | ExpandsAuthority
    | GrantCollision
    | EmptyBatch | NoRun | Malformed | BrokenChain | BadRecordHash
    | OtherReceipt | BadReceiptHash | BadEffect | EffectCollision
    | Constraint

  // ---------- rows ----------

  datatype RunRequest = RunRequest(
    tenantId: string, caseId: string, requester: string,
    purpose: string, audience: string, riskTier: int, policyVersion: string)

  datatype JournalRow = JournalRow(
    eventId: string, tenantId: string, caseId: string, runId: string,
    sequence: int, previous: Option<string>, body: Value, bodyHash: string, recordHash: string)

  datatype IdemKey = IdemKey(tenantId: string, subject: string, operation: string, commitment: string)

  datatype IdemRow = IdemRow(requestHash: string, resultRef: Option<string>)

  datatype GrantRow = GrantRow(
    tenantId: string, caseId: string, runId: string, parent: Option<string>,
    document: Value, grantHash: string, validUntil: int, revokedAt: Option<int>, createdAt: int)

  datatype EffectKind = ExecutionReceipt | Reconciliation

  datatype EffectRow = EffectRow(recordId: string, kind: EffectKind, runId: string, document: Record, createdAt: int)

  datatype OutboxRow = OutboxRow(
    tenantId: string, aggregateType: string, aggregateId: string, eventType: string, payload: Value)

  datatype Tables = Tables(
    runs: map<string, RunRequest>,
    grants: map<string, GrantRow>,
    idempotency: map<IdemKey, IdemRow>,
    journal: seq<JournalRow>,
    activities: seq<Record>,
    effects: seq<EffectRow>,
    outbox: map<string, OutboxRow>)

  const EMPTY := Tables(map[], map[], map[], [], [], [], map[])

  // ---------- documents ----------

  function OptionalText(o: Option<string>): Value {
    match o case None => Null case Some(s) => Str(s)
  }

  /** What the record hash of a journal row covers. */
  function EventValue(e: JournalRow): Value {
    Obj(map[
      "event_id" := Str(e.eventId), "tenant_id" := Str(e.tenantId), "case_id" := Str(e.caseId),
      "run_id" := Str(e.runId), "sequence" := Num(e.sequence),
      "previous_event_hash" := OptionalText(e.previous),
      "body" := e.body, "body_hash" := Str(e.bodyHash)])
  }

  /** A record without its own hash. */
  function Payload(r: Record): Value { Obj(r - {"record_hash"}) }

  function TextField(r: Record, name: string): Option<string> {
    if name in r && r[name].Str? then Some(r[name].text) else None
  }

  // ---------- capability grants ----------

  datatype Grant = Grant(
    capabilities: set<string>, tenantId: string, caseId: string, allowedEffects: set<string>,
    maxToolCalls: int, maxModelCalls: int, validUntil: int, delegationDepth: int)
  {
    /** The checks of the constructor. */
    predicate Valid() {
      && 1 <= |tenantId| <= 200 && 1 <= |caseId| <= 200
      && capabilities != {} && "" !in capabilities
      && maxToolCalls >= 0 && maxModelCalls >= 0 && delegationDepth >= 0
    }

    predicate PermitsChild(child: Grant) {
      && child.capabilities <= capabilities
      && child.tenantId == tenantId
      && child.caseId == caseId
      && child.allowedEffects <= allowedEffects
      && child.maxToolCalls <= maxToolCalls
      && child.maxModelCalls <= maxModelCalls
      && child.validUntil <= validUntil
      && child.delegationDepth < delegationDepth
    }
  }

  lemma LeastText(s: set<string>) returns (m: string)
    requires s != {}
    ensures m in s && forall x :: x in s && x != m ==> Before(CodePoint, m, x)
    decreases |s|
  {
    m :| m in s;
    if s != {m} {
      var n := LeastText(s - {m});
      BeforeIsStrictTotal(CodePoint, m, n, m);
      if Before(CodePoint, n, m) {
        m := n;
      } else {
        forall x | x in s && x != m ensures Before(CodePoint, m, x) {
          BeforeIsStrictTotal(CodePoint, m, n, x);
        }
      }
    }
  }

  predicate IsLeast(m: string, s: set<string>) {
    m in s && forall x :: x in s && x != m ==> Before(CodePoint, m, x)
  }

  lemma LeastIsUnique(s: set<string>)
    ensures forall m, n :: IsLeast(m, s) && IsLeast(n, s) ==> m == n
  {
    forall m, n | IsLeast(m, s) && IsLeast(n, s)
      ensures m == n
    {
      BeforeIsStrictTotal(CodePoint, m, n, m);
    }
  }

  function Least(s: set<string>): (m: string)
    requires s != {}
    ensures IsLeast(m, s)
  {
    assert exists m :: IsLeast(m, s) by { var m := LeastText(s); assert IsLeast(m, s); }
    LeastIsUnique(s);
    var m :| m in s && IsLeast(m, s);
    m
  }

  function Texts(r: seq<Value>): set<string> {
    set i | 0 <= i < |r| && r[i].Str? :: r[i].text
  }

  lemma TextsCons(m: string, rest: seq<Value>)
    ensures Texts([Str(m)] + rest) == {m} + Texts(rest)
  {
    var r := [Str(m)] + rest;
    assert r[0] == Str(m);
    forall x | x in Texts(rest)
      ensures x in Texts(r)
    {
      var j :| 0 <= j < |rest| && rest[j].Str? && rest[j].text == x;
      assert r[j + 1] == rest[j];
    }
  }

  /** `sorted` of a set of texts. */
  function SortTexts(s: set<string>): (r: seq<Value>)
    ensures AllText(r) && Texts(r) == s
  {
    if s == {} then []
    else
      var m := Least(s);
      TextsCons(m, SortTexts(s - {m}));
      [Str(m)] + SortTexts(s - {m})
  }

  function DocumentOf(p: Platform, g: Grant): Value {
    Obj(map[
      "allowed_effects" := Arr(SortTexts(g.allowedEffects)),
      "capabilities" := Arr(SortTexts(g.capabilities)),
      "case_id" := Str(g.caseId),
      "delegation_depth" := Num(g.delegationDepth),
      "max_model_calls" := Num(g.maxModelCalls),
      "max_tool_calls" := Num(g.maxToolCalls),
      "tenant_id" := Str(g.tenantId),
      "valid_until" := Str(p.isoformat(g.validUntil))])
  }

  function TextSet(v: Value): Option<set<string>> {
    if v.Arr? && AllText(v.items) then Some(Texts(v.items)) else None
  }

  /** `_capability_grant`: None when it raises. */
  function GrantOf(p: Platform, doc: Value): Option<Grant> {
    if !doc.Obj? then None
    else
      var m := doc.members;
      if !({"allowed_effects", "capabilities", "case_id", "delegation_depth", "max_model_calls",
            "max_tool_calls", "tenant_id", "valid_until"} <= m.Keys) then None
      else if !(m["case_id"].Str? && m["tenant_id"].Str? && m["valid_until"].Str?) then None
      else if !(m["delegation_depth"].Num? && m["max_model_calls"].Num? && m["max_tool_calls"].Num?) then None
      else
        var effects, capabilities := TextSet(m["allowed_effects"]), TextSet(m["capabilities"]);
        var until := p.fromisoformat(m["valid_until"].text);
        if effects.None? || capabilities.None? || until.None? then None
        else
          var g := Grant(capabilities.value, m["tenant_id"].text, m["case_id"].text, effects.value,
                         m["max_tool_calls"].number, m["max_model_calls"].number, until.value,
                         m["delegation_depth"].number);
          if g.Valid() then Some(g) else None
  }

  /** Reading a stored document back yields the grant it was made from. */
  lemma GrantRoundTrip(p: Platform, g: Grant)
    requires p.Faithful() && g.Valid()
    ensures GrantOf(p, DocumentOf(p, g)) == Some(g)
  {
  }

  // ---------- journal ----------

  function RowsOf(journal: seq<JournalRow>, runId: string): seq<JournalRow> {
    if journal == [] then []
    else
      var last := journal[|journal| - 1];
      RowsOf(journal[..|journal| - 1], runId) + if last.runId == runId then [last] else []
  }

  /** The row of the highest sequence: `ORDER BY sequence DESC LIMIT 1`. */
  function Latest(rows: seq<JournalRow>): Option<JournalRow> {
    if rows == [] then None
    else
      var last, rest := rows[|rows| - 1], Latest(rows[..|rows| - 1]);
      if rest.None? || last.sequence > rest.value.sequence then Some(last) else rest
  }

  /** The table constraints on a new journal row. */
  predicate JournalAccepts(t: Tables, e: JournalRow) {
    && e.runId in t.runs
    && (forall r | r in t.journal :: r.eventId != e.eventId)
    && (forall r | r in t.journal :: r.runId == e.runId ==> r.sequence != e.sequence)
    && ((e.sequence == 0 && e.previous.None?) || (e.sequence > 0 && e.previous.Some?))
  }

  // ---------- create_run ----------

  function CreateRun(t: Tables, runId: string, run: RunRequest, event: JournalRow,
                     outboxId: string, outbox: OutboxRow,
                     key: IdemKey, requestHash: string, resultRef: string)
    : (Result<string, Error>, Tables)
  {
    if key in t.idempotency then
      var row := t.idempotency[key];
      if row.requestHash != requestHash then (Failure(ReusedKey), t)
      else if row.resultRef.None? then (Failure(NoCommittedResult), t)
      else (Success(row.resultRef.value), t)
    else
      var t1 := t.(runs := t.runs[runId := run]);
      if runId in t.runs || !JournalAccepts(t1, event) || outboxId in t.outbox then (Failure(Constraint), t)
      else
        (Success(resultRef),
         t1.(idempotency := t.idempotency[key := IdemRow(requestHash, Some(resultRef))],
             journal := t.journal + [event],
             outbox := t.outbox[outboxId := outbox]))
  }

  // ---------- create_delegation ----------

  datatype GrantRecord = GrantRecord(
    grantId: string, tenantId: string, caseId: string, runId: string, parent: string,
    document: Value, grantHash: string, validUntil: int)

  function DelegationBody(g: GrantRecord): Value {
    Obj(map[
      "event_type" := Str("capability.delegated"), "grant_hash" := Str(g.grantHash),
      "grant_id" := Str(g.grantId), "parent_grant_id" := Str(g.parent)])
  }

  /** The checks made against the stored parent before anything is written. */
  function DelegationRefusal(p: Platform, t: Tables, g: GrantRecord, now: int): Option<Error> {
    var child := GrantOf(p, g.document);
    if child.None? then Some(Malformed)
    else if g.runId !in t.runs ||
            (t.runs[g.runId].tenantId, t.runs[g.runId].caseId) != (child.value.tenantId, child.value.caseId)
    then Some(OutsideRun)
    else if g.parent !in t.grants then Some(NoParent)
    else
      var parent := t.grants[g.parent];
      if parent.grantHash != p.hash(parent.document) then Some(ParentCorrupt)
      else if parent.revokedAt.Some? || parent.validUntil <= now then Some(ParentExpired)
      else if (parent.tenantId, parent.caseId, parent.runId) != (child.value.tenantId, child.value.caseId, g.runId)
      then Some(ParentOutsideRun)
      else
        var authority := GrantOf(p, parent.document);
        if authority.None? then Some(Malformed)
        else if !authority.value.PermitsChild(child.value) then Some(ExpandsAuthority)
        else None
  }

  function DelegationEvent(p: Platform, t: Tables, g: GrantRecord, scope: RunRequest, eventId: string): JournalRow {
    var previous := Latest(RowsOf(t.journal, g.runId));
    var body := DelegationBody(g);
    var draft := JournalRow(eventId, scope.tenantId, scope.caseId, g.runId,
                            if previous.None? then 0 else previous.value.sequence + 1,
                            if previous.None? then None else Some(previous.value.recordHash),
                            body, p.hash(body), "");
    draft.(recordHash := p.hash(EventValue(draft)))
  }

  function StoredGrant(g: GrantRecord, now: int): GrantRow {
    GrantRow(g.tenantId, g.caseId, g.runId, Some(g.parent), g.document, g.grantHash, g.validUntil, None, now)
  }

  function CreateDelegation(p: Platform, t: Tables, g: GrantRecord, eventId: string, outboxId: string, now: int)
    : (Result<string, Error>, Tables)
  {
    var refusal := DelegationRefusal(p, t, g, now);
    if refusal.Some? then (Failure(refusal.value), t)
    else if g.grantId in t.grants then
      var row := t.grants[g.grantId];
      if (row.parent, row.grantHash) != (Some(g.parent), g.grantHash) then (Failure(GrantCollision), t)
      else (Success(g.grantId), t)
    else
      var event := DelegationEvent(p, t, g, t.runs[g.runId], eventId);
      var outbox := OutboxRow(event.tenantId, "capability_grant", g.grantId, "capability.delegated", event.body);
      if !JournalAccepts(t, event) || outboxId in t.outbox then (Failure(Constraint), t)
      else
        (Success(g.grantId),
         t.(grants := t.grants[g.grantId := StoredGrant(g, now)],
            journal := t.journal + [event],
            outbox := t.outbox[outboxId := outbox]))
  }

  // ---------- agent activities ----------

  const ACTIVITY_FIELDS := {"run_id", "tenant_id", "case_id", "sequence", "previous_event_hash",
                            "body", "body_hash", "event_id", "event_type", "record_hash"}

  predicate InRun(r: Record, runId: string) { TextField(r, "run_id") == Some(runId) }

  function ActivitiesOf(rows: seq<Record>, runId: string): seq<Record> {
    if rows == [] then []
    else
      var last := rows[|rows| - 1];
      ActivitiesOf(rows[..|rows| - 1], runId) + if InRun(last, runId) then [last] else []
  }

  /** The fields that reconstruction reads. */
  const CHAIN_FIELDS := {"sequence", "previous_event_hash", "body", "body_hash", "record_hash"}

  /** Order, chain and hashes of one record, as append and reconstruct both check them. */
  predicate Linked(p: Platform, r: Record, sequence: int, previous: Option<string>) {
    && CHAIN_FIELDS <= r.Keys
    && r["sequence"] == Num(sequence)
    && r["previous_event_hash"] == OptionalText(previous)
    && r["body_hash"] == Str(p.hash(r["body"]))
    && r["record_hash"] == Str(p.hash(Payload(r)))
  }

  /** The record hash that the record at position `i` must name. */
  function PreviousHash(rows: seq<Record>, i: nat): Option<string>
    requires i <= |rows|
  {
    if i == 0 then None else TextField(rows[i - 1], "record_hash")
  }

  /** A run's records as reconstruction accepts them. */
  predicate Chain(p: Platform, rows: seq<Record>) {
    forall i {:trigger Linked(p, rows[i], i, PreviousHash(rows, i))} :: 0 <= i < |rows| ==>
      Linked(p, rows[i], i, PreviousHash(rows, i))
  }

  function InsertBySequence(r: Record, rows: seq<Record>): seq<Record> {
    if rows == [] || SequenceOf(r) <= SequenceOf(rows[0]) then [r] + rows
    else [rows[0]] + InsertBySequence(r, rows[1..])
  }

  /** `ORDER BY sequence`. */
  function SortBySequence(rows: seq<Record>): seq<Record> {
    if rows == [] then [] else InsertBySequence(rows[0], SortBySequence(rows[1..]))
  }

  /** What `reconstruct_agent_activities` returns, None when it raises. */
  function Reconstruct(p: Platform, t: Tables, runId: string): Option<seq<Record>> {
    var rows := SortBySequence(ActivitiesOf(t.activities, runId));
    if Chain(p, rows) then Some(rows) else None
  }

  predicate ActivityAccepts(t: Tables, r: Record) {
    && TextField(r, "event_id").Some? && TextField(r, "event_type").Some?
    && forall x | x in t.activities :: TextField(x, "event_id") != TextField(r, "event_id")
  }

  function ActivityOutbox(r: Record): OutboxRow
    requires TextField(r, "event_id").Some? && TextField(r, "event_type").Some? && TextField(r, "tenant_id").Some?
    requires "record_hash" in r
  {
    OutboxRow(r["tenant_id"].text, "agent_activity", r["event_id"].text, r["event_type"].text,
              Obj(map["event_id" := r["event_id"], "record_hash" := r["record_hash"]]))
  }

  /** The body of the loop of `append_agent_activities`. */
  function AppendOne(p: Platform, t: Tables, runId: string, r: Record, sequence: int, previous: Option<string>)
    : (result: Result<Tables, Error>)
    requires runId in t.runs
    ensures result.Success? ==> TextField(r, "record_hash").Some? && result.value.runs == t.runs
  {
    if !(ACTIVITY_FIELDS <= r.Keys) then Failure(Malformed)
    else if r["run_id"] != Str(runId) ||
            r["tenant_id"] != Str(t.runs[runId].tenantId) || r["case_id"] != Str(t.runs[runId].caseId) ||
            r["sequence"] != Num(sequence) || r["previous_event_hash"] != OptionalText(previous) ||
            r["body_hash"] != Str(p.hash(r["body"]))
    then Failure(BrokenChain)
    else if r["record_hash"] != Str(p.hash(Payload(r))) then Failure(BadRecordHash)
    else if !ActivityAccepts(t, r) || "outbox_" + r["event_id"].text in t.outbox then Failure(Constraint)
    else
      Success(t.(activities := t.activities + [r],
                 outbox := t.outbox["outbox_" + r["event_id"].text := ActivityOutbox(r)]))
  }

  /** The loop over the remaining records. */
  function AppendFrom(p: Platform, t: Tables, runId: string, records: seq<Record>,
                      sequence: int, previous: Option<string>): Result<Tables, Error>
    requires runId in t.runs
    decreases |records|
  {
    if records == [] then Success(t)
    else
      match AppendOne(p, t, runId, records[0], sequence, previous)
      case Failure(e) => Failure(e)
      case Success(t1) => AppendFrom(p, t1, runId, records[1..], sequence + 1, TextField(records[0], "record_hash"))
  }

  function LatestActivity(rows: seq<Record>): Option<Record> {
    if rows == [] then None
    else
      var last, rest := rows[|rows| - 1], LatestActivity(rows[..|rows| - 1]);
      if rest.None? || SequenceOf(last) > SequenceOf(rest.value) then Some(last) else rest
  }

  function SequenceOf(r: Record): int {
    if "sequence" in r && r["sequence"].Num? then r["sequence"].number else -1
  }

  function AppendActivities(p: Platform, t: Tables, records: seq<Record>): (Result<(), Error>, Tables) {
    if records == [] then (Failure(EmptyBatch), t)
    else
      var runId := TextField(records[0], "run_id");
      if runId.None? then (Failure(Malformed), t)
      else if runId.value !in t.runs then (Failure(NoRun), t)
      else
        var last := LatestActivity(ActivitiesOf(t.activities, runId.value));
        var r := AppendFrom(p, t, runId.value, records,
                            if last.None? then 0 else SequenceOf(last.value) + 1,
                            if last.None? then None else TextField(last.value, "record_hash"));
        match r
        case Failure(e) => (Failure(e), t)
        case Success(t') => (Success(()), t')
  }

  // ---------- effect records ----------

  function EffectsOf(rows: seq<EffectRow>, runId: string): seq<EffectRow> {
    if rows == [] then []
    else (if rows[0].runId == runId then [rows[0]] else []) + EffectsOf(rows[1..], runId)
  }

  /** `created_at, record_id` puts `a` no later than `b`. */
  predicate CreatedUpTo(a: EffectRow, b: EffectRow) {
    a.createdAt < b.createdAt || (a.createdAt == b.createdAt && !Before(CodePoint, b.recordId, a.recordId))
  }

  function InsertByCreation(e: EffectRow, rows: seq<EffectRow>): seq<EffectRow> {
    if rows == [] || CreatedUpTo(e, rows[0]) then [e] + rows
    else [rows[0]] + InsertByCreation(e, rows[1..])
  }

  /** `ORDER BY created_at, record_id`. */
  function SortByCreation(rows: seq<EffectRow>): seq<EffectRow> {
    if rows == [] then [] else InsertByCreation(rows[0], SortByCreation(rows[1..]))
  }

  function Documents(rows: seq<EffectRow>): seq<Record> {
    seq(|rows|, i requires 0 <= i < |rows| => rows[i].document)
  }

  predicate Recomputes(p: Platform, doc: Record) {
    "record_hash" in doc && doc["record_hash"] == Str(p.hash(Payload(doc)))
  }

  /** What `load_effect_records` returns, None when it raises. */
  function LoadEffects(p: Platform, t: Tables, runId: string): Option<seq<Record>> {
    var docs := Documents(SortByCreation(EffectsOf(t.effects, runId)));
    if forall i :: 0 <= i < |docs| ==> Recomputes(p, docs[i]) then Some(docs) else None
  }

  function IdentityField(kind: EffectKind): string {
    if kind == ExecutionReceipt then "receipt_id" else "reconciliation_id"
  }

  function KindText(kind: EffectKind): string {
    if kind == ExecutionReceipt then "execution_receipt" else "reconciliation"
  }

  predicate EffectInScope(p: Platform, t: Tables, runId: string, doc: Record)
    requires runId in t.runs
  {
    && {"run_id", "tenant_id", "case_id", "record_hash"} <= doc.Keys
    && doc["run_id"] == Str(runId)
    && doc["tenant_id"] == Str(t.runs[runId].tenantId) && doc["case_id"] == Str(t.runs[runId].caseId)
    && doc["record_hash"] == Str(p.hash(Payload(doc)))
  }

  function FindEffect(rows: seq<EffectRow>, recordId: string): Option<EffectRow> {
    if rows == [] then None
    else if rows[0].recordId == recordId then Some(rows[0])
    else FindEffect(rows[1..], recordId)
  }

  function EffectOutbox(id: string, kind: EffectKind, doc: Record): OutboxRow
    requires TextField(doc, "tenant_id").Some? && "record_hash" in doc
  {
    OutboxRow(doc["tenant_id"].text, "effect_record", id, "effect." + KindText(kind) + ".recorded",
              Obj(map["record_id" := Str(id), "record_hash" := doc["record_hash"]]))
  }

  /** One pass of the loop in `persist_effect_records`. */
  function PersistEffect(p: Platform, t: Tables, runId: string, kind: EffectKind, doc: Record, now: int): Result<Tables, Error>
    requires runId in t.runs
  {
    if !EffectInScope(p, t, runId, doc) then Failure(BadEffect)
    else
      var id := TextField(doc, IdentityField(kind));
      if id.None? then Failure(Malformed)
      else
        var row := FindEffect(t.effects, id.value);
        if row.Some? then
          if row.value.kind == kind && TextField(row.value.document, "record_hash") == TextField(doc, "record_hash")
          then Success(t) else Failure(EffectCollision)
        else if (exists x | x in t.effects :: x.kind == kind &&
                   TextField(x.document, "record_hash") == TextField(doc, "record_hash")) ||
                "outbox_" + id.value in t.outbox
        then Failure(Constraint)
        else
          Success(t.(effects := t.effects + [EffectRow(id.value, kind, runId, doc, now)],
                     outbox := t.outbox["outbox_" + id.value := EffectOutbox(id.value, kind, doc)]))
  }

  /** Each document is inserted at a clock reading of its own. */
  function PersistEffects(p: Platform, t: Tables, receipt: Record, reconciliation: Record, first: int, second: int)
    : (Result<(), Error>, Tables)
  {
    var runId := TextField(receipt, "run_id");
    if runId.None? then (Failure(Malformed), t)
    else if runId.value !in t.runs then (Failure(NoRun), t)
    else if !("receipt_id" in receipt && "record_hash" in receipt &&
              "receipt_id" in reconciliation && "receipt_hash" in reconciliation) then (Failure(Malformed), t)
    else if reconciliation["receipt_id"] != receipt["receipt_id"] then (Failure(OtherReceipt), t)
    else if reconciliation["receipt_hash"] != receipt["record_hash"] then (Failure(BadReceiptHash), t)
    else
      match PersistEffect(p, t, runId.value, ExecutionReceipt, receipt, first)
      case Failure(e) => (Failure(e), t)
      case Success(t1) =>
        match PersistEffect(p, t1, runId.value, Reconciliation, reconciliation, second)
        case Failure(e) => (Failure(e), t)
        case Success(t2) => (Success(()), t2)
  }

  // ---------- the service ----------

  function RequestValue(r: RunRequest): Value {
    Obj(map[
      "tenant_id" := Str(r.tenantId), "case_id" := Str(r.caseId), "requester_subject" := Str(r.requester),
      "purpose" := Str(r.purpose), "audience" := Str(r.audience), "risk_tier" := Num(r.riskTier),
      "policy_version" := Str(r.policyVersion)])
  }

  function JournalBody(r: RunRequest): Value {
    Obj(map[
      "audience" := Str(r.audience), "policy_version" := Str(r.policyVersion), "purpose" := Str(r.purpose),
      "requester_subject" := Str(r.requester), "risk_tier" := Num(r.riskTier)])
  }

  function RunId(p: Platform, r: RunRequest, key: string): string {
    "run_" + p.short(Obj(map[
      "case_id" := Str(r.caseId), "idempotency_key" := Str(key),
      "requester_subject" := Str(r.requester), "tenant_id" := Str(r.tenantId)]))
  }

  function RunEvent(p: Platform, r: RunRequest, runId: string, eventId: string): JournalRow {
    var body := JournalBody(r);
    var draft := JournalRow(eventId, r.tenantId, r.caseId, runId, 0, None, body, p.hash(body), "");
    draft.(recordHash := p.hash(EventValue(draft)))
  }

  function RunOutbox(event: JournalRow): OutboxRow {
    OutboxRow(event.tenantId, "run", event.runId, "run.requested",
              Obj(map["event_id" := Str(event.eventId), "record_hash" := Str(event.recordHash)]))
  }

  function RunKey(p: Platform, r: RunRequest, key: string): IdemKey {
    IdemKey(r.tenantId, r.requester, "run.create", p.hash(Obj(map["idempotency_key" := Str(key)])))
  }

  /** A call of `create_run` of the service, with the ids it draws. */
  datatype RunCall = RunCall(request: RunRequest, key: string, eventId: string, outboxId: string)

  predicate BoundedKey(key: string) { 1 <= |key| <= 500 }

  function RequestRun(p: Platform, t: Tables, c: RunCall): (Result<string, Error>, Tables) {
    if !BoundedKey(c.key) then (Failure(BadArgument), t)
    else
      var runId := RunId(p, c.request, c.key);
      var event := RunEvent(p, c.request, runId, c.eventId);
      CreateRun(t, runId, c.request, event, c.outboxId, RunOutbox(event),
                RunKey(p, c.request, c.key), p.hash(RequestValue(c.request)), runId)
  }

  datatype DelegationCall = DelegationCall(
    runId: string, parent: string, child: Grant, key: string, eventId: string, outboxId: string)

  function DelegationRecord(p: Platform, c: DelegationCall): GrantRecord {
    var document := DocumentOf(p, c.child);
    var identity := Obj(map[
      "document" := document, "idempotency_key" := Str(c.key),
      "parent_grant_id" := Str(c.parent), "run_id" := Str(c.runId)]);
    GrantRecord("grant_" + p.short(identity), c.child.tenantId, c.child.caseId, c.runId, c.parent,
                document, p.hash(document), c.child.validUntil)
  }

  function Delegate(p: Platform, t: Tables, c: DelegationCall, now: int): (Result<string, Error>, Tables) {
    if c.runId == "" || c.parent == "" || !BoundedKey(c.key) then (Failure(BadArgument), t)
    else CreateDelegation(p, t, DelegationRecord(p, c), c.eventId, c.outboxId, now)
  }

  // ---------- what a successful call writes ----------

  /** When a delegation writes, what it writes; otherwise the tables are untouched. */
  lemma DelegationWrites(p: Platform, t: Tables, g: GrantRecord, eventId: string, outboxId: string, now: int)
    ensures var (r, u) := CreateDelegation(p, t, g, eventId, outboxId, now);
            u == t ||
            (r == Success(g.grantId) && DelegationRefusal(p, t, g, now) == None && g.grantId !in t.grants &&
             g.runId in t.runs && outboxId !in t.outbox &&
             var e := DelegationEvent(p, t, g, t.runs[g.runId], eventId);
             JournalAccepts(t, e) &&
             u == t.(grants := t.grants[g.grantId := StoredGrant(g, now)],
                     journal := t.journal + [e],
                     outbox := t.outbox[outboxId := OutboxRow(e.tenantId, "capability_grant", g.grantId,
                                                              "capability.delegated", e.body)]))
  {
  }

  lemma RunWrites(p: Platform, t: Tables, c: RunCall)
    ensures var (r, u) := RequestRun(p, t, c);
            var runId := RunId(p, c.request, c.key);
            var e := RunEvent(p, c.request, runId, c.eventId);
            var key := RunKey(p, c.request, c.key);
            u == t ||
            (r == Success(runId) && key !in t.idempotency && runId !in t.runs && c.outboxId !in t.outbox &&
             (forall x :: x in t.journal ==> x.eventId != e.eventId) &&
             u == t.(runs := t.runs[runId := c.request],
                     idempotency := t.idempotency[key := IdemRow(p.hash(RequestValue(c.request)), Some(runId))],
                     journal := t.journal + [e],
                     outbox := t.outbox[c.outboxId := RunOutbox(e)]))
  {
  }
}
