// Outbox rows against the records they announce: one row for each journal row,
// activity record and effect record, and no others.
module Announcements {
  import opened Wrappers
  import opened Json
  import opened ControlPlane
  import opened Journals
  import opened Activities

  // ---------- which outbox row a record must have ----------

  function GrantIdIn(body: Value): string {
    if body.Obj? && TextField(body.members, "grant_id").Some? then TextField(body.members, "grant_id").value else ""
  }

  /** Sequence 0 announces the run itself, later rows a delegation. */
  function JournalAnnouncement(e: JournalRow): OutboxRow {
    if e.sequence == 0 then
      OutboxRow(e.tenantId, "run", e.runId, "run.requested",
                Obj(map["event_id" := Str(e.eventId), "record_hash" := Str(e.recordHash)]))
    else OutboxRow(e.tenantId, "capability_grant", GrantIdIn(e.body), "capability.delegated", e.body)
  }

  function TextAt(r: Record, name: string): string {
    match TextField(r, name) case Some(text) => text case None => ""
  }

  function At(r: Record, name: string): Value { if name in r then r[name] else Null }

  /** An activity announces its id and hash under its own type of event. */
  function ActivityAnnouncement(r: Record): OutboxRow {
    OutboxRow(TextAt(r, "tenant_id"), "agent_activity", TextAt(r, "event_id"), TextAt(r, "event_type"),
              Obj(map["event_id" := At(r, "event_id"), "record_hash" := At(r, "record_hash")]))
  }

  function EffectEvent(kind: EffectKind): string {
    match kind
    case ExecutionReceipt => "effect." + "execution_receipt" + ".recorded"
    case Reconciliation => "effect." + "reconciliation" + ".recorded"
  }

  /** An effect record announces its identifier and hash. */
  function EffectAnnouncement(e: EffectRow): OutboxRow {
    OutboxRow(TextAt(e.document, "tenant_id"), "effect_record", e.recordId, EffectEvent(e.kind),
              Obj(map["record_id" := Str(e.recordId), "record_hash" := At(e.document, "record_hash")]))
  }

  lemma ActivityAnnounced(r: Record)
    requires InRunShape(r)
    ensures ActivityOutbox(r) == ActivityAnnouncement(r)
  {
  }

  lemma EventText(kind: EffectKind)
    ensures "effect." + KindText(kind) + ".recorded" == EffectEvent(kind)
  {
  }

  lemma EffectAnnounced(e: EffectRow)
    requires TextField(e.document, "tenant_id").Some? && "record_hash" in e.document
    ensures EffectOutbox(e.recordId, e.kind, e.document) == EffectAnnouncement(e)
  {
    EventText(e.kind);
  }

  // ---------- columns ----------

  predicate Distinct(ids: seq<string>) {
    forall i, j :: 0 <= i < j < |ids| ==> ids[i] != ids[j]
  }

  function IdSet(ids: seq<string>): set<string> { set i | 0 <= i < |ids| :: ids[i] }

  /** The rows of one table in order, each announced under its own outbox id. */
  predicate Column(outbox: map<string, OutboxRow>, ids: seq<string>, rows: seq<OutboxRow>) {
    && |ids| == |rows| && Distinct(ids)
    && forall i :: 0 <= i < |ids| ==> ids[i] in outbox && outbox[ids[i]] == rows[i]
  }

  lemma ColumnGrows(outbox: map<string, OutboxRow>, ids: seq<string>, rows: seq<OutboxRow>, id: string, row: OutboxRow)
    requires Column(outbox, ids, rows) && id !in outbox
    ensures Column(outbox[id := row], ids + [id], rows + [row])
    ensures IdSet(ids + [id]) == IdSet(ids) + {id}
  {
    var all := ids + [id];
    assert forall i :: 0 <= i < |ids| ==> all[i] == ids[i];
    assert all[|ids|] == id;
  }

  lemma ColumnKeeps(outbox: map<string, OutboxRow>, ids: seq<string>, rows: seq<OutboxRow>, id: string, row: OutboxRow)
    requires Column(outbox, ids, rows) && id !in outbox
    ensures Column(outbox[id := row], ids, rows)
    ensures id !in IdSet(ids)
  {
  }

  /** The outbox ids of each table's rows, in table order. */
  datatype Ledger = Ledger(journal: seq<string>, activities: seq<string>, effects: seq<string>)

  function JournalRows(t: Tables): seq<OutboxRow> { seq(|t.journal|, i requires 0 <= i < |t.journal| => JournalAnnouncement(t.journal[i])) }

  function ActivityRows(t: Tables): seq<OutboxRow> { seq(|t.activities|, i requires 0 <= i < |t.activities| => ActivityAnnouncement(t.activities[i])) }

  function EffectRows(t: Tables): seq<OutboxRow> { seq(|t.effects|, i requires 0 <= i < |t.effects| => EffectAnnouncement(t.effects[i])) }

  /** The outbox and the three tables are in bijection. */
  predicate Announces(t: Tables, w: Ledger) {
    && Column(t.outbox, w.journal, JournalRows(t))
    && Column(t.outbox, w.activities, ActivityRows(t))
    && Column(t.outbox, w.effects, EffectRows(t))
    && IdSet(w.journal) !! IdSet(w.activities) !! IdSet(w.effects)
    && IdSet(w.journal) + IdSet(w.activities) + IdSet(w.effects) == t.outbox.Keys
  }

  lemma AnnounceJournal(t: Tables, u: Tables, w: Ledger, e: JournalRow, id: string)
    requires Announces(t, w) && id !in t.outbox
    requires u.journal == t.journal + [e] && u.activities == t.activities && u.effects == t.effects
    requires u.outbox == t.outbox[id := JournalAnnouncement(e)]
    ensures Announces(u, w.(journal := w.journal + [id]))
  {
    var row := JournalAnnouncement(e);
    ColumnGrows(t.outbox, w.journal, JournalRows(t), id, row);
    ColumnKeeps(t.outbox, w.activities, ActivityRows(t), id, row);
    ColumnKeeps(t.outbox, w.effects, EffectRows(t), id, row);
    assert JournalRows(u) == JournalRows(t) + [row];
  }

  lemma AnnounceActivity(t: Tables, u: Tables, w: Ledger, r: Record, id: string)
    requires Announces(t, w) && id !in t.outbox
    requires u.activities == t.activities + [r] && u.journal == t.journal && u.effects == t.effects
    requires u.outbox == t.outbox[id := ActivityAnnouncement(r)]
    ensures Announces(u, w.(activities := w.activities + [id]))
  {
    var row := ActivityAnnouncement(r);
    ColumnGrows(t.outbox, w.activities, ActivityRows(t), id, row);
    ColumnKeeps(t.outbox, w.journal, JournalRows(t), id, row);
    ColumnKeeps(t.outbox, w.effects, EffectRows(t), id, row);
    assert ActivityRows(u) == ActivityRows(t) + [row];
  }

  lemma AnnounceEffect(t: Tables, u: Tables, w: Ledger, e: EffectRow, id: string)
    requires Announces(t, w) && id !in t.outbox
    requires u.effects == t.effects + [e] && u.journal == t.journal && u.activities == t.activities
    requires u.outbox == t.outbox[id := EffectAnnouncement(e)]
    ensures Announces(u, w.(effects := w.effects + [id]))
  {
    var row := EffectAnnouncement(e);
    ColumnGrows(t.outbox, w.effects, EffectRows(t), id, row);
    ColumnKeeps(t.outbox, w.journal, JournalRows(t), id, row);
    ColumnKeeps(t.outbox, w.activities, ActivityRows(t), id, row);
    assert EffectRows(u) == EffectRows(t) + [row];
  }

  lemma {:induction false} DistinctSize(ids: seq<string>)
    requires Distinct(ids)
    ensures |IdSet(ids)| == |ids|
  {
    if ids != [] {
      var front, last := ids[..|ids| - 1], ids[|ids| - 1];
      DistinctSize(front);
      assert forall i :: 0 <= i < |front| ==> front[i] == ids[i];
      assert IdSet(ids) == IdSet(front) + {last} by {
        assert forall x :: x in IdSet(front) ==> x in IdSet(ids);
      }
      assert last !in IdSet(front);
    }
  }

  /** Nothing is announced twice or left out: the counts agree. */
  lemma AnnouncementCount(t: Tables, w: Ledger)
    requires Announces(t, w)
    ensures |t.outbox| == |t.journal| + |t.activities| + |t.effects|
  {
    DistinctSize(w.journal);
    DistinctSize(w.activities);
    DistinctSize(w.effects);
    var a, b, c := IdSet(w.journal), IdSet(w.activities), IdSet(w.effects);
    assert |a + b| == |a| + |b|;
    assert |(a + b) + c| == |a + b| + |c|;
    assert |t.outbox| == |t.outbox.Keys|;
  }

  // ---------- the transactions ----------

  lemma RequestRunAnnounces(p: Platform, t: Tables, c: RunCall, w: Ledger) returns (w': Ledger)
    requires Announces(t, w)
    ensures Announces(RequestRun(p, t, c).1, w')
  {
    w' := w;
    RunWrites(p, t, c);
    var u := RequestRun(p, t, c).1;
    if u != t {
      AnnounceJournal(t, u, w, RunEvent(p, c.request, RunId(p, c.request, c.key), c.eventId), c.outboxId);
      w' := w.(journal := w.journal + [c.outboxId]);
    }
  }

  lemma DelegationAnnouncement(p: Platform, t: Tables, g: GrantRecord, scope: RunRequest, eventId: string)
    requires JournalInv(p, t) && g.runId in t.runs
    ensures var e := DelegationEvent(p, t, g, scope, eventId);
            JournalAnnouncement(e) ==
            OutboxRow(e.tenantId, "capability_grant", g.grantId, "capability.delegated", e.body)
  {
    DelegationEventLinked(p, t, g, scope, eventId);
  }

  lemma DelegateAnnounces(p: Platform, t: Tables, c: DelegationCall, now: int, w: Ledger) returns (w': Ledger)
    requires Announces(t, w) && JournalInv(p, t)
    ensures Announces(Delegate(p, t, c, now).1, w')
  {
    w' := w;
    var g := DelegationRecord(p, c);
    DelegationWrites(p, t, g, c.eventId, c.outboxId, now);
    var u := Delegate(p, t, c, now).1;
    if u != t {
      DelegationAnnouncement(p, t, g, t.runs[g.runId], c.eventId);
      AnnounceJournal(t, u, w, DelegationEvent(p, t, g, t.runs[g.runId], c.eventId), c.outboxId);
      w' := w.(journal := w.journal + [c.outboxId]);
    }
  }

  lemma {:induction false} AppendFromAnnounces(p: Platform, t: Tables, runId: string, records: seq<Record>,
                                               n: int, previous: Option<string>, w: Ledger) returns (w': Ledger)
    requires runId in t.runs && HaveIds(t.activities) && Announces(t, w)
    requires AppendFrom(p, t, runId, records, n, previous).Success?
    ensures Announces(AppendFrom(p, t, runId, records, n, previous).value, w')
    decreases |records|
  {
    w' := w;
    if records != [] {
      var r := records[0];
      AppendStep(p, t, runId, records, n, previous);
      var id := "outbox_" + EventId(r);
      ActivityAnnounced(r);
      AnnounceActivity(t, AddActivity(t, r), w, r, id);
      w' := AppendFromAnnounces(p, AddActivity(t, r), runId, records[1..], n + 1, TextField(r, "record_hash"),
                                w.(activities := w.activities + [id]));
    }
  }

  lemma AppendAnnounces(p: Platform, t: Tables, records: seq<Record>, w: Ledger) returns (w': Ledger)
    requires Announces(t, w) && HaveIds(t.activities)
    ensures Announces(AppendActivities(p, t, records).1, w')
  {
    w' := w;
    if AppendActivities(p, t, records).0.Success? {
      var runId := TextField(records[0], "run_id").value;
      var last := LatestActivity(ActivitiesOf(t.activities, runId));
      w' := AppendFromAnnounces(p, t, runId, records,
                                if last.None? then 0 else SequenceOf(last.value) + 1,
                                if last.None? then None else TextField(last.value, "record_hash"), w);
    }
  }

  // ---------- effect records ----------

  /** Stored effect documents recompute, under distinct ids, inside their runs. */
  predicate EffectInv(p: Platform, t: Tables) {
    && (forall i :: 0 <= i < |t.effects| ==> SoundEffect(p, t.runs, t.effects[i]))
    && (forall i, j :: 0 <= i < j < |t.effects| ==> t.effects[i].recordId != t.effects[j].recordId)
  }

  predicate SoundEffect(p: Platform, runs: map<string, RunRequest>, e: EffectRow) {
    && e.runId in runs
    && {"run_id", "tenant_id", "case_id", "record_hash"} <= e.document.Keys
    && e.document["run_id"] == Str(e.runId)
    && e.document["tenant_id"] == Str(runs[e.runId].tenantId)
    && e.document["case_id"] == Str(runs[e.runId].caseId)
    && e.document["record_hash"] == Str(p.hash(Payload(e.document)))
    && TextField(e.document, IdentityField(e.kind)) == Some(e.recordId)
  }

  lemma {:induction false} FindEffectFinds(rows: seq<EffectRow>, id: string)
    ensures FindEffect(rows, id).None? ==> forall i :: 0 <= i < |rows| ==> rows[i].recordId != id
    ensures FindEffect(rows, id).Some? ==> FindEffect(rows, id).value in rows && FindEffect(rows, id).value.recordId == id
  {
    if rows != [] && rows[0].recordId != id {
      FindEffectFinds(rows[1..], id);
      assert forall i :: 0 < i < |rows| ==> rows[i] == rows[1..][i - 1];
    }
  }

  /** A stored row that answers for a document. */
  predicate Recorded(u: Tables, kind: EffectKind, doc: Record) {
    exists e | e in u.effects ::
      e.kind == kind && Some(e.recordId) == TextField(doc, IdentityField(kind)) &&
      TextField(e.document, "record_hash") == TextField(doc, "record_hash")
  }

  /** What one successful pass writes. */
  lemma PersistWrites(p: Platform, t: Tables, runId: string, kind: EffectKind, doc: Record, now: int)
    requires runId in t.runs && PersistEffect(p, t, runId, kind, doc, now).Success?
    ensures var u := PersistEffect(p, t, runId, kind, doc, now).value;
            TextField(doc, IdentityField(kind)).Some? &&
            var id := TextField(doc, IdentityField(kind)).value;
            var e := EffectRow(id, kind, runId, doc, now);
            (u == t && FindEffect(t.effects, id).Some? && FindEffect(t.effects, id).value.kind == kind &&
             TextField(FindEffect(t.effects, id).value.document, "record_hash") == TextField(doc, "record_hash")) ||
            (SoundEffect(p, t.runs, e) && FindEffect(t.effects, id).None? && "outbox_" + id !in t.outbox &&
             u == t.(effects := t.effects + [e],
                     outbox := t.outbox["outbox_" + id := EffectAnnouncement(e)]))
  {
    var id := TextField(doc, IdentityField(kind)).value;
    EffectAnnounced(EffectRow(id, kind, runId, doc, now));
  }

  /** One document: stored and announced, or already there, or refused. */
  lemma PersistEffectStep(p: Platform, t: Tables, runId: string, kind: EffectKind, doc: Record, now: int, w: Ledger) returns (w': Ledger)
    requires runId in t.runs && EffectInv(p, t) && Announces(t, w)
    requires PersistEffect(p, t, runId, kind, doc, now).Success?
    ensures var u := PersistEffect(p, t, runId, kind, doc, now).value;
            EffectInv(p, u) && Announces(u, w') && EffectsOnly(t, u) && Recorded(u, kind, doc)
  {
    PersistWrites(p, t, runId, kind, doc, now);
    w' := w;
    var u := PersistEffect(p, t, runId, kind, doc, now).value;
    var id := TextField(doc, IdentityField(kind)).value;
    FindEffectFinds(t.effects, id);
    if FindEffect(t.effects, id).Some? {
      assert FindEffect(t.effects, id).value in u.effects;
    } else {
      var e := EffectRow(id, kind, runId, doc, now);
      AnnounceEffect(t, u, w, e, "outbox_" + id);
      EffectAdded(p, t, u, e);
      w' := w.(effects := w.effects + ["outbox_" + id]);
    }
  }

  lemma EffectAdded(p: Platform, t: Tables, u: Tables, e: EffectRow)
    requires EffectInv(p, t) && SoundEffect(p, t.runs, e)
    requires u.runs == t.runs && u.effects == t.effects + [e]
    requires forall i :: 0 <= i < |t.effects| ==> t.effects[i].recordId != e.recordId
    ensures EffectInv(p, u) && e in u.effects
  {
    assert u.effects[|t.effects|] == e;
  }

  /** Two states that differ in effect records and outbox only. */
  predicate EffectsOnly(t: Tables, u: Tables) {
    && u.runs == t.runs && u.journal == t.journal && u.grants == t.grants
    && u.idempotency == t.idempotency && u.activities == t.activities
  }

  lemma PersistKeeps(p: Platform, t: Tables, receipt: Record, reconciliation: Record, first: int, second: int, w: Ledger) returns (w': Ledger)
    requires EffectInv(p, t) && Announces(t, w)
    ensures var (r, u) := PersistEffects(p, t, receipt, reconciliation, first, second);
            EffectInv(p, u) && Announces(u, w') && EffectsOnly(t, u) && (r.Failure? ==> u == t)
  {
    w' := w;
    if PersistEffects(p, t, receipt, reconciliation, first, second).0.Success? {
      var runId := TextField(receipt, "run_id").value;
      w' := PersistEffectStep(p, t, runId, ExecutionReceipt, receipt, first, w);
      var t1 := PersistEffect(p, t, runId, ExecutionReceipt, receipt, first).value;
      w' := PersistEffectStep(p, t1, runId, Reconciliation, reconciliation, second, w');
    }
  }
}
