// Every state the control plane can reach, whatever calls are made in whatever
// order, and what repeated calls do.
module Reachable {
  import opened Wrappers
  import opened Hashing
  import opened KeyOrder
  import opened ControlPlane
  import opened Journals
  import opened Activities
  import opened GrantForest
  import opened Delegation
  import opened Announcements

  /** One transaction; each locks its run, so transactions do not overlap on one. */
  datatype Op =
    | Request(run: RunCall)
    | Root(id: string, runId: string, grant: Grant, now: int)
    | Delegation(call: DelegationCall, now: int)
    | Append(records: seq<Record>)
    | Persist(receipt: Record, reconciliation: Record, first: int, second: int)

  function Step(p: Platform, t: Tables, op: Op): Tables {
    match op
    case Request(c) => RequestRun(p, t, c).1
    case Root(id, runId, g, now) => InsertRoot(p, t, id, runId, g, now)
    case Delegation(c, now) => Delegate(p, t, c, now).1
    case Append(records) => AppendActivities(p, t, records).1
    case Persist(receipt, reconciliation, first, second) => PersistEffects(p, t, receipt, reconciliation, first, second).1
  }

  function Exec(p: Platform, t: Tables, ops: seq<Op>): Tables {
    if ops == [] then t else Step(p, Exec(p, t, ops[..|ops| - 1]), ops[|ops| - 1])
  }

  /** What holds of the tables, with the forest and the ledger that show it. */
  ghost predicate Inv(p: Platform, t: Tables, f: Forest, w: Ledger) {
    && JournalInv(p, t)
    && ActivityInv(p, t)
    && EffectInv(p, t)
    && Represents(p, t, f)
    && Announces(t, w)
    && forall k :: k in t.idempotency ==> t.idempotency[k].resultRef.Some?
  }

  lemma EmptyInv(p: Platform)
    ensures Inv(p, EMPTY, map[], Ledger([], [], []))
  {
  }

  /** A new run changes nothing for the records of the others. */
  lemma RunsGrow(p: Platform, t: Tables, u: Tables, runId: string, r: RunRequest)
    requires ActivityInv(p, t) && EffectInv(p, t) && runId !in t.runs
    requires u.runs == t.runs[runId := r] && u.activities == t.activities && u.effects == t.effects
    ensures ActivityInv(p, u) && EffectInv(p, u)
  {
    forall i | 0 <= i < |t.activities| ensures InSomeRun(u, t.activities[i]) { assert InSomeRun(t, t.activities[i]); }
    forall id | id in u.runs
      ensures Chain(p, ActivitiesOf(u.activities, id)) && Scoped(u, id, ActivitiesOf(u.activities, id))
    {
      if id == runId {
        NoActivitiesYet(t.activities, runId);
      } else {
        var rows := ActivitiesOf(t.activities, id);
        assert forall i :: 0 <= i < |rows| ==> InScope(u, id, rows[i]) == InScope(t, id, rows[i]);
      }
    }
    forall i | 0 <= i < |t.effects| ensures SoundEffect(p, u.runs, t.effects[i]) { assert SoundEffect(p, t.runs, t.effects[i]); }
  }

  lemma {:induction false} NoActivitiesYet(rows: seq<Record>, runId: string)
    requires forall i :: 0 <= i < |rows| ==> !InRun(rows[i], runId)
    ensures ActivitiesOf(rows, runId) == []
  {
    if rows != [] { NoActivitiesYet(rows[..|rows| - 1], runId); }
  }

  lemma SoundAfterRun(p: Platform, runs: map<string, RunRequest>, runId: string, r: RunRequest, row: GrantRow, g: Grant)
    requires SoundIn(p, runs)(row, g) && runId !in runs
    ensures SoundIn(p, runs[runId := r])(row, g)
  {
  }

  lemma RunsGrowForest(p: Platform, t: Tables, u: Tables, f: Forest, runId: string, r: RunRequest)
    requires Represents(p, t, f) && runId !in t.runs
    requires u.runs == t.runs[runId := r] && u.grants == t.grants
    ensures Represents(p, u, f)
  {
    forall id | id in f
      ensures SoundIn(p, u.runs)(u.grants[id], f[id].grant)
    {
      SoundAfterRun(p, t.runs, runId, r, t.grants[id], f[id].grant);
    }
  }

  /** Two requests with one hash are the same request, or these two clash. */
  lemma SameRequest(p: Platform, a: RunRequest, b: RunRequest)
    requires p.hash(RequestValue(a)) == p.hash(RequestValue(b))
    ensures a == b || Clash(p.hash, RequestValue(a), RequestValue(b))
  {
    if RequestValue(a) == RequestValue(b) {
      var m, n := RequestValue(a).members, RequestValue(b).members;
      assert m["tenant_id"] == n["tenant_id"] && m["case_id"] == n["case_id"];
      assert m["requester_subject"] == n["requester_subject"] && m["purpose"] == n["purpose"];
      assert m["audience"] == n["audience"] && m["risk_tier"] == n["risk_tier"];
      assert m["policy_version"] == n["policy_version"];
    }
  }

  lemma RequestKeeps(p: Platform, t: Tables, f: Forest, w: Ledger, c: RunCall) returns (w': Ledger)
    requires Inv(p, t, f, w)
    ensures Inv(p, RequestRun(p, t, c).1, f, w')
  {
    RequestRunKeepsJournal(p, t, c);
    w' := RequestRunAnnounces(p, t, c, w);
    RunWrites(p, t, c);
    var u := RequestRun(p, t, c).1;
    if u != t {
      RunsGrow(p, t, u, RunId(p, c.request, c.key), c.request);
      RunsGrowForest(p, t, u, f, RunId(p, c.request, c.key), c.request);
    } else {
      w' := w;
    }
  }

  lemma DelegationKeeps(p: Platform, t: Tables, f: Forest, w: Ledger, c: DelegationCall, now: int)
    returns (f': Forest, w': Ledger)
    requires p.Faithful() && Inv(p, t, f, w)
    ensures Inv(p, Delegate(p, t, c, now).1, f', w')
  {
    DelegateKeepsJournal(p, t, c, now);
    f' := DelegateKeepsGrants(p, t, f, c, now);
    w' := DelegateAnnounces(p, t, c, now, w);
    DelegationWrites(p, t, DelegationRecord(p, c), c.eventId, c.outboxId, now);
    SameRuns(p, t, Delegate(p, t, c, now).1);
  }

  lemma SameRuns(p: Platform, t: Tables, u: Tables)
    requires ActivityInv(p, t) && EffectInv(p, t)
    requires u.runs == t.runs && u.activities == t.activities && u.effects == t.effects
    ensures ActivityInv(p, u) && EffectInv(p, u)
  {
    ActivitiesElsewhere(p, t, u);
    SameEffects(p, t, u);
  }

  /** Inserting a root touches the grants only. */
  lemma GrantsOnly(p: Platform, t: Tables, u: Tables, w: Ledger)
    requires JournalInv(p, t) && ActivityInv(p, t) && EffectInv(p, t) && Announces(t, w)
    requires u == t.(grants := u.grants)
    ensures JournalInv(p, u) && ActivityInv(p, u) && EffectInv(p, u) && Announces(u, w)
  {
    SameRuns(p, t, u);
    assert JournalRows(u) == JournalRows(t) && ActivityRows(u) == ActivityRows(t) && EffectRows(u) == EffectRows(t);
  }

  lemma RootWrites(p: Platform, t: Tables, id: string, runId: string, g: Grant, now: int)
    ensures var u := InsertRoot(p, t, id, runId, g, now); u == t.(grants := u.grants)
  {
  }

  lemma RootKeeps(p: Platform, t: Tables, f: Forest, w: Ledger, id: string, runId: string, g: Grant, now: int)
    returns (f': Forest)
    requires p.Faithful() && Inv(p, t, f, w)
    ensures Inv(p, InsertRoot(p, t, id, runId, g, now), f', w)
  {
    f' := RootKeepsGrants(p, t, f, id, runId, g, now);
    RootWrites(p, t, id, runId, g, now);
    GrantsOnly(p, t, InsertRoot(p, t, id, runId, g, now), w);
  }

  lemma SameGrants(p: Platform, t: Tables, u: Tables, f: Forest)
    requires Represents(p, t, f) && u.runs == t.runs && u.grants == t.grants
    ensures Represents(p, u, f)
  {
  }

  lemma SameJournal(p: Platform, t: Tables, u: Tables)
    requires JournalInv(p, t) && u.runs == t.runs && u.journal == t.journal
    ensures JournalInv(p, u)
  {
  }

  lemma SameEffects(p: Platform, t: Tables, u: Tables)
    requires EffectInv(p, t) && u.runs == t.runs && u.effects == t.effects
    ensures EffectInv(p, u)
  {
  }

  lemma AppendKeeps(p: Platform, t: Tables, f: Forest, w: Ledger, records: seq<Record>) returns (w': Ledger)
    requires Inv(p, t, f, w)
    ensures Inv(p, AppendActivities(p, t, records).1, f, w')
  {
    var u := AppendActivities(p, t, records).1;
    AppendKeepsActivities(p, t, records);
    w' := AppendAnnounces(p, t, records, w);
    SameJournal(p, t, u);
    SameGrants(p, t, u, f);
    SameEffects(p, t, u);
  }

  lemma PersistKeepsAll(p: Platform, t: Tables, f: Forest, w: Ledger, receipt: Record, reconciliation: Record, first: int, second: int)
    returns (w': Ledger)
    requires Inv(p, t, f, w)
    ensures Inv(p, PersistEffects(p, t, receipt, reconciliation, first, second).1, f, w')
  {
    var u := PersistEffects(p, t, receipt, reconciliation, first, second).1;
    w' := PersistKeeps(p, t, receipt, reconciliation, first, second, w);
    SameJournal(p, t, u);
    SameGrants(p, t, u, f);
    ActivitiesElsewhere(p, t, u);
  }

  lemma ActivitiesElsewhere(p: Platform, t: Tables, u: Tables)
    requires ActivityInv(p, t) && u.runs == t.runs && u.activities == t.activities
    ensures ActivityInv(p, u)
  {
    forall i | 0 <= i < |t.activities| ensures InSomeRun(u, t.activities[i]) { assert InSomeRun(t, t.activities[i]); }
    forall id | id in u.runs
      ensures Scoped(u, id, ActivitiesOf(u.activities, id))
    {
      ScopedElsewhere(t, u, id, ActivitiesOf(t.activities, id));
    }
  }

  lemma StepKeeps(p: Platform, t: Tables, f: Forest, w: Ledger, op: Op) returns (f': Forest, w': Ledger)
    requires p.Faithful() && Inv(p, t, f, w)
    ensures Inv(p, Step(p, t, op), f', w')
  {
    f', w' := f, w;
    match op
    case Request(c) => w' := RequestKeeps(p, t, f, w, c);
    case Root(id, runId, g, now) => f' := RootKeeps(p, t, f, w, id, runId, g, now);
    case Delegation(c, now) => f', w' := DelegationKeeps(p, t, f, w, c, now);
    case Append(records) => w' := AppendKeeps(p, t, f, w, records);
    case Persist(receipt, reconciliation, first, second) => w' := PersistKeepsAll(p, t, f, w, receipt, reconciliation, first, second);
  }

  /** Every reachable state is chained, attenuated, announced and recomputable throughout. */
  lemma {:induction false} ReachableInv(p: Platform, ops: seq<Op>) returns (f: Forest, w: Ledger)
    requires p.Faithful()
    ensures Inv(p, Exec(p, EMPTY, ops), f, w)
  {
    if ops == [] {
      EmptyInv(p);
      f, w := map[], Ledger([], [], []);
    } else {
      f, w := ReachableInv(p, ops[..|ops| - 1]);
      f, w := StepKeeps(p, Exec(p, EMPTY, ops[..|ops| - 1]), f, w, ops[|ops| - 1]);
    }
  }

  // ---------- reconstruction ----------

  /** The batches committed for a run, in order. */
  function Committed(p: Platform, ops: seq<Op>, runId: string): seq<Record> {
    if ops == [] then []
    else
      var front, last := ops[..|ops| - 1], ops[|ops| - 1];
      Committed(p, front, runId) +
      (if last.Append? && AppendActivities(p, Exec(p, EMPTY, front), last.records).0.Success? &&
          InRun(last.records[0], runId)
       then last.records else [])
  }

  lemma StepActivities(p: Platform, t: Tables, op: Op, runId: string)
    requires ActivityInv(p, t)
    ensures ActivitiesOf(Step(p, t, op).activities, runId) ==
            ActivitiesOf(t.activities, runId) +
            (if op.Append? && AppendActivities(p, t, op.records).0.Success? && InRun(op.records[0], runId)
             then op.records else [])
  {
    if op.Append? {
      AppendActivitiesOf(p, t, op.records, runId);
    } else {
      OthersLeaveActivities(p, t, op);
    }
  }

  lemma AppendActivitiesOf(p: Platform, t: Tables, records: seq<Record>, runId: string)
    requires ActivityInv(p, t)
    ensures var (r, u) := AppendActivities(p, t, records);
            ActivitiesOf(u.activities, runId) ==
            ActivitiesOf(t.activities, runId) + (if r.Success? && InRun(records[0], runId) then records else [])
  {
    NoneAdded(ActivitiesOf(t.activities, runId), []);
    var (r, u) := AppendActivities(p, t, records);
    if r.Success? {
      var named := SuccessNames(p, t, records);
      AppendCall(p, t, records, named);
      assert ActivitiesOf(u.activities, runId) ==
             ActivitiesOf(t.activities, runId) + if runId == named then records else [];
    } else {
      AppendKeepsActivities(p, t, records);
    }
  }

  lemma SuccessNames(p: Platform, t: Tables, records: seq<Record>) returns (runId: string)
    requires AppendActivities(p, t, records).0.Success?
    ensures Names(t, records, runId)
  {
    runId := TextField(records[0], "run_id").value;
  }

  lemma OthersLeaveActivities(p: Platform, t: Tables, op: Op)
    requires !op.Append?
    ensures Step(p, t, op).activities == t.activities
  {
    match op
    case Request(c) => RunWrites(p, t, c);
    case Root(id, runId, g, now) => RootWrites(p, t, id, runId, g, now);
    case Delegation(c, now) => DelegationWrites(p, t, DelegationRecord(p, c), c.eventId, c.outboxId, now);
    case Persist(receipt, reconciliation, first, second) => PersistLeaves(p, t, receipt, reconciliation, first, second);
  }

  lemma PersistLeaves(p: Platform, t: Tables, receipt: Record, reconciliation: Record, first: int, second: int)
    ensures var u := PersistEffects(p, t, receipt, reconciliation, first, second).1;
            u.activities == t.activities && u.grants == t.grants && u.runs == t.runs && u.idempotency == t.idempotency &&
            u.journal == t.journal
  {
    if PersistEffects(p, t, receipt, reconciliation, first, second).0.Success? {
      var runId := TextField(receipt, "run_id").value;
      PersistWrites(p, t, runId, ExecutionReceipt, receipt, first);
      PersistWrites(p, PersistEffect(p, t, runId, ExecutionReceipt, receipt, first).value, runId, Reconciliation, reconciliation, second);
    }
  }

  /** In every reachable state reconstruction returns the committed batches, joined in order. */
  lemma {:induction false} ReconstructsCommitted(p: Platform, ops: seq<Op>, runId: string)
    requires p.Faithful()
    ensures ActivitiesOf(Exec(p, EMPTY, ops).activities, runId) == Committed(p, ops, runId)
    ensures runId in Exec(p, EMPTY, ops).runs ==>
              Reconstruct(p, Exec(p, EMPTY, ops), runId) == Some(Committed(p, ops, runId))
  {
    if ops != [] {
      var front := ops[..|ops| - 1];
      ReconstructsCommitted(p, front, runId);
      var f, w := ReachableInv(p, front);
      StepActivities(p, Exec(p, EMPTY, front), ops[|ops| - 1], runId);
    }
    var f, w := ReachableInv(p, ops);
    if runId in Exec(p, EMPTY, ops).runs { ReconstructSucceeds(p, Exec(p, EMPTY, ops), runId); }
  }

  lemma {:induction false} EffectsOfMembers(rows: seq<EffectRow>, runId: string)
    ensures forall e :: e in EffectsOf(rows, runId) <==> e in rows && e.runId == runId
  {
    if rows != [] {
      EffectsOfMembers(rows[1..], runId);
      assert rows == [rows[0]] + rows[1..];
    }
  }

  /** The earlier of two rows, or at one instant the one with the earlier identifier. */
  predicate InOrder(a: EffectRow, b: EffectRow) {
    && a.createdAt <= b.createdAt
    && (a.createdAt == b.createdAt ==> a.recordId == b.recordId || Before(CodePoint, a.recordId, b.recordId))
  }

  lemma InOrderExactly(a: EffectRow, b: EffectRow)
    ensures CreatedUpTo(a, b) <==> InOrder(a, b)
  {
    BeforeIsStrictTotal(CodePoint, a.recordId, b.recordId, a.recordId);
  }

  /** Rows in the order `created_at, record_id`. */
  predicate Chronological(rows: seq<EffectRow>) {
    forall i, j :: 0 <= i < j < |rows| ==> InOrder(rows[i], rows[j])
  }

  lemma {:induction false} InsertedByCreation(e: EffectRow, rows: seq<EffectRow>)
    requires Chronological(rows)
    ensures Chronological(InsertByCreation(e, rows))
    ensures multiset(InsertByCreation(e, rows)) == multiset(rows) + multiset{e}
    decreases |rows|
  {
    if rows != [] {
      assert rows == [rows[0]] + rows[1..];
      if CreatedUpTo(e, rows[0]) {
        forall i | 0 <= i < |rows| ensures InOrder(e, rows[i]) { OrderTransitive(e, rows[0], rows[i]); }
      } else {
        InsertedByCreation(e, rows[1..]);
        var r := InsertByCreation(e, rows[1..]);
        CreatedTotal(e, rows[0]);
        forall i | 0 <= i < |r| ensures InOrder(rows[0], r[i]) {
          assert r[i] in multiset(r);
          InOrderExactly(rows[0], e);
        }
      }
    }
  }

  lemma CreatedTransitive(a: EffectRow, b: EffectRow, c: EffectRow)
    requires CreatedUpTo(a, b) && (CreatedUpTo(b, c) || b == c)
    ensures CreatedUpTo(a, c)
  {
    BeforeIsStrictTotal(CodePoint, c.recordId, a.recordId, b.recordId);
    BeforeIsStrictTotal(CodePoint, b.recordId, c.recordId, a.recordId);
  }

  lemma OrderTransitive(a: EffectRow, b: EffectRow, c: EffectRow)
    requires CreatedUpTo(a, b) && (InOrder(b, c) || b == c)
    ensures InOrder(a, c)
  {
    InOrderExactly(b, c);
    CreatedTransitive(a, b, c);
    InOrderExactly(a, c);
  }

  lemma CreatedTotal(a: EffectRow, b: EffectRow)
    ensures CreatedUpTo(a, b) || CreatedUpTo(b, a)
  {
    BeforeIsStrictTotal(CodePoint, a.recordId, b.recordId, a.recordId);
  }

  /** The order loses and repeats nothing. */
  lemma {:induction false} SortedByCreation(rows: seq<EffectRow>)
    ensures Chronological(SortByCreation(rows)) && multiset(SortByCreation(rows)) == multiset(rows)
    decreases |rows|
  {
    if rows != [] {
      SortedByCreation(rows[1..]);
      InsertedByCreation(rows[0], SortByCreation(rows[1..]));
      assert rows == [rows[0]] + rows[1..];
    }
  }

  /** Sound rows, in whatever order, all recompute. */
  lemma DocumentsRecompute(p: Platform, t: Tables, rows: seq<EffectRow>)
    requires forall e :: e in rows ==> SoundEffect(p, t.runs, e)
    ensures forall i :: 0 <= i < |Documents(rows)| ==> Recomputes(p, Documents(rows)[i])
  {
    forall i | 0 <= i < |rows| ensures Recomputes(p, Documents(rows)[i]) { assert SoundEffect(p, t.runs, rows[i]); }
  }

  /** In every reachable state loading returns all of a run's effect records, in order of creation. */
  lemma EffectsLoad(p: Platform, ops: seq<Op>, runId: string) returns (rows: seq<EffectRow>)
    requires p.Faithful()
    ensures var t := Exec(p, EMPTY, ops);
            LoadEffects(p, t, runId) == Some(Documents(rows)) &&
            Chronological(rows) && multiset(rows) == multiset(EffectsOf(t.effects, runId))
  {
    var f, w := ReachableInv(p, ops);
    var t := Exec(p, EMPTY, ops);
    rows := SortByCreation(EffectsOf(t.effects, runId));
    SortedByCreation(EffectsOf(t.effects, runId));
    EffectsOfMembers(t.effects, runId);
    forall e | e in rows ensures SoundEffect(p, t.runs, e) { assert e in multiset(rows); }
    DocumentsRecompute(p, t, rows);
  }

  // ---------- repeated calls ----------

  predicate Commits(p: Platform, t: Tables, c: RunCall) { RequestRun(p, t, c).1 != t }

  /** The run-creation calls that committed. */
  function Kept(p: Platform, ops: seq<Op>): seq<RunCall> {
    if ops == [] then []
    else
      var front, last := ops[..|ops| - 1], ops[|ops| - 1];
      Kept(p, front) + if last.Request? && Commits(p, Exec(p, EMPTY, front), last.run) then [last.run] else []
  }

  /** The log without the run-creation calls that did not commit. */
  function WithoutReplays(p: Platform, ops: seq<Op>): seq<Op> {
    if ops == [] then []
    else
      var front, last := ops[..|ops| - 1], ops[|ops| - 1];
      WithoutReplays(p, front) + if last.Request? && !Commits(p, Exec(p, EMPTY, front), last.run) then [] else [last]
  }

  function KeyOf(p: Platform, c: RunCall): IdemKey { RunKey(p, c.request, c.key) }

  /** The row a committed call leaves under its key. */
  function RowFor(p: Platform, c: RunCall): IdemRow {
    IdemRow(p.hash(RequestValue(c.request)), Some(RunId(p, c.request, c.key)))
  }

  /** The idempotency table lists exactly the kept calls, each key once. */
  predicate Listed(p: Platform, idempotency: map<IdemKey, IdemRow>, kept: seq<RunCall>) {
    && (forall i, j :: 0 <= i < j < |kept| ==> KeyOf(p, kept[i]) != KeyOf(p, kept[j]))
    && (forall i :: 0 <= i < |kept| ==> KeyOf(p, kept[i]) in idempotency && idempotency[KeyOf(p, kept[i])] == RowFor(p, kept[i]))
    && (forall k :: k in idempotency ==> exists i :: 0 <= i < |kept| && KeyOf(p, kept[i]) == k)
  }

  lemma ListedGrows(p: Platform, m: map<IdemKey, IdemRow>, kept: seq<RunCall>, c: RunCall)
    requires Listed(p, m, kept) && KeyOf(p, c) !in m
    ensures Listed(p, m[KeyOf(p, c) := RowFor(p, c)], kept + [c])
  {
    var n, all := m[KeyOf(p, c) := RowFor(p, c)], kept + [c];
    assert all[|kept|] == c && forall i :: 0 <= i < |kept| ==> all[i] == kept[i];
    forall k | k in n
      ensures exists i :: 0 <= i < |all| && KeyOf(p, all[i]) == k
    {
      if k == KeyOf(p, c) {
        assert KeyOf(p, all[|kept|]) == k;
      } else {
        var i :| 0 <= i < |kept| && KeyOf(p, kept[i]) == k;
        assert KeyOf(p, all[i]) == k;
      }
    }
  }

  /** Only run creation writes the idempotency table. */
  lemma KeysElsewhere(p: Platform, t: Tables, op: Op)
    requires !op.Request?
    ensures Step(p, t, op).idempotency == t.idempotency
  {
    match op
    case Root(_, _, _, _) =>
    case Delegation(c, now) => DelegationWrites(p, t, DelegationRecord(p, c), c.eventId, c.outboxId, now);
    case Append(records) => AppendLeaves(p, t, records);
    case Persist(receipt, reconciliation, first, second) => PersistLeaves(p, t, receipt, reconciliation, first, second);
  }

  lemma ListedStep(p: Platform, t: Tables, kept: seq<RunCall>, op: Op)
    requires Listed(p, t.idempotency, kept)
    ensures Listed(p, Step(p, t, op).idempotency,
                   kept + if op.Request? && Commits(p, t, op.run) then [op.run] else [])
  {
    assert kept + [] == kept;
    if op.Request? {
      RunWrites(p, t, op.run);
      if Commits(p, t, op.run) { ListedGrows(p, t.idempotency, kept, op.run); }
    } else {
      KeysElsewhere(p, t, op);
    }
  }

  lemma ExecNext(p: Platform, t: Tables, ops: seq<Op>, op: Op)
    ensures Exec(p, t, ops + [op]) == Step(p, Exec(p, t, ops), op)
  {
    assert (ops + [op])[..|ops|] == ops;
  }

  /**
   * The run-creation calls that did not commit leave no trace, among whatever other
   * operations; the idempotency table lists those that did, each key once.
   */
  lemma {:induction false} ReplaysAddNothing(p: Platform, ops: seq<Op>)
    ensures Exec(p, EMPTY, WithoutReplays(p, ops)) == Exec(p, EMPTY, ops)
    ensures Listed(p, Exec(p, EMPTY, ops).idempotency, Kept(p, ops))
  {
    if ops != [] {
      var front, last := ops[..|ops| - 1], ops[|ops| - 1];
      ReplaysAddNothing(p, front);
      ListedStep(p, Exec(p, EMPTY, front), Kept(p, front), last);
      ExecNext(p, EMPTY, WithoutReplays(p, front), last);
      assert WithoutReplays(p, front) + [] == WithoutReplays(p, front);
    }
  }

  /** A call whose key is taken: the state stays, and only the same request is answered. */
  lemma KnownKey(p: Platform, t: Tables, kept: seq<RunCall>, i: nat, c: RunCall)
    requires Listed(p, t.idempotency, kept) && i < |kept| && KeyOf(p, kept[i]) == KeyOf(p, c)
    requires BoundedKey(c.key)
    ensures RequestRun(p, t, c).1 == t
    ensures RequestRun(p, t, c).0 ==
            if p.hash(RequestValue(kept[i].request)) == p.hash(RequestValue(c.request))
            then Success(RunId(p, kept[i].request, kept[i].key)) else Failure(ReusedKey)
  {
  }

  /** A call with a new key commits its run or hits a constraint. */
  lemma NewKey(p: Platform, t: Tables, c: RunCall)
    requires KeyOf(p, c) !in t.idempotency && BoundedKey(c.key)
    ensures var (r, u) := RequestRun(p, t, c);
            (r == Success(RunId(p, c.request, c.key)) && u != t && RunId(p, c.request, c.key) in u.runs) ||
            (r == Failure(Constraint) && u == t)
  {
    assert RequestRun(p, t, c).0.Success? ==> KeyOf(p, c) in RequestRun(p, t, c).1.idempotency;
  }

  /**
   * The outcome of the next run-creation call after any operations.  If a committed call has its key, the
   * state stays and the answer is that call's run id or, for another request, the
   * reuse error; otherwise it commits or hits a constraint.  No call ever finds a
   * key without a result.
   */
  lemma NextCall(p: Platform, ops: seq<Op>, c: RunCall)
    ensures var t, kept := Exec(p, EMPTY, ops), Kept(p, ops);
            var (r, u) := RequestRun(p, t, c);
            r != Failure(NoCommittedResult) &&
            if !BoundedKey(c.key) then r == Failure(BadArgument) && u == t
            else if i: nat :| i < |kept| && KeyOf(p, kept[i]) == KeyOf(p, c) then
              u == t &&
              r == (if p.hash(RequestValue(kept[i].request)) == p.hash(RequestValue(c.request))
                    then Success(RunId(p, kept[i].request, kept[i].key)) else Failure(ReusedKey))
            else
              (r == Success(RunId(p, c.request, c.key)) && u != t) || (r == Failure(Constraint) && u == t)
  {
    var t, kept := Exec(p, EMPTY, ops), Kept(p, ops);
    ReplaysAddNothing(p, ops);
    if BoundedKey(c.key) {
      if i: nat :| i < |kept| && KeyOf(p, kept[i]) == KeyOf(p, c) {
        KnownKey(p, t, kept, i, c);
      } else {
        NewKey(p, t, c);
      }
    }
  }

  // ---------- repeated delegations ----------

  /** Stored grants are never replaced. */
  lemma GrantsStay(p: Platform, t: Tables, op: Op, id: string)
    requires id in t.grants
    ensures id in Step(p, t, op).grants && Step(p, t, op).grants[id] == t.grants[id]
  {
    match op
    case Request(c) => RunWrites(p, t, c);
    case Root(_, _, _, _) =>
    case Delegation(c, now) => DelegationWrites(p, t, DelegationRecord(p, c), c.eventId, c.outboxId, now);
    case Append(records) => AppendLeaves(p, t, records);
    case Persist(receipt, reconciliation, first, second) => PersistLeaves(p, t, receipt, reconciliation, first, second);
  }

  lemma AppendLeaves(p: Platform, t: Tables, records: seq<Record>)
    ensures var u := AppendActivities(p, t, records).1;
            u.grants == t.grants && u.runs == t.runs && u.idempotency == t.idempotency && u.effects == t.effects && u.journal == t.journal
  {
    if AppendActivities(p, t, records).0.Success? {
      var runId := TextField(records[0], "run_id").value;
      var last := LatestActivity(ActivitiesOf(t.activities, runId));
      AppendFromLeaves(p, t, runId, records, if last.None? then 0 else SequenceOf(last.value) + 1,
                       if last.None? then None else TextField(last.value, "record_hash"));
    }
  }

  lemma {:induction false} AppendFromLeaves(p: Platform, t: Tables, runId: string, records: seq<Record>,
                                            n: int, previous: Option<string>)
    requires runId in t.runs && AppendFrom(p, t, runId, records, n, previous).Success?
    ensures var u := AppendFrom(p, t, runId, records, n, previous).value;
            u.grants == t.grants && u.runs == t.runs && u.idempotency == t.idempotency && u.effects == t.effects && u.journal == t.journal
    decreases |records|
  {
    if records != [] {
      var t1 := AppendOne(p, t, runId, records[0], n, previous).value;
      AppendFromLeaves(p, t1, runId, records[1..], n + 1, TextField(records[0], "record_hash"));
    }
  }

  /** Runs are never replaced either. */
  lemma RunsStay(p: Platform, t: Tables, op: Op, id: string)
    requires id in t.runs
    ensures id in Step(p, t, op).runs && Step(p, t, op).runs[id] == t.runs[id]
  {
    match op
    case Request(c) => RunWrites(p, t, c);
    case Root(_, _, _, _) =>
    case Delegation(c, now) => DelegationWrites(p, t, DelegationRecord(p, c), c.eventId, c.outboxId, now);
    case Append(records) => AppendLeaves(p, t, records);
    case Persist(receipt, reconciliation, first, second) => PersistLeaves(p, t, receipt, reconciliation, first, second);
  }

  lemma {:induction false} RowsStay(p: Platform, t: Tables, ops: seq<Op>, runId: string, id: string)
    requires runId in t.runs && id in t.grants
    ensures var u := Exec(p, t, ops);
            runId in u.runs && u.runs[runId] == t.runs[runId] && id in u.grants && u.grants[id] == t.grants[id]
  {
    if ops != [] {
      var front, last := ops[..|ops| - 1], ops[|ops| - 1];
      RowsStay(p, t, front, runId, id);
      RunsStay(p, Exec(p, t, front), last, runId);
      GrantsStay(p, Exec(p, t, front), last, id);
    }
  }

  /** After a successful delegation its run, its parent and its grant are stored. */
  lemma DelegationStored(p: Platform, t: Tables, c: DelegationCall, at: int)
    requires Delegate(p, t, c, at).0.Success?
    ensures var (g, u) := (DelegationRecord(p, c), Delegate(p, t, c, at).1);
            && DelegationRefusal(p, t, g, at) == None
            && c.runId in t.runs && c.parent in t.grants
            && u.runs == t.runs && c.parent in u.grants && u.grants[c.parent] == t.grants[c.parent]
            && g.grantId in u.grants && u.grants[g.grantId].parent == Some(c.parent)
            && u.grants[g.grantId].grantHash == g.grantHash
  {
    DelegationWrites(p, t, DelegationRecord(p, c), c.eventId, c.outboxId, at);
  }

  /** Where run and parent are the same rows, only the parent's expiry can turn a check. */
  lemma RefusalOverTime(p: Platform, t: Tables, u: Tables, g: GrantRecord, at: int, now: int)
    requires DelegationRefusal(p, t, g, at) == None
    requires g.runId in u.runs && u.runs[g.runId] == t.runs[g.runId]
    requires g.parent in u.grants && u.grants[g.parent] == t.grants[g.parent]
    ensures DelegationRefusal(p, u, g, now) == if now < t.grants[g.parent].validUntil then None else Some(ParentExpired)
  {
  }

  /** The same delegation, asked for again with new event and outbox ids. */
  predicate SameDelegation(c: DelegationCall, d: DelegationCall) {
    d.runId == c.runId && d.parent == c.parent && d.child == c.child && d.key == c.key
  }

  /**
   * Once a delegation has succeeded, asking for it again adds no rows, whatever
   * happened in between; it answers the first grant id until the parent expires.
   */
  lemma DelegationReplay(p: Platform, t: Tables, c: DelegationCall, at: int, ops: seq<Op>, d: DelegationCall, now: int)
    requires Delegate(p, t, c, at).0.Success? && SameDelegation(c, d)
    ensures var u := Exec(p, Delegate(p, t, c, at).1, ops);
            var (r, v) := Delegate(p, u, d, now);
            && v == u
            && c.parent in t.grants
            && r == if now < t.grants[c.parent].validUntil then Delegate(p, t, c, at).0 else Failure(ParentExpired)
  {
    var g, t1 := DelegationRecord(p, c), Delegate(p, t, c, at).1;
    DelegationStored(p, t, c, at);
    RowsStay(p, t1, ops, c.runId, c.parent);
    RowsStay(p, t1, ops, c.runId, g.grantId);
    assert DelegationRecord(p, d) == g;
    RefusalOverTime(p, t, Exec(p, t1, ops), g, at, now);
  }
}
