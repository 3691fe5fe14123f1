// Agent activity records: batches, reconstruction and tamper evidence.
module Activities {
  import opened Wrappers
  import opened Hashing
  import opened Json
  import opened ControlPlane

  // ---------- tamper evidence ----------

  lemma SameHashSameRecord(p: Platform, a: Record, b: Record)
    requires "record_hash" in a && "record_hash" in b
    requires a["record_hash"] == b["record_hash"]
    requires a["record_hash"] == Str(p.hash(Payload(a))) && b["record_hash"] == Str(p.hash(Payload(b)))
    ensures a == b || Clash(p.hash, Payload(a), Payload(b))
  {
    if Payload(a) == Payload(b) {
      var k := "record_hash";
      assert a - {k} == b - {k};
      assert a == (a - {k})[k := a[k]] && b == (b - {k})[k := b[k]];
    }
  }

  /** Linked records of one hash agree in everything, their place included. */
  lemma SameHashSamePlace(p: Platform, a: Record, m: int, x: Option<string>, b: Record, n: int, y: Option<string>)
    requires Linked(p, a, m, x) && Linked(p, b, n, y)
    requires TextField(a, "record_hash") == TextField(b, "record_hash")
    ensures (a == b && m == n && x == y) || Clash(p.hash, Payload(a), Payload(b))
  {
    SameHashSameRecord(p, a, b);
  }

  /** Some record of one list and some record of the other have one digest. */
  ghost predicate RecordsClash(p: Platform, a: seq<Record>, b: seq<Record>) {
    exists i, j :: 0 <= i < |a| && 0 <= j < |b| && Clash(p.hash, Payload(a[i]), Payload(b[j]))
  }

  /**
   * Two non-empty lists that pass reconstruction and end in the same record hash
   * are the same list, unless a record of one and a record of the other clash.
   */
  lemma {:induction false} TamperEvident(p: Platform, a: seq<Record>, b: seq<Record>)
    requires Chain(p, a) && Chain(p, b) && a != [] && b != []
    requires PreviousHash(a, |a|) == PreviousHash(b, |b|)
    ensures a == b || RecordsClash(p, a, b)
  {
    var m, n := |a| - 1, |b| - 1;
    assert Linked(p, a[m], m, PreviousHash(a, m)) && Linked(p, b[n], n, PreviousHash(b, n));
    SameHashSamePlace(p, a[m], m, PreviousHash(a, m), b[n], n, PreviousHash(b, n));
    if a[m] == b[n] && m == n && PreviousHash(a, m) == PreviousHash(b, n) {
      if m > 0 {
        PrefixChain(p, a, m);
        PrefixChain(p, b, n);
        assert PreviousHash(a[..m], m) == PreviousHash(a, m) && PreviousHash(b[..n], n) == PreviousHash(b, n);
        TamperEvident(p, a[..m], b[..n]);
        if RecordsClash(p, a[..m], b[..n]) {
          var i, j :| 0 <= i < m && 0 <= j < n && Clash(p.hash, Payload(a[..m][i]), Payload(b[..n][j]));
          assert Clash(p.hash, Payload(a[i]), Payload(b[j]));
        }
      }
      assert a == a[..m] + [a[m]] && b == b[..n] + [b[n]];
    }
  }

  lemma PrefixChain(p: Platform, rows: seq<Record>, n: nat)
    requires Chain(p, rows) && n <= |rows|
    ensures Chain(p, rows[..n])
  {
    var r := rows[..n];
    forall i | 0 <= i < |r|
      ensures Linked(p, r[i], i, PreviousHash(r, i))
    {
      assert PreviousHash(r, i) == PreviousHash(rows, i);
      assert Linked(p, rows[i], i, PreviousHash(rows, i));
    }
  }

  // ---------- appending a batch ----------

  /** The scope and column checks on one record, apart from its place in the chain. */
  predicate InScope(t: Tables, runId: string, r: Record)
    requires runId in t.runs
  {
    && ACTIVITY_FIELDS <= r.Keys
    && r["run_id"] == Str(runId)
    && r["tenant_id"] == Str(t.runs[runId].tenantId) && r["case_id"] == Str(t.runs[runId].caseId)
    && r["event_id"].Str? && r["event_type"].Str?
  }

  function EventId(r: Record): string {
    if "event_id" in r && r["event_id"].Str? then r["event_id"].text else ""
  }

  function EventIds(rows: seq<Record>): set<string> { set i | 0 <= i < |rows| :: EventId(rows[i]) }

  /** The event ids of a batch are distinct and new to both tables. */
  predicate FreshIds(used: set<string>, outbox: set<string>, records: seq<Record>) {
    && (forall i, j :: 0 <= i < j < |records| ==> EventId(records[i]) != EventId(records[j]))
    && (forall i :: 0 <= i < |records| ==>
          EventId(records[i]) !in used && "outbox_" + EventId(records[i]) !in outbox)
  }

  predicate Scoped(t: Tables, runId: string, records: seq<Record>)
    requires runId in t.runs
  {
    forall i :: 0 <= i < |records| ==> InScope(t, runId, records[i])
  }

  predicate HaveIds(rows: seq<Record>) {
    forall i :: 0 <= i < |rows| ==> TextField(rows[i], "event_id").Some?
  }

  /** The tables after one accepted record. */
  function AddActivity(t: Tables, r: Record): Tables
    requires InRunShape(r)
  {
    t.(activities := t.activities + [r],
       outbox := t.outbox["outbox_" + EventId(r) := ActivityOutbox(r)])
  }

  predicate InRunShape(r: Record) {
    && TextField(r, "event_id").Some? && TextField(r, "event_type").Some?
    && TextField(r, "tenant_id").Some? && "record_hash" in r
  }

  /** What the loop body decides about the next record. */
  lemma AppendStep(p: Platform, t: Tables, runId: string, records: seq<Record>, n: int, previous: Option<string>)
    requires runId in t.runs && records != [] && HaveIds(t.activities)
    ensures var r := records[0];
            var ok := InScope(t, runId, r) && Linked(p, r, n, previous) &&
                      EventId(r) !in EventIds(t.activities) && "outbox_" + EventId(r) !in t.outbox;
            var result := AppendFrom(p, t, runId, records, n, previous);
            (!ok ==> result.Failure?) &&
            (ok ==> InRunShape(r) && TextField(r, "record_hash").Some? &&
                    result == AppendFrom(p, AddActivity(t, r), runId, records[1..], n + 1, TextField(r, "record_hash")))
  {
    var r := records[0];
    if InScope(t, runId, r) {
      IdUsed(t.activities, r);
    }
  }

  lemma IdUsed(rows: seq<Record>, r: Record)
    requires HaveIds(rows) && TextField(r, "event_id").Some?
    ensures EventId(r) in EventIds(rows) <==> exists x :: x in rows && TextField(x, "event_id") == TextField(r, "event_id")
  {
    if EventId(r) in EventIds(rows) {
      var i :| 0 <= i < |rows| && EventId(rows[i]) == EventId(r);
      assert rows[i] in rows && TextField(rows[i], "event_id").Some?;
    }
    if x :| x in rows && TextField(x, "event_id") == TextField(r, "event_id") {
      var i :| 0 <= i < |rows| && rows[i] == x;
      assert EventId(rows[i]) == EventId(r);
    }
  }

  lemma FreshSplit(used: set<string>, outbox: set<string>, records: seq<Record>)
    requires records != []
    ensures var id := EventId(records[0]);
            FreshIds(used, outbox, records) <==>
            id !in used && "outbox_" + id !in outbox &&
            FreshIds(used + {id}, outbox + {"outbox_" + id}, records[1..])
  {
    var id, rest := EventId(records[0]), records[1..];
    if FreshIds(used, outbox, records) {
      assert forall i :: 0 <= i < |rest| ==> rest[i] == records[i + 1];
      forall i | 0 <= i < |rest|
        ensures "outbox_" + EventId(rest[i]) != "outbox_" + id
      {
        SamePrefix("outbox_", EventId(rest[i]), id);
      }
    }
    if id !in used && "outbox_" + id !in outbox && FreshIds(used + {id}, outbox + {"outbox_" + id}, rest) {
      assert forall i :: 0 < i < |records| ==> records[i] == rest[i - 1];
    }
  }

  lemma SamePrefix(prefix: string, a: string, b: string)
    ensures prefix + a == prefix + b ==> a == b
  {
    assert (prefix + a)[|prefix|..] == a && (prefix + b)[|prefix|..] == b;
  }

  lemma EventIdsSnoc(rows: seq<Record>, r: Record)
    ensures EventIds(rows + [r]) == EventIds(rows) + {EventId(r)}
  {
    var all := rows + [r];
    assert forall i :: 0 <= i < |rows| ==> all[i] == rows[i];
    assert all[|rows|] == r;
  }

  /** A batch that continues the chain of its run, in scope, with fresh event ids. */
  predicate Committable(p: Platform, t: Tables, runId: string, existing: seq<Record>, records: seq<Record>)
    requires runId in t.runs
  {
    && Chain(p, existing + records)
    && Scoped(t, runId, records)
    && FreshIds(EventIds(t.activities), t.outbox.Keys, records)
  }

  predicate NextCommittable(p: Platform, t: Tables, runId: string, existing: seq<Record>, r: Record)
    requires runId in t.runs
  {
    && InScope(t, runId, r) && Linked(p, r, |existing|, PreviousHash(existing, |existing|))
    && EventId(r) !in EventIds(t.activities) && "outbox_" + EventId(r) !in t.outbox
  }

  lemma CommittableStep(p: Platform, t: Tables, runId: string, existing: seq<Record>, records: seq<Record>)
    requires runId in t.runs && Chain(p, existing) && records != []
    ensures var r := records[0];
            Committable(p, t, runId, existing, records) <==>
            NextCommittable(p, t, runId, existing, r) &&
            Committable(p, AddActivity(t, r), runId, existing + [r], records[1..])
  {
    var r := records[0];
    FreshSplit(EventIds(t.activities), t.outbox.Keys, records);
    ChainSplit(p, existing, records);
    ScopedSplit(t, runId, records);
    if NextCommittable(p, t, runId, existing, r) {
      var t1 := AddActivity(t, r);
      EventIdsSnoc(t.activities, r);
      assert t1.outbox.Keys == t.outbox.Keys + {"outbox_" + EventId(r)};
      assert Scoped(t1, runId, records[1..]) == Scoped(t, runId, records[1..]);
    }
  }

  /** Two states that differ in activities and outbox only. */
  predicate SameElsewhere(t: Tables, u: Tables) {
    && u.runs == t.runs && u.journal == t.journal && u.grants == t.grants
    && u.idempotency == t.idempotency && u.effects == t.effects
  }

  lemma Shift(rows: seq<Record>, records: seq<Record>)
    requires records != []
    ensures (rows + [records[0]]) + records[1..] == rows + records
  {
  }

  lemma NoneAdded(rows: seq<Record>, records: seq<Record>)
    requires records == []
    ensures rows + records == rows
  {
  }

  /** A batch is committed exactly when it is committable; then exactly its records are added. */
  lemma {:induction false} AppendIff(p: Platform, t: Tables, runId: string, existing: seq<Record>, records: seq<Record>)
    requires runId in t.runs && HaveIds(t.activities) && Chain(p, existing)
    ensures var r := AppendFrom(p, t, runId, records, |existing|, PreviousHash(existing, |existing|));
            (r.Success? <==> Committable(p, t, runId, existing, records)) &&
            (r.Success? ==> r.value.activities == t.activities + records && SameElsewhere(t, r.value))
    decreases |records|
  {
    if records == [] {
      NoneAdded(existing, records);
      NoneAdded(t.activities, records);
    } else {
      var r, rest := records[0], records[1..];
      AppendStep(p, t, runId, records, |existing|, PreviousHash(existing, |existing|));
      CommittableStep(p, t, runId, existing, records);
      if NextCommittable(p, t, runId, existing, r) {
        var t1 := AddActivity(t, r);
        NextPrevious(existing, r);
        ChainExtend(p, existing, r);
        AppendIff(p, t1, runId, existing + [r], rest);
        Shift(t.activities, records);
      }
    }
  }

  lemma NextPrevious(existing: seq<Record>, r: Record)
    ensures PreviousHash(existing + [r], |existing + [r]|) == TextField(r, "record_hash")
  {
  }

  lemma ScopedSplit(t: Tables, runId: string, records: seq<Record>)
    requires runId in t.runs && records != []
    ensures Scoped(t, runId, records) <==> InScope(t, runId, records[0]) && Scoped(t, runId, records[1..])
  {
    var rest := records[1..];
    assert forall i :: 0 <= i < |rest| ==> rest[i] == records[i + 1];
    assert forall i :: 0 < i < |records| ==> records[i] == rest[i - 1];
  }

  lemma ChainSplit(p: Platform, existing: seq<Record>, records: seq<Record>)
    requires Chain(p, existing) && records != []
    ensures existing + records == (existing + [records[0]]) + records[1..]
    ensures Chain(p, existing + records) ==> Linked(p, records[0], |existing|, PreviousHash(existing, |existing|))
    ensures Linked(p, records[0], |existing|, PreviousHash(existing, |existing|)) ==> Chain(p, existing + [records[0]])
  {
    var all, n := existing + records, |existing|;
    assert PreviousHash(all, n) == PreviousHash(existing, n) && all[n] == records[0];
    assert Chain(p, all) ==> Linked(p, all[n], n, PreviousHash(all, n));
    if Linked(p, records[0], n, PreviousHash(existing, n)) { ChainExtend(p, existing, records[0]); }
  }

  lemma ChainExtend(p: Platform, rows: seq<Record>, r: Record)
    requires Chain(p, rows) && Linked(p, r, |rows|, PreviousHash(rows, |rows|))
    ensures Chain(p, rows + [r])
  {
    var s := rows + [r];
    forall i | 0 <= i < |s|
      ensures Linked(p, s[i], i, PreviousHash(s, i))
    {
      assert PreviousHash(s, i) == PreviousHash(rows, i);
      if i < |rows| { assert Linked(p, rows[i], i, PreviousHash(rows, i)); }
    }
  }

  // ---------- whole calls ----------

  predicate ActivityInv(p: Platform, t: Tables) {
    && HaveIds(t.activities)
    && (forall i, j :: 0 <= i < j < |t.activities| ==> EventId(t.activities[i]) != EventId(t.activities[j]))
    && (forall i :: 0 <= i < |t.activities| ==> InSomeRun(t, t.activities[i]))
    && (forall id :: id in t.runs ==> Chain(p, ActivitiesOf(t.activities, id)) &&
                                      Scoped(t, id, ActivitiesOf(t.activities, id)))
  }

  predicate InSomeRun(t: Tables, r: Record) {
    TextField(r, "run_id").Some? && TextField(r, "run_id").value in t.runs
  }

  lemma {:induction false} ActivitiesOfJoin(rows: seq<Record>, records: seq<Record>, id: string)
    ensures ActivitiesOf(rows + records, id) == ActivitiesOf(rows, id) + ActivitiesOf(records, id)
  {
    if records == [] {
      assert rows + records == rows;
    } else {
      var front := records[..|records| - 1];
      assert (rows + records)[..|rows + records| - 1] == rows + front;
      ActivitiesOfJoin(rows, front, id);
    }
  }

  lemma {:induction false} ActivitiesOfOneRun(records: seq<Record>, run: string, id: string)
    requires forall i :: 0 <= i < |records| ==> InRun(records[i], run)
    ensures ActivitiesOf(records, id) == if id == run then records else []
  {
    if records != [] {
      var front := records[..|records| - 1];
      ActivitiesOfOneRun(front, run, id);
      assert records == front + [records[|records| - 1]];
    }
  }

  /** In a chain the record of the highest sequence is the last one. */
  lemma {:induction false} LatestActivityIsLast(p: Platform, rows: seq<Record>)
    requires Chain(p, rows)
    ensures rows == [] ==> LatestActivity(rows) == None
    ensures rows != [] ==> LatestActivity(rows) == Some(rows[|rows| - 1]) &&
                           SequenceOf(rows[|rows| - 1]) == |rows| - 1
  {
    if rows != [] {
      var n := |rows| - 1;
      PrefixChain(p, rows, n);
      LatestActivityIsLast(p, rows[..n]);
      assert Linked(p, rows[n], n, PreviousHash(rows, n));
    }
  }

  lemma ScopedInRun(t: Tables, runId: string, records: seq<Record>)
    requires runId in t.runs && Scoped(t, runId, records)
    ensures forall i :: 0 <= i < |records| ==> InRun(records[i], runId)
  {
    forall i | 0 <= i < |records| ensures InRun(records[i], runId) { assert InScope(t, runId, records[i]); }
  }

  lemma ScopedJoin(t: Tables, runId: string, a: seq<Record>, b: seq<Record>)
    requires runId in t.runs
    ensures Scoped(t, runId, a + b) <==> Scoped(t, runId, a) && Scoped(t, runId, b)
  {
    assert forall i :: 0 <= i < |a| ==> (a + b)[i] == a[i];
    assert forall i :: 0 <= i < |b| ==> (a + b)[|a| + i] == b[i];
  }

  lemma FreshKeepsDistinct(t: Tables, records: seq<Record>)
    requires HaveIds(t.activities)
    requires forall i, j :: 0 <= i < j < |t.activities| ==> EventId(t.activities[i]) != EventId(t.activities[j])
    requires FreshIds(EventIds(t.activities), t.outbox.Keys, records)
    ensures var all := t.activities + records;
            forall i, j :: 0 <= i < j < |all| ==> EventId(all[i]) != EventId(all[j])
  {
    var all := t.activities + records;
    forall i, j | 0 <= i < j < |all|
      ensures EventId(all[i]) != EventId(all[j])
    {
      if i < |t.activities| <= j {
        assert EventId(t.activities[i]) in EventIds(t.activities);
        assert all[j] == records[j - |t.activities|];
      }
    }
  }

  /** What a successful commit leaves for every run. */
  lemma CommittedState(p: Platform, t: Tables, u: Tables, runId: string, records: seq<Record>)
    requires ActivityInv(p, t) && runId in t.runs
    requires Committable(p, t, runId, ActivitiesOf(t.activities, runId), records)
    requires u.activities == t.activities + records && SameElsewhere(t, u)
    ensures ActivityInv(p, u)
    ensures forall id :: ActivitiesOf(u.activities, id) ==
                         ActivitiesOf(t.activities, id) + if id == runId then records else []
  {
    ScopedInRun(t, runId, records);
    forall id
      ensures ActivitiesOf(u.activities, id) == ActivitiesOf(t.activities, id) + if id == runId then records else []
    {
      ActivitiesOfJoin(t.activities, records, id);
      ActivitiesOfOneRun(records, runId, id);
    }
    FreshKeepsDistinct(t, records);
    forall i | 0 <= i < |records|
      ensures TextField(records[i], "event_id").Some? && InSomeRun(u, records[i])
    {
      assert InScope(t, runId, records[i]);
    }
    forall i | 0 <= i < |t.activities|
      ensures InSomeRun(u, t.activities[i])
    {
      assert InSomeRun(t, t.activities[i]);
    }
    forall id | id in u.runs
      ensures Chain(p, ActivitiesOf(u.activities, id)) && Scoped(u, id, ActivitiesOf(u.activities, id))
    {
      ScopedElsewhere(t, u, id, ActivitiesOf(u.activities, id));
      if id == runId {
        ScopedJoin(t, runId, ActivitiesOf(t.activities, runId), records);
      } else {
        assert ActivitiesOf(u.activities, id) == ActivitiesOf(t.activities, id);
      }
    }
  }

  lemma ScopedElsewhere(t: Tables, u: Tables, id: string, rows: seq<Record>)
    requires u.runs == t.runs && id in t.runs
    ensures Scoped(u, id, rows) == Scoped(t, id, rows)
  {
    assert forall i :: 0 <= i < |rows| ==> InScope(u, id, rows[i]) == InScope(t, id, rows[i]);
  }

  /** The run a batch names. */
  predicate Names(t: Tables, records: seq<Record>, runId: string) {
    records != [] && TextField(records[0], "run_id") == Some(runId) && runId in t.runs
  }

  /** One call: all or nothing, and when it commits. */
  lemma AppendCall(p: Platform, t: Tables, records: seq<Record>, runId: string)
    requires ActivityInv(p, t) && Names(t, records, runId)
    ensures var (r, u) := AppendActivities(p, t, records);
            (r.Success? <==> Committable(p, t, runId, ActivitiesOf(t.activities, runId), records)) &&
            (r.Failure? ==> u == t) &&
            (r.Success? ==>
               (u.activities == t.activities + records && SameElsewhere(t, u) && ActivityInv(p, u) &&
                (forall id :: ActivitiesOf(u.activities, id) ==
                              ActivitiesOf(t.activities, id) + if id == runId then records else [])))
  {
    var existing := ActivitiesOf(t.activities, runId);
    LatestActivityIsLast(p, existing);
    AppendIff(p, t, runId, existing, records);
    if Committable(p, t, runId, existing, records) {
      var r := AppendFrom(p, t, runId, records, |existing|, PreviousHash(existing, |existing|));
      CommittedState(p, t, r.value, runId, records);
    }
  }

  /** Every call keeps the invariant and leaves the other tables alone. */
  lemma AppendKeepsActivities(p: Platform, t: Tables, records: seq<Record>)
    requires ActivityInv(p, t)
    ensures var (r, u) := AppendActivities(p, t, records);
            ActivityInv(p, u) && SameElsewhere(t, u) && (r.Failure? ==> u == t)
  {
    if records != [] && TextField(records[0], "run_id").Some? && TextField(records[0], "run_id").value in t.runs {
      AppendCall(p, t, records, TextField(records[0], "run_id").value);
    }
  }

  // ---------- reconstruction ----------

  lemma {:induction false} ChainIsSorted(p: Platform, rows: seq<Record>, from: nat)
    requires forall i :: 0 <= i < |rows| ==> SequenceOf(rows[i]) == from + i
    ensures SortBySequence(rows) == rows
  {
    if rows != [] {
      ChainIsSorted(p, rows[1..], from + 1);
      assert rows == [rows[0]] + rows[1..];
    }
  }

  /** Reconstruction never fails on a state that satisfies the invariant. */
  lemma ReconstructSucceeds(p: Platform, t: Tables, runId: string)
    requires ActivityInv(p, t) && runId in t.runs
    ensures Reconstruct(p, t, runId) == Some(ActivitiesOf(t.activities, runId))
  {
    var rows := ActivitiesOf(t.activities, runId);
    forall i | 0 <= i < |rows|
      ensures SequenceOf(rows[i]) == 0 + i
    {
      assert Linked(p, rows[i], i, PreviousHash(rows, i));
    }
    ChainIsSorted(p, rows, 0);
  }

  // ---------- splitting into batches ----------

  function Concat(batches: seq<seq<Record>>): seq<Record> {
    if batches == [] then [] else batches[0] + Concat(batches[1..])
  }

  /** Successive calls, stopping at the first error. */
  function AppendAll(p: Platform, t: Tables, batches: seq<seq<Record>>): Result<Tables, Error>
    decreases |batches|
  {
    if batches == [] then Success(t)
    else
      var (r, u) := AppendActivities(p, t, batches[0]);
      if r.Failure? then Failure(r.error) else AppendAll(p, u, batches[1..])
  }

  lemma FreshJoin(used: set<string>, outbox: set<string>, a: seq<Record>, b: seq<Record>)
    requires FreshIds(used, outbox, a + b)
    ensures FreshIds(used, outbox, a)
    ensures FreshIds(used + EventIds(a), outbox + OutboxIds(a), b)
  {
    var all := a + b;
    assert forall i :: 0 <= i < |a| ==> all[i] == a[i];
    assert forall i :: 0 <= i < |b| ==> all[|a| + i] == b[i];
    forall i | 0 <= i < |b|
      ensures EventId(b[i]) !in EventIds(a) && "outbox_" + EventId(b[i]) !in OutboxIds(a)
    {
      forall j | 0 <= j < |a|
        ensures EventId(a[j]) != EventId(b[i]) && "outbox_" + EventId(a[j]) != "outbox_" + EventId(b[i])
      {
        assert EventId(all[j]) != EventId(all[|a| + i]);
        SamePrefix("outbox_", EventId(a[j]), EventId(b[i]));
      }
    }
  }

  function OutboxIds(rows: seq<Record>): set<string> {
    set i | 0 <= i < |rows| :: "outbox_" + EventId(rows[i])
  }

  lemma EventIdsJoin(a: seq<Record>, b: seq<Record>)
    ensures EventIds(a + b) == EventIds(a) + EventIds(b)
  {
    var all := a + b;
    assert forall i :: 0 <= i < |a| ==> all[i] == a[i];
    assert forall i :: 0 <= i < |b| ==> all[|a| + i] == b[i];
    assert forall x :: x in EventIds(a) + EventIds(b) ==> x in EventIds(all);
  }

  lemma {:induction false} AppendOutbox(p: Platform, t: Tables, runId: string, records: seq<Record>, n: int, previous: Option<string>)
    requires runId in t.runs && HaveIds(t.activities)
    requires AppendFrom(p, t, runId, records, n, previous).Success?
    ensures AppendFrom(p, t, runId, records, n, previous).value.outbox.Keys == t.outbox.Keys + OutboxIds(records)
    decreases |records|
  {
    if records != [] {
      AppendStep(p, t, runId, records, n, previous);
      var r, rest := records[0], records[1..];
      AppendOutbox(p, AddActivity(t, r), runId, rest, n + 1, TextField(r, "record_hash"));
      OutboxIdsOfFirst(records);
    }
  }

  lemma OutboxIdsOfFirst(records: seq<Record>)
    requires records != []
    ensures OutboxIds(records) == {"outbox_" + EventId(records[0])} + OutboxIds(records[1..])
  {
    var rest := records[1..];
    assert forall i :: 0 <= i < |rest| ==> records[i + 1] == rest[i];
  }

  /** Committing the first batch leaves the rest committable. */
  lemma CommitFirst(p: Platform, t: Tables, runId: string, a: seq<Record>, b: seq<Record>)
    requires ActivityInv(p, t) && runId in t.runs && a != []
    requires Committable(p, t, runId, ActivitiesOf(t.activities, runId), a + b)
    ensures var (r, u) := AppendActivities(p, t, a);
            r.Success? && ActivityInv(p, u) && runId in u.runs &&
            ActivitiesOf(u.activities, runId) == ActivitiesOf(t.activities, runId) + a &&
            Committable(p, u, runId, ActivitiesOf(u.activities, runId), b)
  {
    var existing := ActivitiesOf(t.activities, runId);
    ScopedJoin(t, runId, a, b);
    FreshJoin(EventIds(t.activities), t.outbox.Keys, a, b);
    Associative(existing, a, b);
    PrefixChain(p, (existing + a) + b, |existing + a|);
    assert ((existing + a) + b)[..|existing + a|] == existing + a;
    assert InScope(t, runId, a[0]);
    AppendCall(p, t, a, runId);
    LatestActivityIsLast(p, existing);
    AppendOutbox(p, t, runId, a, |existing|, PreviousHash(existing, |existing|));
    EventIdsJoin(t.activities, a);
    var u := AppendActivities(p, t, a).1;
    ScopedElsewhere(t, u, runId, b);
  }

  lemma Associative(a: seq<Record>, b: seq<Record>, c: seq<Record>)
    ensures (a + b) + c == a + (b + c)
    ensures a + [] == a
  {
  }

  lemma CommitBatch(p: Platform, t: Tables, runId: string, batches: seq<seq<Record>>) returns (u: Tables)
    requires ActivityInv(p, t) && runId in t.runs && batches != [] && batches[0] != []
    requires Committable(p, t, runId, ActivitiesOf(t.activities, runId), Concat(batches))
    ensures AppendAll(p, t, batches) == AppendAll(p, u, batches[1..])
    ensures ActivityInv(p, u) && runId in u.runs
    ensures ActivitiesOf(u.activities, runId) == ActivitiesOf(t.activities, runId) + batches[0]
    ensures Committable(p, u, runId, ActivitiesOf(u.activities, runId), Concat(batches[1..]))
  {
    CommitFirst(p, t, runId, batches[0], Concat(batches[1..]));
    u := AppendActivities(p, t, batches[0]).1;
  }

  /**
   * Committable records, split into consecutive non-empty batches in any way, are
   * all accepted, and reconstruction returns them unchanged after the old ones.
   */
  lemma {:induction false} AnySplitAccepted(p: Platform, t: Tables, runId: string, batches: seq<seq<Record>>)
    requires ActivityInv(p, t) && runId in t.runs
    requires forall i :: 0 <= i < |batches| ==> batches[i] != []
    requires Committable(p, t, runId, ActivitiesOf(t.activities, runId), Concat(batches))
    ensures AppendAll(p, t, batches).Success?
    ensures Reconstruct(p, AppendAll(p, t, batches).value, runId) ==
            Some(ActivitiesOf(t.activities, runId) + Concat(batches))
    decreases |batches|
  {
    if batches == [] {
      ReconstructSucceeds(p, t, runId);
      Associative(ActivitiesOf(t.activities, runId), [], []);
    } else {
      var u := CommitBatch(p, t, runId, batches);
      AnySplitAccepted(p, u, runId, batches[1..]);
      Associative(ActivitiesOf(t.activities, runId), batches[0], Concat(batches[1..]));
    }
  }
}
