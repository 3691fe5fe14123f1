// The hash-chained journal of each run, in every state the service can reach.
module Journals {
  import opened Wrappers
  import opened Hashing
  import opened Json
  import opened ControlPlane

  /** A row at its place in the journal of its run. */
  predicate RowLinked(p: Platform, e: JournalRow, sequence: int, previous: Option<string>) {
    && e.sequence == sequence && e.previous == previous
    && e.bodyHash == p.hash(e.body)
    && e.recordHash == p.hash(EventValue(e))
  }

  /** The hash the row at position `i` must name. */
  function PreviousOf(rows: seq<JournalRow>, i: nat): Option<string>
    requires i <= |rows|
  {
    if i == 0 then None else Some(rows[i - 1].recordHash)
  }

  /** Sequences 0..n-1, each row naming its predecessor's hash, every hash recomputing. */
  predicate JournalChain(p: Platform, rows: seq<JournalRow>) {
    forall i {:trigger RowLinked(p, rows[i], i, PreviousOf(rows, i))} :: 0 <= i < |rows| ==>
      RowLinked(p, rows[i], i, PreviousOf(rows, i))
  }

  predicate JournalInv(p: Platform, t: Tables) {
    && (forall i :: 0 <= i < |t.journal| ==> t.journal[i].runId in t.runs)
    && (forall id :: id in t.runs ==> RowsOf(t.journal, id) != [] && JournalChain(p, RowsOf(t.journal, id)))
    && (forall i, j :: 0 <= i < j < |t.journal| ==> t.journal[i].eventId != t.journal[j].eventId)
  }

  lemma {:induction false} RowsOfIn(journal: seq<JournalRow>, id: string)
    ensures forall r :: r in RowsOf(journal, id) <==> r in journal && r.runId == id
  {
    if journal != [] {
      var front, last := journal[..|journal| - 1], journal[|journal| - 1];
      RowsOfIn(front, id);
      assert journal == front + [last];
    }
  }

  lemma RowsOfSnoc(journal: seq<JournalRow>, e: JournalRow, id: string)
    ensures RowsOf(journal + [e], id) == RowsOf(journal, id) + if e.runId == id then [e] else []
  {
    assert (journal + [e])[..|journal|] == journal;
  }

  lemma FrontChain(p: Platform, rows: seq<JournalRow>, n: nat)
    requires JournalChain(p, rows) && n <= |rows|
    ensures JournalChain(p, rows[..n])
    ensures n < |rows| ==> rows[n].sequence == n
  {
    var front := rows[..n];
    forall i | 0 <= i < |front|
      ensures RowLinked(p, front[i], i, PreviousOf(front, i))
    {
      assert PreviousOf(front, i) == PreviousOf(rows, i);
      assert RowLinked(p, rows[i], i, PreviousOf(rows, i));
    }
    assert n < |rows| ==> RowLinked(p, rows[n], n, PreviousOf(rows, n));
  }

  /** In a chain the row of the highest sequence is the last one. */
  lemma {:induction false} LatestIsLast(p: Platform, rows: seq<JournalRow>)
    requires JournalChain(p, rows)
    ensures rows == [] ==> Latest(rows) == None
    ensures rows != [] ==> Latest(rows) == Some(rows[|rows| - 1]) && rows[|rows| - 1].sequence == |rows| - 1
  {
    if rows != [] {
      FrontChain(p, rows, |rows| - 1);
      LatestIsLast(p, rows[..|rows| - 1]);
    }
  }

  lemma ChainGrows(p: Platform, rows: seq<JournalRow>, e: JournalRow)
    requires JournalChain(p, rows)
    requires RowLinked(p, e, |rows|, PreviousOf(rows, |rows|))
    ensures JournalChain(p, rows + [e])
  {
    var r := rows + [e];
    forall i | 0 <= i < |r|
      ensures RowLinked(p, r[i], i, PreviousOf(r, i))
    {
      assert PreviousOf(r, i) == PreviousOf(rows, i);
    }
  }

  lemma AppendedRows(p: Platform, t: Tables, e: JournalRow, id: string)
    requires JournalChain(p, RowsOf(t.journal, id)) && (id == e.runId || RowsOf(t.journal, id) != [])
    requires id == e.runId ==>
               RowLinked(p, e, |RowsOf(t.journal, id)|, PreviousOf(RowsOf(t.journal, id), |RowsOf(t.journal, id)|))
    ensures RowsOf(t.journal + [e], id) != [] && JournalChain(p, RowsOf(t.journal + [e], id))
  {
    RowsOfSnoc(t.journal, e, id);
    if id == e.runId {
      ChainGrows(p, RowsOf(t.journal, id), e);
    } else {
      assert RowsOf(t.journal + [e], id) == RowsOf(t.journal, id);
    }
  }

  /** Appending a linked row to a table that accepts it keeps the invariant. */
  lemma AppendKeepsJournal(p: Platform, t: Tables, t': Tables, e: JournalRow)
    requires JournalInv(p, t)
    requires t.runs.Keys <= t'.runs.Keys <= t.runs.Keys + {e.runId} && e.runId in t'.runs
    requires t'.journal == t.journal + [e]
    requires forall r :: r in t.journal ==> r.eventId != e.eventId
    requires var rows := RowsOf(t.journal, e.runId);
             JournalChain(p, rows) && RowLinked(p, e, |rows|, PreviousOf(rows, |rows|))
    ensures JournalInv(p, t')
  {
    forall id | id in t'.runs
      ensures RowsOf(t'.journal, id) != [] && JournalChain(p, RowsOf(t'.journal, id))
    {
      AppendedRows(p, t, e, id);
    }
    assert forall i :: 0 <= i < |t.journal| ==> t'.journal[i] == t.journal[i] && t.journal[i] in t.journal;
  }

  lemma NoRowsYet(p: Platform, t: Tables, id: string)
    requires JournalInv(p, t) && id !in t.runs
    ensures RowsOf(t.journal, id) == []
  {
    RowsOfIn(t.journal, id);
    var rows := RowsOf(t.journal, id);
    if rows != [] { SomeRow(rows); }
  }

  lemma SomeRow(rows: seq<JournalRow>)
    requires rows != []
    ensures exists r :: r in rows
  {
    assert rows[0] in rows;
  }

  lemma RunEventLinked(p: Platform, r: RunRequest, runId: string, eventId: string)
    ensures RowLinked(p, RunEvent(p, r, runId, eventId), 0, None)
  {
    EventHashSkipsItself(RunEvent(p, r, runId, eventId), "");
  }

  /** A row's hash decides everything in it: rows that share one are the same, or their contents clash. */
  lemma JournalHashBinds(p: Platform, a: JournalRow, i: int, previous: Option<string>, b: JournalRow, j: int, before: Option<string>)
    requires RowLinked(p, a, i, previous) && RowLinked(p, b, j, before) && a.recordHash == b.recordHash
    ensures a == b || Clash(p.hash, EventValue(a), EventValue(b))
  {
    if EventValue(a) == EventValue(b) {
      var m, n := EventValue(a).members, EventValue(b).members;
      assert m["event_id"] == n["event_id"] && m["tenant_id"] == n["tenant_id"] && m["case_id"] == n["case_id"];
      assert m["run_id"] == n["run_id"] && m["sequence"] == n["sequence"] && m["body"] == n["body"];
      assert m["previous_event_hash"] == n["previous_event_hash"] && m["body_hash"] == n["body_hash"];
    }
  }

  lemma RequestRunKeepsJournal(p: Platform, t: Tables, c: RunCall)
    requires JournalInv(p, t)
    ensures JournalInv(p, RequestRun(p, t, c).1)
  {
    RunWrites(p, t, c);
    var runId := RunId(p, c.request, c.key);
    var u := RequestRun(p, t, c).1;
    if u != t {
      NoRowsYet(p, t, runId);
      RunEventLinked(p, c.request, runId, c.eventId);
      AppendKeepsJournal(p, t, u, RunEvent(p, c.request, runId, c.eventId));
    }
  }

  lemma EventHashSkipsItself(e: JournalRow, h: string)
    ensures EventValue(e) == EventValue(e.(recordHash := h))
  {
  }

  lemma DelegationEventLinked(p: Platform, t: Tables, g: GrantRecord, scope: RunRequest, eventId: string)
    requires JournalInv(p, t) && g.runId in t.runs
    ensures var rows := RowsOf(t.journal, g.runId);
            var e := DelegationEvent(p, t, g, scope, eventId);
            rows != [] && JournalChain(p, rows) && e.runId == g.runId && e.eventId == eventId && e.sequence > 0 &&
            RowLinked(p, e, |rows|, PreviousOf(rows, |rows|))
  {
    var rows := RowsOf(t.journal, g.runId);
    LatestIsLast(p, rows);
    var e := DelegationEvent(p, t, g, scope, eventId);
    EventHashSkipsItself(e, "");
  }

  lemma DelegateKeepsJournal(p: Platform, t: Tables, c: DelegationCall, now: int)
    requires JournalInv(p, t)
    ensures JournalInv(p, Delegate(p, t, c, now).1)
  {
    var g := DelegationRecord(p, c);
    DelegationWrites(p, t, g, c.eventId, c.outboxId, now);
    var u := Delegate(p, t, c, now).1;
    if u != t {
      DelegationEventLinked(p, t, g, t.runs[g.runId], c.eventId);
      AppendKeepsJournal(p, t, u, DelegationEvent(p, t, g, t.runs[g.runId], c.eventId));
    }
  }
}
