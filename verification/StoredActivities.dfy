// What the store reconstructs satisfies the order and chain rules.
module StoredActivities {
  import opened Wrappers
  import CP = ControlPlane
  import R = SemanticRules

  function Text(r: CP.Record, name: string): string {
    var field := CP.TextField(r, name);
    if field.Some? then field.value else ""
  }

  function EntryOf(r: CP.Record): R.Entry {
    R.Entry(Text(r, "run_id"), CP.SequenceOf(r), CP.TextField(r, "previous_event_hash"), Text(r, "record_hash"))
  }

  function EntriesOf(rows: seq<CP.Record>): seq<R.Entry> {
    seq(|rows|, i requires 0 <= i < |rows| => EntryOf(rows[i]))
  }

  lemma {:induction false} OneRun(entries: seq<R.Entry>, n: nat, runId: string, other: string)
    requires n <= |entries| && forall i :: 0 <= i < |entries| ==> entries[i].runId == runId
    ensures R.RunUpTo(entries, n, other) == if other == runId then entries[..n] else []
  {
    if n > 0 { OneRun(entries, n - 1, runId, other); }
  }

  lemma {:induction false} FilteredInRun(rows: seq<CP.Record>, runId: string)
    ensures forall r :: r in CP.ActivitiesOf(rows, runId) ==> CP.InRun(r, runId)
  {
    if rows != [] { FilteredInRun(rows[..|rows| - 1], runId); }
  }

  lemma {:induction false} InsertedInRun(r: CP.Record, rows: seq<CP.Record>, runId: string)
    requires CP.InRun(r, runId) && forall x :: x in rows ==> CP.InRun(x, runId)
    ensures forall x :: x in CP.InsertBySequence(r, rows) ==> CP.InRun(x, runId)
    decreases |rows|
  {
    if rows != [] { InsertedInRun(r, rows[1..], runId); }
  }

  lemma {:induction false} SortedInRun(rows: seq<CP.Record>, runId: string)
    requires forall x :: x in rows ==> CP.InRun(x, runId)
    ensures forall x :: x in CP.SortBySequence(rows) ==> CP.InRun(x, runId)
    decreases |rows|
  {
    if rows != [] {
      SortedInRun(rows[1..], runId);
      InsertedInRun(rows[0], CP.SortBySequence(rows[1..]), runId);
    }
  }

  /** One record of a chain, as the rules read it. */
  lemma LinkedEntry(p: CP.Platform, r: CP.Record, sequence: int, previous: Option<string>)
    requires CP.Linked(p, r, sequence, previous)
    ensures EntryOf(r).sequence == sequence && EntryOf(r).previous == previous
    ensures CP.TextField(r, "record_hash") == Some(EntryOf(r).recordHash)
  {
  }

  /** What a chain says of the entry at each position. */
  ghost predicate InOrder(entries: seq<R.Entry>) {
    forall i {:trigger entries[i]} :: 0 <= i < |entries| ==>
      entries[i].sequence == i && entries[i].previous == if i == 0 then None else Some(entries[i - 1].recordHash)
  }

  lemma InOrderPasses(entries: seq<R.Entry>)
    requires InOrder(entries)
    ensures R.Consecutive(entries) && R.Linked(entries)
  {
  }

  lemma ChainPasses(p: CP.Platform, rows: seq<CP.Record>)
    requires CP.Chain(p, rows)
    ensures InOrder(EntriesOf(rows))
  {
    var entries := EntriesOf(rows);
    forall i {:trigger entries[i]} | 0 <= i < |entries|
      ensures entries[i].sequence == i && entries[i].previous == if i == 0 then None else Some(entries[i - 1].recordHash)
    {
      assert CP.Linked(p, rows[i], i, CP.PreviousHash(rows, i));
      LinkedEntry(p, rows[i], i, CP.PreviousHash(rows, i));
      if i > 0 {
        assert CP.Linked(p, rows[i - 1], i - 1, CP.PreviousHash(rows, i - 1));
        LinkedEntry(p, rows[i - 1], i - 1, CP.PreviousHash(rows, i - 1));
      }
    }
  }

  /** Any list the store reconstructs passes both rules. */
  lemma ReconstructedPasses(p: CP.Platform, t: CP.Tables, runId: string)
    requires CP.Reconstruct(p, t, runId).Some?
    ensures var entries := EntriesOf(CP.Reconstruct(p, t, runId).value);
            R.AllConsecutive(entries, |entries|) && R.AllLinked(entries, |entries|)
  {
    var rows := CP.Reconstruct(p, t, runId).value;
    var entries := EntriesOf(rows);
    FilteredInRun(t.activities, runId);
    SortedInRun(CP.ActivitiesOf(t.activities, runId), runId);
    ChainPasses(p, rows);
    InOrderPasses(entries);
    forall i | 0 <= i < |entries| ensures entries[i].runId == runId { assert rows[i] in rows; }
    forall id ensures R.Consecutive(R.RunUpTo(entries, |entries|, id)) && R.Linked(R.RunUpTo(entries, |entries|, id)) {
      OneRun(entries, |entries|, runId, id);
      assert entries[..|entries|] == entries;
    }
  }
}
