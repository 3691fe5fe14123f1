// What the two reading operations return on any tables at all, also on ones that no
// operation of the store has left behind.
module Readback {
  import opened Wrappers
  import opened Json
  import opened ControlPlane
  import opened Announcements
  import opened Reachable

  // ---------- effect records ----------

  /** The stored hash is that of the document without it. */
  predicate Intact(p: Platform, doc: Record) { TextField(doc, "record_hash") == Some(p.hash(Obj(doc - {"record_hash"}))) }

  lemma SameMembers<T>(a: seq<T>, b: seq<T>)
    requires multiset(a) == multiset(b)
    ensures forall x :: x in a <==> x in b
  {
    forall x ensures x in a <==> x in b { assert x in a <==> x in multiset(a); assert x in b <==> x in multiset(b); }
  }

  lemma AllRecompute(p: Platform, rows: seq<EffectRow>)
    ensures (forall i :: 0 <= i < |Documents(rows)| ==> Recomputes(p, Documents(rows)[i])) <==>
            forall e :: e in rows ==> Intact(p, e.document)
  {
    var docs := Documents(rows);
    if forall i :: 0 <= i < |docs| ==> Recomputes(p, docs[i]) {
      forall e | e in rows ensures Intact(p, e.document) {
        var i :| 0 <= i < |rows| && rows[i] == e;
        assert Recomputes(p, docs[i]);
      }
    }
    if forall e :: e in rows ==> Intact(p, e.document) {
      forall i | 0 <= i < |docs| ensures Recomputes(p, docs[i]) { assert rows[i] in rows; }
    }
  }

  /** Loading succeeds exactly if every document of the run is intact, and then returns each once, in order. */
  lemma LoadsExactly(p: Platform, t: Tables, runId: string) returns (rows: seq<EffectRow>)
    ensures LoadEffects(p, t, runId).Some? <==> forall e :: e in t.effects && e.runId == runId ==> Intact(p, e.document)
    ensures Chronological(rows) && multiset(rows) == multiset(EffectsOf(t.effects, runId))
    ensures LoadEffects(p, t, runId).Some? ==> LoadEffects(p, t, runId).value == Documents(rows)
  {
    rows := SortByCreation(EffectsOf(t.effects, runId));
    SortedByCreation(EffectsOf(t.effects, runId));
    EffectsOfMembers(t.effects, runId);
    SameMembers(rows, EffectsOf(t.effects, runId));
    AllRecompute(p, rows);
  }

  // ---------- activity records ----------

  /** A record at place `k` with that sequence, the hash before it, and two hashes that recompute. */
  predicate Fits(p: Platform, rows: seq<Record>, k: nat)
    requires k < |rows|
  {
    var r := rows[k];
    && "sequence" in r && r["sequence"] == Num(k)
    && "previous_event_hash" in r && r["previous_event_hash"] == (if k == 0 then Null else At(rows[k - 1], "record_hash"))
    && "body" in r && TextField(r, "body_hash") == Some(p.hash(r["body"]))
    && Intact(p, r)
  }

  predicate AllFit(p: Platform, rows: seq<Record>) { forall k :: 0 <= k < |rows| ==> Fits(p, rows, k) }

  lemma FitsExactly(p: Platform, rows: seq<Record>, k: nat)
    requires k < |rows| && (k > 0 ==> TextField(rows[k - 1], "record_hash").Some?)
    ensures Fits(p, rows, k) <==> Linked(p, rows[k], k, PreviousHash(rows, k))
  {
  }

  lemma AllFitExactly(p: Platform, rows: seq<Record>)
    ensures AllFit(p, rows) <==> Chain(p, rows)
  {
    if AllFit(p, rows) {
      forall k | 0 <= k < |rows| ensures Linked(p, rows[k], k, PreviousHash(rows, k)) {
        if k > 0 { assert Fits(p, rows, k - 1); }
        FitsExactly(p, rows, k);
      }
    }
    if Chain(p, rows) {
      forall k | 0 <= k < |rows| ensures Fits(p, rows, k) {
        assert Linked(p, rows[k], k, PreviousHash(rows, k));
        if k > 0 { assert Linked(p, rows[k - 1], k - 1, PreviousHash(rows, k - 1)); }
        FitsExactly(p, rows, k);
      }
    }
  }

  predicate Ascending(rows: seq<Record>) { forall i, j :: 0 <= i < j < |rows| ==> SequenceOf(rows[i]) <= SequenceOf(rows[j]) }

  lemma {:induction false} InsertedOnce(r: Record, rows: seq<Record>)
    ensures multiset(InsertBySequence(r, rows)) == multiset(rows) + multiset{r}
    decreases |rows|
  {
    if rows != [] && SequenceOf(r) > SequenceOf(rows[0]) {
      InsertedOnce(r, rows[1..]);
      assert rows == [rows[0]] + rows[1..];
    }
  }

  lemma {:induction false} InsertedInOrder(r: Record, rows: seq<Record>)
    requires Ascending(rows)
    ensures Ascending(InsertBySequence(r, rows))
    decreases |rows|
  {
    if rows != [] && SequenceOf(r) > SequenceOf(rows[0]) {
      InsertedInOrder(r, rows[1..]);
      InsertedOnce(r, rows[1..]);
      var s := InsertBySequence(r, rows[1..]);
      forall i | 0 <= i < |s| ensures SequenceOf(rows[0]) <= SequenceOf(s[i]) { assert s[i] in multiset(s); }
    }
  }

  lemma {:induction false} SortedInOrder(rows: seq<Record>)
    ensures Ascending(SortBySequence(rows)) && multiset(SortBySequence(rows)) == multiset(rows)
    decreases |rows|
  {
    if rows != [] {
      SortedInOrder(rows[1..]);
      InsertedInOrder(rows[0], SortBySequence(rows[1..]));
      InsertedOnce(rows[0], SortBySequence(rows[1..]));
      assert rows == [rows[0]] + rows[1..];
    }
  }

  predicate Numbered(rows: seq<Record>, from: nat) { forall k :: 0 <= k < |rows| ==> SequenceOf(rows[k]) == from + k }

  lemma FirstIsSame(a: seq<Record>, b: seq<Record>, from: nat)
    requires a != [] && b != [] && Ascending(a) && Numbered(b, from)
    requires a[0] in b && b[0] in a
    ensures a[0] == b[0]
  {
    var i :| 0 <= i < |b| && b[i] == a[0];
    var j :| 0 <= j < |a| && a[j] == b[0];
    assert SequenceOf(a[0]) <= SequenceOf(a[j]);
  }

  lemma TailMultisets<T>(a: seq<T>, b: seq<T>)
    requires multiset(a) == multiset(b) && a != [] && b != [] && a[0] == b[0]
    ensures multiset(a[1..]) == multiset(b[1..])
  {
    assert a == [a[0]] + a[1..] && b == [b[0]] + b[1..];
    assert multiset(a[1..]) == multiset(a) - multiset{a[0]} && multiset(b[1..]) == multiset(b) - multiset{b[0]};
  }

  /** Two orders of the same records, one of them numbered from `from` on, the other ascending. */
  lemma {:induction false} NumberedIsAscending(a: seq<Record>, b: seq<Record>, from: nat)
    requires multiset(a) == multiset(b) && Ascending(a) && Numbered(b, from)
    ensures a == b
    decreases |a|
  {
    SameMembers(a, b);
    if a != [] { assert a[0] in a; }
    if b != [] { assert b[0] in b; }
    if a != [] && b != [] {
      FirstIsSame(a, b, from);
      TailMultisets(a, b);
      NumberedIsAscending(a[1..], b[1..], from + 1);
      assert a == [a[0]] + a[1..] && b == [b[0]] + b[1..];
    }
  }

  /** Reconstruction succeeds exactly if some order of the run's records makes them a chain, and returns that order. */
  lemma ReconstructsExactly(p: Platform, t: Tables, runId: string, rows: seq<Record>)
    ensures Reconstruct(p, t, runId) == Some(rows) <==>
            multiset(rows) == multiset(ActivitiesOf(t.activities, runId)) && AllFit(p, rows)
  {
    var all := ActivitiesOf(t.activities, runId);
    SortedInOrder(all);
    AllFitExactly(p, rows);
    if multiset(rows) == multiset(all) && AllFit(p, rows) {
      forall k | 0 <= k < |rows| ensures SequenceOf(rows[k]) == 0 + k { assert Fits(p, rows, k); }
      assert Numbered(rows, 0);
      NumberedIsAscending(SortBySequence(all), rows, 0);
    }
  }
}
