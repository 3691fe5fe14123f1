// The one-pass rules over lists of records, and what they say about each run.
module SemanticRules {
  import opened Wrappers

  // ---------- rules over the records of each run ----------

  /** The members of a record that the order and chain rules read. */
  datatype Entry = Entry(runId: string, sequence: int, previous: Option<string>, recordHash: string)

  /** The records of one run among the first `n`, in order. */
  function RunUpTo(entries: seq<Entry>, n: nat, runId: string): seq<Entry>
    requires n <= |entries|
  {
    if n == 0 then []
    else RunUpTo(entries, n - 1, runId) + if entries[n - 1].runId == runId then [entries[n - 1]] else []
  }

  function RunOf(entries: seq<Entry>, runId: string): seq<Entry> { RunUpTo(entries, |entries|, runId) }

  predicate FollowsAt(run: seq<Entry>, i: nat)
    requires i < |run|
  {
    i > 0 ==> run[i].sequence == run[i - 1].sequence + 1
  }

  predicate LinkedAt(run: seq<Entry>, i: nat)
    requires i < |run|
  {
    run[i].previous == if i == 0 then None else Some(run[i - 1].recordHash)
  }

  /** Each record of a run carries the sequence number after the last. */
  predicate Consecutive(run: seq<Entry>) { forall i {:trigger FollowsAt(run, i)} :: 0 <= i < |run| ==> FollowsAt(run, i) }

  /** Each record of a run names the hash of the one before. */
  predicate Linked(run: seq<Entry>) { forall i {:trigger LinkedAt(run, i)} :: 0 <= i < |run| ==> LinkedAt(run, i) }

  /** How a rule judges the next record of a run. */
  predicate Follows(last: Option<Entry>, e: Entry) { last.None? || e.sequence == last.value.sequence + 1 }

  predicate Chains(last: Option<Entry>, e: Entry) {
    e.previous == if last.None? then None else Some(last.value.recordHash)
  }

  function LastOf(run: seq<Entry>): Option<Entry> { if run == [] then None else Some(run[|run| - 1]) }

  lemma ConsecutiveSnoc(run: seq<Entry>, e: Entry)
    ensures Consecutive(run + [e]) <==> Consecutive(run) && Follows(LastOf(run), e)
  {
    var longer := run + [e];
    forall i | 0 <= i < |run| ensures FollowsAt(run, i) <==> FollowsAt(longer, i) { }
    assert FollowsAt(longer, |run|) <==> Follows(LastOf(run), e);
  }

  lemma LinkedSnoc(run: seq<Entry>, e: Entry)
    ensures Linked(run + [e]) <==> Linked(run) && Chains(LastOf(run), e)
  {
    var longer := run + [e];
    forall i | 0 <= i < |run| ensures LinkedAt(run, i) <==> LinkedAt(longer, i) { }
    assert LinkedAt(longer, |run|) <==> Chains(LastOf(run), e);
  }

  /** A prefix of the records holds a prefix of each run. */
  lemma {:induction false} RunPrefix(entries: seq<Entry>, m: nat, n: nat, runId: string)
    requires m <= n <= |entries|
    ensures RunUpTo(entries, m, runId) <= RunUpTo(entries, n, runId)
    decreases n
  {
    if m < n { RunPrefix(entries, m, n - 1, runId); }
  }

  /** The first `n` records are, run by run, consecutive. */
  ghost predicate AllConsecutive(entries: seq<Entry>, n: nat)
    requires n <= |entries|
  {
    forall runId :: Consecutive(RunUpTo(entries, n, runId))
  }

  ghost predicate AllLinked(entries: seq<Entry>, n: nat)
    requires n <= |entries|
  {
    forall runId :: Linked(RunUpTo(entries, n, runId))
  }

  lemma PrefixConsecutive(entries: seq<Entry>, n: nat)
    requires n <= |entries| && AllConsecutive(entries, |entries|)
    ensures AllConsecutive(entries, n)
  {
    forall runId ensures Consecutive(RunUpTo(entries, n, runId)) {
      RunPrefix(entries, n, |entries|, runId);
      var part, whole := RunUpTo(entries, n, runId), RunUpTo(entries, |entries|, runId);
      forall i | 0 <= i < |part| ensures FollowsAt(part, i) { assert FollowsAt(whole, i); }
    }
  }

  lemma PrefixLinked(entries: seq<Entry>, n: nat)
    requires n <= |entries| && AllLinked(entries, |entries|)
    ensures AllLinked(entries, n)
  {
    forall runId ensures Linked(RunUpTo(entries, n, runId)) {
      RunPrefix(entries, n, |entries|, runId);
      var part, whole := RunUpTo(entries, n, runId), RunUpTo(entries, |entries|, runId);
      forall i | 0 <= i < |part| ensures LinkedAt(part, i) { assert LinkedAt(whole, i); }
    }
  }

  function Lookup(m: map<string, Entry>, runId: string): Option<Entry> { if runId in m then Some(m[runId]) else None }

  /** The map holds the last record of each run among the first `n`. */
  ghost predicate Lasts(entries: seq<Entry>, n: nat, m: map<string, Entry>)
    requires n <= |entries|
  {
    forall runId :: Lookup(m, runId) == LastOf(RunUpTo(entries, n, runId))
  }

  lemma OneMore(entries: seq<Entry>, n: nat, next: nat, runId: string)
    requires n < |entries| && next == n + 1
    ensures RunUpTo(entries, next, runId) ==
              if entries[n].runId == runId then RunUpTo(entries, n, runId) + [entries[n]] else RunUpTo(entries, n, runId)
  {
  }

  lemma NextLast(entries: seq<Entry>, n: nat, next: nat, m: map<string, Entry>)
    requires n < |entries| && next == n + 1 && Lasts(entries, n, m)
    ensures Lasts(entries, next, m[entries[n].runId := entries[n]])
  {
    var longer := m[entries[n].runId := entries[n]];
    forall runId ensures Lookup(longer, runId) == LastOf(RunUpTo(entries, next, runId)) {
      OneMore(entries, n, next, runId);
      assert Lookup(m, runId) == LastOf(RunUpTo(entries, n, runId));
    }
  }

  /** One more record keeps all runs consecutive iff it follows the last of its own. */
  lemma NextConsecutive(entries: seq<Entry>, n: nat, next: nat, m: map<string, Entry>)
    requires n < |entries| && next == n + 1 && AllConsecutive(entries, n) && Lasts(entries, n, m)
    ensures AllConsecutive(entries, next) <==> Follows(Lookup(m, entries[n].runId), entries[n])
  {
    var e := entries[n];
    var run := RunUpTo(entries, n, e.runId);
    assert Lookup(m, e.runId) == LastOf(run) && Consecutive(run);
    ConsecutiveSnoc(run, e);
    OneMore(entries, n, next, e.runId);
    if Follows(LastOf(run), e) {
      forall runId ensures Consecutive(RunUpTo(entries, next, runId)) {
        OneMore(entries, n, next, runId);
        assert Consecutive(RunUpTo(entries, n, runId));
      }
    }
  }

  lemma NextLinked(entries: seq<Entry>, n: nat, next: nat, m: map<string, Entry>)
    requires n < |entries| && next == n + 1 && AllLinked(entries, n) && Lasts(entries, n, m)
    ensures AllLinked(entries, next) <==> Chains(Lookup(m, entries[n].runId), entries[n])
  {
    var e := entries[n];
    var run := RunUpTo(entries, n, e.runId);
    assert Lookup(m, e.runId) == LastOf(run) && Linked(run);
    LinkedSnoc(run, e);
    OneMore(entries, n, next, e.runId);
    if Chains(LastOf(run), e) {
      forall runId ensures Linked(RunUpTo(entries, next, runId)) {
        OneMore(entries, n, next, runId);
        assert Linked(RunUpTo(entries, n, runId));
      }
    }
  }

  /** `monotonic_run_sequence` in one pass: it holds iff each run on its own is consecutive. */
  method MonotonicRunSequence(entries: seq<Entry>) returns (ok: bool)
    ensures ok <==> AllConsecutive(entries, |entries|)
  {
    var lastByRun: map<string, int> := map[];
    ghost var lasts: map<string, Entry> := map[];
    var i := 0;
    while i < |entries|
      invariant 0 <= i <= |entries| && AllConsecutive(entries, i)
      invariant Lasts(entries, i, lasts)
      invariant lastByRun.Keys == lasts.Keys && forall runId :: runId in lasts ==> lastByRun[runId] == lasts[runId].sequence
    {
      var e := entries[i];
      NextConsecutive(entries, i, i + 1, lasts);
      NextLast(entries, i, i + 1, lasts);
      if e.runId in lastByRun && e.sequence != lastByRun[e.runId] + 1 {
        if AllConsecutive(entries, |entries|) { PrefixConsecutive(entries, i + 1); }
        return false;
      }
      lastByRun := lastByRun[e.runId := e.sequence];
      lasts := lasts[e.runId := e];
      i := i + 1;
    }
    return true;
  }

  /** `previous_hash_chain` in one pass: it holds iff each run on its own is linked. */
  method PreviousHashChain(entries: seq<Entry>) returns (ok: bool)
    ensures ok <==> AllLinked(entries, |entries|)
  {
    var previousByRun: map<string, Entry> := map[];
    var i := 0;
    while i < |entries|
      invariant 0 <= i <= |entries| && AllLinked(entries, i)
      invariant Lasts(entries, i, previousByRun)
    {
      var e := entries[i];
      NextLinked(entries, i, i + 1, previousByRun);
      NextLast(entries, i, i + 1, previousByRun);
      var known := e.runId in previousByRun;
      if (!known && e.previous != None) || (known && e.previous != Some(previousByRun[e.runId].recordHash)) {
        if AllLinked(entries, |entries|) { PrefixLinked(entries, i + 1); }
        return false;
      }
      previousByRun := previousByRun[e.runId := e];
      i := i + 1;
    }
    return true;
  }

  /** Both verdicts depend on the runs alone: every interleaving of the same runs gets the same. */
  lemma InterleavingsAgree(a: seq<Entry>, b: seq<Entry>)
    requires forall runId :: RunOf(a, runId) == RunOf(b, runId)
    ensures AllConsecutive(a, |a|) <==> AllConsecutive(b, |b|)
    ensures AllLinked(a, |a|) <==> AllLinked(b, |b|)
  {
    assert forall runId :: RunOf(a, runId) == RunUpTo(a, |a|, runId) == RunUpTo(b, |b|, runId) == RunOf(b, runId);
  }

  // ---------- idempotency keys ----------

  datatype Binding = Binding(key: string, bound: (string, string, string))

  /** Records that commit to the same key bind the same inputs. */
  ghost predicate Agreeing(bs: seq<Binding>) {
    forall x, y :: x in bs && y in bs && x.key == y.key ==> x.bound == y.bound
  }

  /** `idempotency_input_binding` in one pass. */
  method IdempotencyInputBinding(bs: seq<Binding>) returns (ok: bool)
    ensures ok <==> Agreeing(bs)
  {
    var bindings: map<string, (string, string, string)> := map[];
    var i := 0;
    while i < |bs|
      invariant 0 <= i <= |bs|
      invariant forall x :: x in bs[..i] ==> x.key in bindings && bindings[x.key] == x.bound
      invariant forall key :: key in bindings ==> Binding(key, bindings[key]) in bs[..i]
    {
      var b := bs[i];
      assert bs[..i + 1] == bs[..i] + [b];
      if b.key in bindings && bindings[b.key] != b.bound {
        assert Binding(b.key, bindings[b.key]) in bs && b in bs;
        return false;
      }
      bindings := bindings[b.key := b.bound];
      i := i + 1;
    }
    assert bs[..i] == bs;
    return true;
  }

  /** The order of the records does not matter. */
  lemma AgreeingPermutes(a: seq<Binding>, b: seq<Binding>)
    requires multiset(a) == multiset(b)
    ensures Agreeing(a) <==> Agreeing(b)
  {
    forall x ensures x in a <==> x in b { assert x in a <==> x in multiset(a); assert x in b <==> x in multiset(b); }
  }

  // ---------- unknown effects ----------

  datatype Attempt = Attempt(operationId: string, number: int, unknown: bool)

  /** Python's sort by attempt number: equal numbers keep their order. */
  function Insert(sorted: seq<Attempt>, x: Attempt): seq<Attempt> {
    if sorted == [] || sorted[|sorted| - 1].number <= x.number then sorted + [x]
    else Insert(sorted[..|sorted| - 1], x) + [sorted[|sorted| - 1]]
  }

  function SortByNumber(xs: seq<Attempt>): seq<Attempt> {
    if xs == [] then [] else Insert(SortByNumber(xs[..|xs| - 1]), xs[|xs| - 1])
  }

  /** An attempt with unknown effect stands in the way of another of its operation. */
  predicate Blocks(x: Attempt, y: Attempt) { x.unknown && x.operationId == y.operationId }

  ghost predicate BlockedIn(xs: seq<Attempt>) { exists i, j :: 0 <= i < j < |xs| && Blocks(xs[i], xs[j]) }

  /** Attempt `i` comes before attempt `j`. */
  predicate Precedes(xs: seq<Attempt>, i: nat, j: nat)
    requires i < |xs| && j < |xs|
  {
    xs[i].number < xs[j].number || (xs[i].number == xs[j].number && i < j)
  }

  ghost predicate Retried(xs: seq<Attempt>) {
    exists i, j :: 0 <= i < |xs| && 0 <= j < |xs| && Precedes(xs, i, j) && Blocks(xs[i], xs[j])
  }

  predicate Ascending(xs: seq<Attempt>) { forall i, j :: 0 <= i < j < |xs| ==> xs[i].number <= xs[j].number }

  lemma {:induction false} InsertMembers(sorted: seq<Attempt>, x: Attempt)
    ensures forall y :: y in Insert(sorted, x) <==> y == x || y in sorted
    decreases |sorted|
  {
    if !(sorted == [] || sorted[|sorted| - 1].number <= x.number) {
      InsertMembers(sorted[..|sorted| - 1], x);
      assert sorted == sorted[..|sorted| - 1] + [sorted[|sorted| - 1]];
    }
  }

  lemma {:induction false} InsertAscending(sorted: seq<Attempt>, x: Attempt)
    requires Ascending(sorted)
    ensures Ascending(Insert(sorted, x))
    decreases |sorted|
  {
    if !(sorted == [] || sorted[|sorted| - 1].number <= x.number) {
      var front, last := sorted[..|sorted| - 1], sorted[|sorted| - 1];
      InsertAscending(front, x);
      InsertMembers(front, x);
      var r := Insert(front, x);
      forall i | 0 <= i < |r| ensures r[i].number <= last.number { assert r[i] in r; }
    }
  }

  lemma BlockedSnoc(xs: seq<Attempt>, x: Attempt)
    ensures BlockedIn(xs + [x]) <==> BlockedIn(xs) || exists y :: y in xs && Blocks(y, x)
  {
    var longer := xs + [x];
    assert forall i :: 0 <= i < |xs| ==> longer[i] == xs[i];
    if BlockedIn(xs) {
      var i, j :| 0 <= i < j < |xs| && Blocks(xs[i], xs[j]);
      assert Blocks(longer[i], longer[j]);
    }
    if y :| y in xs && Blocks(y, x) {
      var i :| 0 <= i < |xs| && xs[i] == y;
      assert Blocks(longer[i], longer[|xs|]);
    }
  }

  /** The new attempt is blocked by one up to its number, or blocks one above. */
  ghost predicate Obstructs(xs: seq<Attempt>, x: Attempt) {
    (exists y :: y in xs && y.number <= x.number && Blocks(y, x)) ||
    (exists y :: y in xs && y.number > x.number && Blocks(x, y))
  }

  lemma SameMembersObstruct(a: seq<Attempt>, b: seq<Attempt>, x: Attempt)
    requires forall y :: y in a <==> y in b
    ensures Obstructs(a, x) <==> Obstructs(b, x)
  {
  }

  /** Inserting an attempt lets it be blocked by those up to its number, and block those above. */
  lemma {:induction false} InsertBlocked(sorted: seq<Attempt>, x: Attempt)
    requires Ascending(sorted)
    ensures BlockedIn(Insert(sorted, x)) <==>
              BlockedIn(sorted) || Obstructs(sorted, x)
    decreases |sorted|
  {
    if sorted == [] || sorted[|sorted| - 1].number <= x.number {
      BlockedSnoc(sorted, x);
      assert forall y :: y in sorted ==> y.number <= x.number;
    } else {
      var front, last := sorted[..|sorted| - 1], sorted[|sorted| - 1];
      assert sorted == front + [last];
      InsertBlocked(front, x);
      InsertMembers(front, x);
      BlockedSnoc(Insert(front, x), last);
      BlockedSnoc(front, last);
    }
  }

  lemma {:induction false} SortMembers(xs: seq<Attempt>)
    ensures Ascending(SortByNumber(xs))
    ensures forall y :: y in SortByNumber(xs) <==> y in xs
  {
    if xs != [] {
      var front, last := xs[..|xs| - 1], xs[|xs| - 1];
      SortMembers(front);
      InsertAscending(SortByNumber(front), last);
      InsertMembers(SortByNumber(front), last);
      assert xs == front + [last];
    }
  }

  lemma RetriedSnoc(xs: seq<Attempt>, x: Attempt)
    ensures Retried(xs + [x]) <==>
              Retried(xs) || Obstructs(xs, x)
  {
    var longer, n := xs + [x], |xs|;
    assert forall i :: 0 <= i < n ==> longer[i] == xs[i];
    if Retried(xs) {
      var i, j :| 0 <= i < n && 0 <= j < n && Precedes(xs, i, j) && Blocks(xs[i], xs[j]);
      assert Precedes(longer, i, j) && Blocks(longer[i], longer[j]);
    }
    if y :| y in xs && y.number <= x.number && Blocks(y, x) {
      var i :| 0 <= i < n && xs[i] == y;
      assert Precedes(longer, i, n) && Blocks(longer[i], longer[n]);
    }
    if y :| y in xs && y.number > x.number && Blocks(x, y) {
      var i :| 0 <= i < n && xs[i] == y;
      assert Precedes(longer, n, i) && Blocks(longer[n], longer[i]);
    }
    if Retried(longer) {
      var i, j :| 0 <= i <= n && 0 <= j <= n && Precedes(longer, i, j) && Blocks(longer[i], longer[j]);
      if i < n && j < n { assert Precedes(xs, i, j) && Blocks(xs[i], xs[j]); }
    }
  }

  /** Being blocked in sorted order is being retried in the order of attempts. */
  lemma {:induction false} SortedBlockedExactly(xs: seq<Attempt>)
    ensures BlockedIn(SortByNumber(xs)) <==> Retried(xs)
  {
    if xs != [] {
      var front, last := xs[..|xs| - 1], xs[|xs| - 1];
      SortedBlockedExactly(front);
      SortMembers(front);
      InsertBlocked(SortByNumber(front), last);
      RetriedSnoc(front, last);
      SameMembersObstruct(SortByNumber(front), front, last);
      assert xs == front + [last];
    }
  }

  /** `unknown_effect_retry_blocked`: no attempt follows an unknown one of its operation. */
  method UnknownEffectRetryBlocked(xs: seq<Attempt>) returns (ok: bool)
    ensures ok <==> !Retried(xs)
  {
    var sorted := SortByNumber(xs);
    SortedBlockedExactly(xs);
    var unknown: set<string> := {};
    var i := 0;
    while i < |sorted|
      invariant 0 <= i <= |sorted| && !BlockedIn(sorted[..i])
      invariant unknown == set j | 0 <= j < i && sorted[j].unknown :: sorted[j].operationId
    {
      var x := sorted[i];
      BlockedSnoc(sorted[..i], x);
      assert sorted[..i + 1] == sorted[..i] + [x];
      if x.operationId in unknown {
        var j :| 0 <= j < i && sorted[j].unknown && sorted[j].operationId == x.operationId;
        assert Blocks(sorted[j], sorted[i]);
        return false;
      }
      if x.unknown { unknown := unknown + {x.operationId}; }
      i := i + 1;
    }
    assert sorted[..i] == sorted;
    return true;
  }
}
