// Leases on queued rows, as the outbox and the artifact table both use them: a
// claim lasts 60 seconds, and only the current claimant may close or retry.
module Leases {
  import opened Wrappers
  import opened KeyOrder

  const SECOND := 1_000_000
  const LEASE := 60 * SECOND

  /** How a row leaves the queue. */
  datatype Closing = Published | Available | Unavailable

  datatype Row = Row(
    createdAt: int, availableAt: int,
    claimedAt: Option<int>, claimedBy: Option<string>, attempts: nat,
    closed: Option<Closing>, lastError: Option<string>)

  type Queue = map<string, Row>

  predicate Eligible(r: Row, now: int) {
    && r.closed.None?
    && r.availableAt <= now
    && (r.claimedAt.None? || r.claimedAt.value < now - LEASE)
  }

  // ---------- picking candidates ----------

  /** `ORDER BY created_at, id`. */
  predicate Earlier(q: Queue, a: string, b: string)
    requires a in q && b in q
  {
    q[a].createdAt < q[b].createdAt ||
    (q[a].createdAt == q[b].createdAt && Before(CodePoint, a, b))
  }

  predicate First(q: Queue, pool: set<string>, x: string)
    requires pool <= q.Keys
  {
    x in pool && forall y :: y in pool && y != x ==> Earlier(q, x, y)
  }

  lemma EarlierIsStrictTotal(q: Queue, a: string, b: string, c: string)
    requires a in q && b in q && c in q
    ensures Earlier(q, a, b) ==> !Earlier(q, b, a)
    ensures Earlier(q, a, b) && Earlier(q, b, c) ==> Earlier(q, a, c)
    ensures Earlier(q, a, b) || Earlier(q, b, a) || a == b
  {
    BeforeIsStrictTotal(CodePoint, a, b, c);
  }

  lemma {:induction false} FirstExists(q: Queue, pool: set<string>) returns (x: string)
    requires pool <= q.Keys && pool != {}
    ensures First(q, pool, x)
    decreases |pool|
  {
    x :| x in pool;
    if pool != {x} {
      var y := FirstExists(q, pool - {x});
      EarlierIsStrictTotal(q, x, y, x);
      if Earlier(q, y, x) {
        x := y;
      } else {
        forall z | z in pool && z != x ensures Earlier(q, x, z) { EarlierIsStrictTotal(q, x, y, z); }
      }
    }
  }

  function FirstOf(q: Queue, pool: set<string>): (x: string)
    requires pool <= q.Keys && pool != {}
    ensures First(q, pool, x)
  {
    assert exists x :: First(q, pool, x) by { var x := FirstExists(q, pool); }
    assert forall x, y :: First(q, pool, x) && First(q, pool, y) ==> x == y by {
      forall x, y | First(q, pool, x) && First(q, pool, y) ensures x == y { EarlierIsStrictTotal(q, x, y, x); }
    }
    var x :| x in pool && First(q, pool, x);
    x
  }

  /** The first rows of a pool, at most `limit` of them. */
  function Pick(q: Queue, pool: set<string>, limit: nat): (ids: seq<string>)
    requires pool <= q.Keys
    ensures forall i :: 0 <= i < |ids| ==> ids[i] in pool
    ensures forall i, j :: 0 <= i < j < |ids| ==> ids[i] != ids[j] && Earlier(q, ids[i], ids[j])
    ensures |ids| <= limit
    ensures |ids| < limit ==> forall x :: x in pool ==> x in ids
    ensures forall x, i :: x in pool && x !in ids && 0 <= i < |ids| ==> Earlier(q, ids[i], x)
    decreases limit
  {
    if pool == {} || limit == 0 then []
    else
      var x := FirstOf(q, pool);
      var rest := Pick(q, pool - {x}, limit - 1);
      [x] + rest
  }

  /** Rows a claim may take: eligible, and not locked by a concurrent transaction. */
  function Candidates(q: Queue, locked: set<string>, now: int): set<string> {
    set x | x in q && x !in locked && Eligible(q[x], now)
  }

  // ---------- transitions ----------

  function ClaimRow(r: Row, worker: string, now: int): Row {
    r.(claimedAt := Some(now), claimedBy := Some(worker), attempts := r.attempts + 1)
  }

  function Claim(q: Queue, ids: seq<string>, worker: string, now: int): (u: Queue)
    ensures u.Keys == q.Keys
  {
    map x | x in q :: if x in ids then ClaimRow(q[x], worker, now) else q[x]
  }

  predicate Holds(q: Queue, id: string, worker: string) {
    id in q && q[id].claimedBy == Some(worker) && q[id].closed.None?
  }

  function CloseRow(r: Row, how: Closing, note: Option<string>): Row {
    r.(closed := Some(how), claimedAt := None, claimedBy := None, lastError := note)
  }

  function RetryRow(r: Row, now: int, delay: int, error: string): Row {
    r.(availableAt := now + delay * SECOND, claimedAt := None, claimedBy := None, lastError := Some(error))
  }

  // ---------- history ----------

  datatype Event =
    | Claimed(id: string, worker: string, at: int)
    | Closed(id: string, worker: string, how: Closing)
    | Retried(id: string, worker: string, at: int, delay: int)

  function EventsOf(log: seq<Event>, id: string): seq<Event> {
    if log == [] then []
    else EventsOf(log[..|log| - 1], id) + if log[|log| - 1].id == id then [log[|log| - 1]] else []
  }

  function ClaimCount(es: seq<Event>): nat {
    if es == [] then 0
    else ClaimCount(es[..|es| - 1]) + if es[|es| - 1].Claimed? then 1 else 0
  }

  /** Which event may follow which, for one row. */
  predicate Follows(last: Option<Event>, e: Event) {
    match last
    case None => e.Claimed?
    case Some(Claimed(_, w, at)) => (e.Claimed? && at < e.at - LEASE) || (!e.Claimed? && e.worker == w)
    case Some(Closed(_, _, _)) => false
    case Some(Retried(_, _, at, delay)) => e.Claimed? && at + delay * SECOND <= e.at
  }

  function LastOf(es: seq<Event>): Option<Event> {
    if es == [] then None else Some(es[|es| - 1])
  }

  /** Every event of a row's history is allowed after those before it. */
  predicate Legal(es: seq<Event>) {
    forall i :: 0 <= i < |es| ==> Follows(LastOf(es[..i]), es[i])
  }

  /** The columns of a row against its history. */
  predicate Explains(es: seq<Event>, r: Row) {
    && r.attempts == ClaimCount(es)
    && match LastOf(es)
       case None => r.claimedAt.None? && r.claimedBy.None? && r.closed.None?
       case Some(Claimed(_, w, at)) => r.claimedAt == Some(at) && r.claimedBy == Some(w) && r.closed.None?
       case Some(Closed(_, _, how)) => r.claimedAt.None? && r.claimedBy.None? && r.closed == Some(how)
       case Some(Retried(_, _, at, delay)) =>
         r.claimedAt.None? && r.claimedBy.None? && r.closed.None? && r.availableAt == at + delay * SECOND
  }

  datatype State = State(rows: Queue, log: seq<Event>)

  predicate Inv(s: State) {
    && (forall i :: 0 <= i < |s.log| ==> s.log[i].id in s.rows)
    && forall id :: id in s.rows ==> Legal(EventsOf(s.log, id)) && Explains(EventsOf(s.log, id), s.rows[id])
  }

  lemma EventsSnoc(log: seq<Event>, e: Event, id: string)
    ensures EventsOf(log + [e], id) == EventsOf(log, id) + if e.id == id then [e] else []
  {
    assert (log + [e])[..|log|] == log;
  }

  lemma LegalGrows(es: seq<Event>, e: Event)
    requires Legal(es) && Follows(LastOf(es), e)
    ensures Legal(es + [e])
    ensures ClaimCount(es + [e]) == ClaimCount(es) + if e.Claimed? then 1 else 0
  {
    var all := es + [e];
    assert all[..|es|] == es;
    forall i | 0 <= i < |all|
      ensures Follows(LastOf(all[..i]), all[i])
    {
      if i < |es| { assert all[..i] == es[..i]; }
    }
  }

  /** One row moves by one allowed event; the others keep their histories. */
  lemma EventKeeps(s: State, e: Event, row: Row)
    requires Inv(s) && e.id in s.rows
    requires Follows(LastOf(EventsOf(s.log, e.id)), e)
    requires Explains(EventsOf(s.log, e.id) + [e], row)
    ensures Inv(State(s.rows[e.id := row], s.log + [e]))
  {
    var u := State(s.rows[e.id := row], s.log + [e]);
    forall id | id in u.rows
      ensures Legal(EventsOf(u.log, id)) && Explains(EventsOf(u.log, id), u.rows[id])
    {
      EventsSnoc(s.log, e, id);
      if id == e.id {
        LegalGrows(EventsOf(s.log, id), e);
      } else {
        assert EventsOf(u.log, id) == EventsOf(s.log, id);
      }
    }
  }

  // ---------- actions ----------

  datatype Action =
    | Enqueue(id: string, now: int)
    | ClaimCall(worker: string, limit: nat, locked: set<string>, now: int)
    | CloseCall(id: string, worker: string, how: Closing, note: Option<string>)
    | RetryCall(id: string, worker: string, error: string, delay: int, now: int)

  const MAX_LIMIT := 500

  predicate ValidClaim(worker: string, limit: nat) { worker != "" && 1 <= limit <= MAX_LIMIT }

  predicate ValidRetry(error: string, delay: int, maxError: nat) {
    1 <= |error| <= maxError && 1 <= delay <= 3600
  }

  function NewRow(now: int): Row { Row(now, now, None, None, 0, None, None) }

  function ClaimIds(q: Queue, limit: nat, locked: set<string>, now: int): seq<string> {
    Pick(q, Candidates(q, locked, now), limit)
  }

  function ClaimEvents(ids: seq<string>, worker: string, now: int): seq<Event> {
    seq(|ids|, i requires 0 <= i < |ids| => Claimed(ids[i], worker, now))
  }

  /** One atomic step of any worker; a refused call changes nothing. */
  function Apply(s: State, a: Action): State {
    match a
    case Enqueue(id, now) => if id in s.rows then s else s.(rows := s.rows[id := NewRow(now)])
    case ClaimCall(worker, limit, locked, now) =>
      if !ValidClaim(worker, limit) then s
      else
        var ids := ClaimIds(s.rows, limit, locked, now);
        State(Claim(s.rows, ids, worker, now), s.log + ClaimEvents(ids, worker, now))
    case CloseCall(id, worker, how, note) =>
      if !Holds(s.rows, id, worker) then s
      else State(s.rows[id := CloseRow(s.rows[id], how, note)], s.log + [Closed(id, worker, how)])
    case RetryCall(id, worker, error, delay, now) =>
      if !ValidRetry(error, delay, 2000) || !Holds(s.rows, id, worker) then s
      else State(s.rows[id := RetryRow(s.rows[id], now, delay, error)], s.log + [Retried(id, worker, now, delay)])
  }

  function ApplyAll(s: State, actions: seq<Action>): State
    decreases |actions|
  {
    if actions == [] then s else ApplyAll(Apply(s, actions[0]), actions[1..])
  }

  lemma EnqueueKeeps(s: State, id: string, now: int)
    requires Inv(s) && id !in s.rows
    ensures Inv(s.(rows := s.rows[id := NewRow(now)]))
  {
    NoEventsYet(s.log, id);
  }

  lemma {:induction false} NoEventsYet(log: seq<Event>, id: string)
    requires forall i :: 0 <= i < |log| ==> log[i].id != id
    ensures EventsOf(log, id) == []
  {
    if log != [] { NoEventsYet(log[..|log| - 1], id); }
  }

  /** Claiming an eligible row is an allowed event that its new columns explain. */
  lemma ClaimOneKeeps(s: State, id: string, worker: string, now: int)
    requires Inv(s) && id in s.rows && Eligible(s.rows[id], now)
    ensures Inv(State(s.rows[id := ClaimRow(s.rows[id], worker, now)], s.log + [Claimed(id, worker, now)]))
  {
    var es := EventsOf(s.log, id);
    LegalGrows(es, Claimed(id, worker, now));
    EventKeeps(s, Claimed(id, worker, now), ClaimRow(s.rows[id], worker, now));
  }

  lemma {:induction false} ClaimKeeps(s: State, ids: seq<string>, worker: string, now: int)
    requires Inv(s)
    requires forall i :: 0 <= i < |ids| ==> ids[i] in s.rows && Eligible(s.rows[ids[i]], now)
    requires forall i, j :: 0 <= i < j < |ids| ==> ids[i] != ids[j]
    ensures Inv(State(Claim(s.rows, ids, worker, now), s.log + ClaimEvents(ids, worker, now)))
    decreases |ids|
  {
    if ids == [] {
      assert Claim(s.rows, ids, worker, now) == s.rows;
      assert s.log + ClaimEvents(ids, worker, now) == s.log;
    } else {
      var front, id := ids[..|ids| - 1], ids[|ids| - 1];
      ClaimKeeps(s, front, worker, now);
      var u := State(Claim(s.rows, front, worker, now), s.log + ClaimEvents(front, worker, now));
      assert id !in front && u.rows[id] == s.rows[id];
      ClaimOneKeeps(u, id, worker, now);
      ClaimLast(s.rows, ids, worker, now);
      EventsLast(s.log, ids, worker, now);
    }
  }

  lemma ClaimLast(q: Queue, ids: seq<string>, worker: string, now: int)
    requires ids != [] && (forall i, j :: 0 <= i < j < |ids| ==> ids[i] != ids[j]) && ids[|ids| - 1] in q
    ensures var front, id := ids[..|ids| - 1], ids[|ids| - 1];
            Claim(q, ids, worker, now) == Claim(q, front, worker, now)[id := ClaimRow(q[id], worker, now)]
  {
    var front, id := ids[..|ids| - 1], ids[|ids| - 1];
    assert forall x :: x in ids <==> x in front || x == id by { assert ids == front + [id]; }
  }

  lemma EventsLast(log: seq<Event>, ids: seq<string>, worker: string, now: int)
    requires ids != []
    ensures log + ClaimEvents(ids, worker, now) ==
            (log + ClaimEvents(ids[..|ids| - 1], worker, now)) + [Claimed(ids[|ids| - 1], worker, now)]
  {
  }

  lemma CloseKeeps(s: State, id: string, worker: string, how: Closing, note: Option<string>)
    requires Inv(s) && Holds(s.rows, id, worker)
    ensures Inv(State(s.rows[id := CloseRow(s.rows[id], how, note)], s.log + [Closed(id, worker, how)]))
  {
    LegalGrows(EventsOf(s.log, id), Closed(id, worker, how));
    EventKeeps(s, Closed(id, worker, how), CloseRow(s.rows[id], how, note));
  }

  lemma RetryKeeps(s: State, id: string, worker: string, error: string, delay: int, now: int)
    requires Inv(s) && Holds(s.rows, id, worker)
    ensures Inv(State(s.rows[id := RetryRow(s.rows[id], now, delay, error)], s.log + [Retried(id, worker, now, delay)]))
  {
    LegalGrows(EventsOf(s.log, id), Retried(id, worker, now, delay));
    EventKeeps(s, Retried(id, worker, now, delay), RetryRow(s.rows[id], now, delay, error));
  }

  lemma ApplyKeeps(s: State, a: Action)
    requires Inv(s)
    ensures Inv(Apply(s, a)) && s.rows.Keys <= Apply(s, a).rows.Keys
  {
    match a
    case Enqueue(id, now) => if id !in s.rows { EnqueueKeeps(s, id, now); }
    case ClaimCall(worker, limit, locked, now) => ClaimKeeps(s, ClaimIds(s.rows, limit, locked, now), worker, now);
    case CloseCall(id, worker, how, note) => if Holds(s.rows, id, worker) { CloseKeeps(s, id, worker, how, note); }
    case RetryCall(id, worker, error, delay, now) =>
      if Holds(s.rows, id, worker) { RetryKeeps(s, id, worker, error, delay, now); }
  }

  /** Any interleaving of any workers' calls, at any times, with any rows locked. */
  lemma {:induction false} InterleavingKeeps(s: State, actions: seq<Action>)
    requires Inv(s)
    ensures Inv(ApplyAll(s, actions))
    decreases |actions|
  {
    if actions != [] {
      ApplyKeeps(s, actions[0]);
      InterleavingKeeps(Apply(s, actions[0]), actions[1..]);
    }
  }

  // ---------- what a legal history means ----------

  lemma Consecutive(es: seq<Event>, i: nat)
    requires Legal(es) && i + 1 < |es|
    ensures Follows(Some(es[i]), es[i + 1])
  {
    assert es[..i + 1][i] == es[i];
    assert Follows(LastOf(es[..i + 1]), es[i + 1]);
  }

  /** A closed row is never touched again. */
  lemma ClosedIsLast(es: seq<Event>, i: nat)
    requires Legal(es) && i < |es| && es[i].Closed?
    ensures i == |es| - 1
  {
    if i + 1 < |es| { Consecutive(es, i); }
  }

  /** Only the claimant of the directly preceding claim closes or retries. */
  lemma ReleasedByClaimant(es: seq<Event>, i: nat)
    requires Legal(es) && i < |es| && !es[i].Claimed?
    ensures i > 0 && es[i - 1].Claimed? && es[i - 1].worker == es[i].worker
  {
    assert Follows(LastOf(es[..i]), es[i]);
    if i > 0 { assert es[..i][i - 1] == es[i - 1]; }
  }

  /** Two claims of one row are separated by a release, or by more than the lease. */
  lemma {:induction false} ClaimsExclusive(es: seq<Event>, i: nat, j: nat)
    requires Legal(es) && i < j < |es| && es[i].Claimed? && es[j].Claimed?
    requires forall k :: i < k < j ==> es[k].Claimed?
    ensures es[i].at + LEASE < es[j].at
    decreases j
  {
    Consecutive(es, j - 1);
    if i < j - 1 { ClaimsExclusive(es, i, j - 1); }
  }

  /** Claimed again only after the retry delay has passed. */
  lemma RetryWaits(es: seq<Event>, i: nat)
    requires Legal(es) && i + 1 < |es| && es[i].Retried?
    ensures es[i + 1].Claimed? && es[i].at + es[i].delay * SECOND <= es[i + 1].at
  {
    Consecutive(es, i);
  }

  /** An eligible, unlocked row is taken unless the limit is used up by earlier rows. */
  lemma ClaimReaches(s: State, id: string, worker: string, limit: nat, locked: set<string>, now: int)
    requires id in s.rows && id !in locked && Eligible(s.rows[id], now) && ValidClaim(worker, limit)
    ensures var u := Apply(s, ClaimCall(worker, limit, locked, now));
            var ids := ClaimIds(s.rows, limit, locked, now);
            if id in ids then u.rows[id] == ClaimRow(s.rows[id], worker, now)
            else |ids| == limit && forall i :: 0 <= i < |ids| ==> Earlier(s.rows, ids[i], id)
  {
  }

  // ---------- what each call does, from the columns alone ----------

  /** Open, due, not held by a claim of the last 60 seconds, and not locked. */
  predicate Free(q: Queue, locked: set<string>, now: int, x: string) {
    && x in q && x !in locked && q[x].closed == None && now >= q[x].availableAt
    && (q[x].claimedAt == None || now - q[x].claimedAt.value > 60_000_000)
  }

  /** A claim with valid arguments takes the free rows created first, as many as it may. */
  lemma ClaimTakes(s: State, worker: string, limit: nat, locked: set<string>, now: int) returns (taken: set<string>)
    ensures var u := Apply(s, ClaimCall(worker, limit, locked, now));
            if worker == "" || limit < 1 || limit > 500 then u == s
            else
              |taken| <= limit && (forall x :: x in taken ==> Free(s.rows, locked, now, x)) &&
              (forall x :: Free(s.rows, locked, now, x) && x !in taken ==>
                 |taken| == limit && forall y :: y in taken ==>
                   s.rows[y].createdAt < s.rows[x].createdAt ||
                   (s.rows[y].createdAt == s.rows[x].createdAt && Before(CodePoint, y, x))) &&
              u.rows.Keys == s.rows.Keys &&
              forall x :: x in s.rows ==>
                u.rows[x] == if x in taken
                             then s.rows[x].(claimedAt := Some(now), claimedBy := Some(worker), attempts := s.rows[x].attempts + 1)
                             else s.rows[x]
  {
    var ids := ClaimIds(s.rows, limit, locked, now);
    taken := set x | x in ids;
    PickedSize(ids);
    forall x ensures Free(s.rows, locked, now, x) <==> x in Candidates(s.rows, locked, now) { }
    forall i | 0 <= i < |ids| ensures ids[i] in taken { }
  }

  lemma {:induction false} PickedSize(ids: seq<string>)
    requires forall i, j :: 0 <= i < j < |ids| ==> ids[i] != ids[j]
    ensures |set x | x in ids| == |ids|
  {
    if ids != [] {
      var front, last := ids[..|ids| - 1], ids[|ids| - 1];
      PickedSize(front);
      assert ids == front + [last];
      assert (set x | x in ids) == (set x | x in front) + {last};
    }
  }

  /** The claimant closes an open row: unclaimed from then on, with the given note; no other row changes. */
  lemma CloseExactly(s: State, id: string, worker: string, how: Closing, note: Option<string>)
    ensures var u := Apply(s, CloseCall(id, worker, how, note));
            if id in s.rows && s.rows[id].claimedBy == Some(worker) && s.rows[id].closed == None then
              u.log != s.log && u.rows.Keys == s.rows.Keys &&
              (forall x :: x in s.rows && x != id ==> u.rows[x] == s.rows[x]) &&
              var (r, r') := (s.rows[id], u.rows[id]);
              r' == Row(r.createdAt, r.availableAt, None, None, r.attempts, Some(how), note)
            else u == s
  {
  }

  /** The claimant hands a row back: due again after the delay, which is between a second and an hour. */
  lemma RetryExactly(s: State, id: string, worker: string, error: string, delay: int, now: int)
    ensures var u := Apply(s, RetryCall(id, worker, error, delay, now));
            if 0 < |error| < 2001 && 0 < delay < 3601 &&
               id in s.rows && s.rows[id].claimedBy == Some(worker) && s.rows[id].closed == None then
              u.log != s.log && u.rows.Keys == s.rows.Keys &&
              (forall x :: x in s.rows && x != id ==> u.rows[x] == s.rows[x]) &&
              var (r, r') := (s.rows[id], u.rows[id]);
              r' == Row(r.createdAt, now + 1_000_000 * delay, None, None, r.attempts, None, Some(error))
            else u == s
  {
  }

  // ---------- progress ----------

  function Max(a: int, b: int): int { if a < b then b else a }

  /** When an open row can be claimed again: it is available, and more than a lease has passed. */
  function ReturnsAt(r: Row): int {
    if r.claimedAt.None? then r.availableAt else Max(r.availableAt, r.claimedAt.value + LEASE + 1)
  }

  /** An open row ahead of `id` that a claim made by then could take. */
  predicate Rival(q: Queue, id: string, until: int, x: string)
    requires id in q && x in q
  {
    Earlier(q, x, id) && q[x].closed.None? && (q[x].claimedAt.None? || q[x].claimedAt.value < until - LEASE)
  }

  function Rivals(q: Queue, id: string, until: int): set<string>
    requires id in q
  {
    set x | x in q && Rival(q, id, until, x)
  }

  function ClaimCalls(actions: seq<Action>): nat {
    if actions == [] then 0
    else (if actions[0].ClaimCall? && ValidClaim(actions[0].worker, actions[0].limit) then 1 else 0) + ClaimCalls(actions[1..])
  }

  /** Calls that can put a row in front of another: new rows, and rows handed back. */
  function Arrivals(actions: seq<Action>): nat {
    if actions == [] then 0
    else (if actions[0].Enqueue? || actions[0].RetryCall? then 1 else 0) + Arrivals(actions[1..])
  }

  /** A claim in this time span that does not find the row locked. */
  predicate Timely(a: Action, id: string, from: int, until: int) {
    a.ClaimCall? && ValidClaim(a.worker, a.limit) ==> from <= a.now <= until && id !in a.locked
  }

  /** The row is left as it is by each of these calls. */
  predicate Untouched(s: State, actions: seq<Action>, id: string)
    decreases |actions|
  {
    id in s.rows &&
    (actions != [] ==>
       id in Apply(s, actions[0]).rows && Apply(s, actions[0]).rows[id] == s.rows[id] &&
       Untouched(Apply(s, actions[0]), actions[1..], id))
  }

  lemma {:induction false} Subset(a: set<string>, b: set<string>)
    requires a <= b
    ensures |a| <= |b|
    decreases |a|
  {
    if x :| x in a { Subset(a - {x}, b - {x}); }
  }

  /** A claim that leaves an eligible row alone uses up a row ahead of it. */
  lemma ClaimUsesRival(s: State, a: Action, id: string, from: int, until: int)
    requires id in s.rows && Eligible(s.rows[id], from) && until <= from + LEASE
    requires a.ClaimCall? && ValidClaim(a.worker, a.limit) && Timely(a, id, from, until)
    requires Apply(s, a).rows[id] == s.rows[id]
    ensures |Rivals(Apply(s, a).rows, id, until)| < |Rivals(s.rows, id, until)|
  {
    var u := Apply(s, a);
    var ids := ClaimIds(s.rows, a.limit, a.locked, a.now);
    var before, after := Rivals(s.rows, id, until), Rivals(u.rows, id, until);
    ClaimReaches(s, id, a.worker, a.limit, a.locked, a.now);
    assert id !in ids && ids[0] in ids;
    assert Eligible(s.rows[ids[0]], a.now) && Earlier(s.rows, ids[0], id);
    assert ids[0] in before && ids[0] !in after;
    forall x | x in after ensures x in before - {ids[0]} { }
    Subset(after, before - {ids[0]});
  }

  /** Any other call lets in one such row at most. */
  lemma OtherCallsAdd(s: State, a: Action, id: string, until: int)
    requires id in s.rows && !(a.ClaimCall? && ValidClaim(a.worker, a.limit))
    requires id in Apply(s, a).rows && Apply(s, a).rows[id] == s.rows[id]
    ensures |Rivals(Apply(s, a).rows, id, until)| <= |Rivals(s.rows, id, until)| + if a.Enqueue? || a.RetryCall? then 1 else 0
  {
    var before, after := Rivals(s.rows, id, until), Rivals(Apply(s, a).rows, id, until);
    if a.Enqueue? || a.RetryCall? {
      assert after <= before + {a.id};
      Subset(after, before + {a.id});
    } else {
      assert after <= before;
      Subset(after, before);
    }
  }

  /**
   * An open row is reached again: after max(available_at, claimed_at + 60 s), within
   * one lease period, it can be passed over by no more claims than there were open rows
   * ahead of it, and rows that came or came back.
   */
  lemma {:induction false} PassedOverBoundedly(s: State, actions: seq<Action>, id: string, from: int, until: int)
    requires id in s.rows && s.rows[id].closed.None? && ReturnsAt(s.rows[id]) <= from <= until <= from + LEASE
    requires forall a :: a in actions ==> Timely(a, id, from, until)
    requires Untouched(s, actions, id)
    ensures ClaimCalls(actions) <= |Rivals(s.rows, id, until)| + Arrivals(actions)
    decreases |actions|
  {
    if actions != [] {
      var a := actions[0];
      assert a in actions;
      if a.ClaimCall? && ValidClaim(a.worker, a.limit) {
        ClaimUsesRival(s, a, id, from, until);
      } else {
        OtherCallsAdd(s, a, id, until);
      }
      PassedOverBoundedly(Apply(s, a), actions[1..], id, from, until);
    }
  }

  // ---------- the log only grows ----------

  lemma LogGrows(s: State, a: Action)
    ensures s.log <= Apply(s, a).log
  {
  }

  lemma {:induction false} LogGrowsOver(s: State, actions: seq<Action>)
    ensures s.log <= ApplyAll(s, actions).log
    decreases |actions|
  {
    if actions != [] { LogGrowsOver(Apply(s, actions[0]), actions[1..]); }
  }
}
