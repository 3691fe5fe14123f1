// The outbox table and the worker that publishes from it.
module Outbox {
  import opened Wrappers
  import opened Leases

  datatype Error = InvalidArgument | LeaseLost

  /** What `claim_outbox` returns for one row. */
  datatype Item = Item(id: string, attempts: nat)

  class OutboxStore {
    var rows: Queue
    ghost var log: seq<Event>

    ghost function Abstract(): State
      reads this
    {
      State(rows, log)
    }

    constructor ()
      ensures Abstract() == State(map[], []) && Inv(Abstract())
    {
      rows, log := map[], [];
    }

    method ClaimOutbox(worker: string, limit: nat, locked: set<string>, now: int)
      returns (r: Result<seq<Item>, Error>)
      modifies this
      ensures Abstract() == Apply(old(Abstract()), ClaimCall(worker, limit, locked, now))
      ensures !ValidClaim(worker, limit) <==> r == Failure(InvalidArgument)
      ensures ValidClaim(worker, limit) <==> r.Success?
      ensures r.Success? ==> ItemsOf(r.value, ClaimIds(old(rows), limit, locked, now), old(rows))
    {
      if !ValidClaim(worker, limit) { return Failure(InvalidArgument); }
      var ids := ClaimIds(rows, limit, locked, now);
      var claimed := Claim(rows, ids, worker, now);
      assert forall i :: 0 <= i < |ids| ==> ids[i] in claimed && claimed[ids[i]] == ClaimRow(rows[ids[i]], worker, now);
      rows := claimed;
      log := log + ClaimEvents(ids, worker, now);
      return Success(seq(|ids|, i requires 0 <= i < |ids| => Item(ids[i], claimed[ids[i]].attempts)));
    }

    method CompleteOutbox(id: string, worker: string) returns (r: Result<(), Error>)
      modifies this
      ensures Abstract() == Apply(old(Abstract()), CloseCall(id, worker, Published, None))
      ensures r == if Holds(old(rows), id, worker) then Success(()) else Failure(LeaseLost)
    {
      if !Holds(rows, id, worker) { return Failure(LeaseLost); }
      rows := rows[id := CloseRow(rows[id], Published, None)];
      log := log + [Closed(id, worker, Published)];
      return Success(());
    }

    method RetryOutbox(id: string, worker: string, error: string, delay: int, now: int) returns (r: Result<(), Error>)
      modifies this
      ensures Abstract() == Apply(old(Abstract()), RetryCall(id, worker, error, delay, now))
      ensures r == if !ValidRetry(error, delay, 2000) then Failure(InvalidArgument)
                   else if Holds(old(rows), id, worker) then Success(()) else Failure(LeaseLost)
    {
      if !ValidRetry(error, delay, 2000) { return Failure(InvalidArgument); }
      if !Holds(rows, id, worker) { return Failure(LeaseLost); }
      rows := rows[id := RetryRow(rows[id], now, delay, error)];
      log := log + [Retried(id, worker, now, delay)];
      return Success(());
    }

    /** Calls other workers make in between. */
    method Others(actions: seq<Action>)
      modifies this
      ensures Abstract() == ApplyAll(old(Abstract()), actions)
    {
      var i := 0;
      while i < |actions|
        invariant 0 <= i <= |actions|
        invariant ApplyAll(Abstract(), actions[i..]) == ApplyAll(old(Abstract()), actions)
      {
        assert actions[i..][0] == actions[i] && actions[i..][1..] == actions[i + 1..];
        ghost var before := Abstract();
        match actions[i] {
          case Enqueue(id, now) => if id !in rows { rows := rows[id := NewRow(now)]; }
          case ClaimCall(worker, limit, locked, now) => var _ := ClaimOutbox(worker, limit, locked, now);
          case CloseCall(id, worker, how, note) =>
            if Holds(rows, id, worker) {
              rows := rows[id := CloseRow(rows[id], how, note)];
              log := log + [Closed(id, worker, how)];
            }
          case RetryCall(id, worker, error, delay, now) => var _ := RetryOutbox(id, worker, error, delay, now);
        }
        assert Abstract() == Apply(before, actions[i]);
        i := i + 1;
      }
    }
  }

  predicate ItemsOf(items: seq<Item>, ids: seq<string>, q: Queue) {
    && |items| == |ids|
    && forall i :: 0 <= i < |ids| ==> ids[i] in q && items[i] == Item(ids[i], q[ids[i]].attempts + 1)
  }

  // ---------- the worker ----------

  function Min(a: int, b: int): int { if a < b then a else b }

  function Pow2(n: nat): int { if n == 0 then 1 else 2 * Pow2(n - 1) }

  /** Seconds to wait after an unsuccessful publication. */
  function Backoff(attempts: nat): int { Min(Pow2(Min(attempts, 10)), 3600) }

  lemma {:induction false} Pow2Grows(m: nat, n: nat)
    requires m <= n
    ensures 1 <= Pow2(m) <= Pow2(n)
    decreases n
  {
    if m < n { Pow2Grows(m, n - 1); } else if n > 0 { Pow2Grows(m - 1, n - 1); }
  }

  /** The backoff is monotone and always inside the bounds the store enforces. */
  lemma BackoffBounds(m: nat, n: nat)
    requires m <= n
    ensures 1 <= Backoff(m) <= Backoff(n) <= 1024
  {
    Pow2Grows(Min(m, 10), Min(n, 10));
    Pow2Grows(Min(n, 10), 10);
    assert Pow2(10) == 1024;
  }

  /** The wait doubles with each attempt, up to the tenth, from one second on. */
  lemma BackoffDoubles(n: nat)
    ensures Backoff(0) == 1
    ensures n < 10 ==> Backoff(n + 1) == 2 * Backoff(n)
    ensures n >= 10 ==> Backoff(n) == 1024
  {
    Pow2Grows(Min(n, 10), 10);
    if n < 10 { Pow2Grows(n + 1, 10); }
    assert Pow2(10) == 1024;
  }

  /**
   * What happens around one publication: other workers' calls before it and between
   * it and the store call, whether the callback returned, and the time of the call.
   */
  datatype Round = Round(before: seq<Action>, publishes: bool, errorName: string, after: seq<Action>, now: int)

  function ErrorText(name: string): string { name + ": publication failed" }

  /** The worker's own store call after publishing an item. */
  function OwnCall(worker: string, item: Item, round: Round): Action {
    if round.publishes then CloseCall(item.id, worker, Published, None)
    else RetryCall(item.id, worker, ErrorText(round.errorName), Backoff(item.attempts), round.now)
  }

  /** The state in which the worker makes its own call for an item. */
  function AtCall(s: State, round: Round): State { ApplyAll(ApplyAll(s, round.before), round.after) }

  /** Whether the store accepts that call; otherwise the loop ends with an exception. */
  predicate CallAccepted(s: State, worker: string, item: Item, round: Round) {
    var t := AtCall(s, round);
    Holds(t.rows, item.id, worker) &&
    (round.publishes || ValidRetry(ErrorText(round.errorName), Backoff(item.attempts), 2000))
  }

  /** It does for an open row that the worker holds, if it was published or the error's name is not too long. */
  lemma CallAcceptedExactly(s: State, worker: string, item: Item, round: Round)
    ensures CallAccepted(s, worker, item, round) <==>
            var t := AtCall(s, round);
            item.id in t.rows && t.rows[item.id].closed == None && t.rows[item.id].claimedBy == Some(worker) &&
            (round.publishes || |round.errorName| < 1981)
  {
    RetryArgumentsExactly(round.errorName, item.attempts);
  }

  /** The loop over the remaining items: final state, and how many were dealt with. */
  function WorkThrough(s: State, worker: string, items: seq<Item>, rounds: nat -> Round, i: nat): (State, nat)
    requires i <= |items|
    decreases |items| - i
  {
    if i == |items| then (s, i)
    else
      var t := AtCall(s, rounds(i));
      if !CallAccepted(s, worker, items[i], rounds(i)) then (Apply(t, OwnCall(worker, items[i], rounds(i))), i)
      else WorkThrough(Apply(t, OwnCall(worker, items[i], rounds(i))), worker, items, rounds, i + 1)
  }

  function CountPublished(rounds: nat -> Round, n: nat): nat {
    if n == 0 then 0 else CountPublished(rounds, n - 1) + if rounds(n - 1).publishes then 1 else 0
  }

  /** One more item, from the state in which the loop reaches it. */
  lemma NextItem(s: State, worker: string, items: seq<Item>, rounds: nat -> Round, i: nat, result: (State, nat))
    requires i < |items| && WorkThrough(s, worker, items, rounds, i) == result
    ensures var u := Apply(AtCall(s, rounds(i)), OwnCall(worker, items[i], rounds(i)));
            result == if CallAccepted(s, worker, items[i], rounds(i)) then WorkThrough(u, worker, items, rounds, i + 1) else (u, i)
    ensures CountPublished(rounds, i + 1) == CountPublished(rounds, i) + if rounds(i).publishes then 1 else 0
  {
  }

  /** The rounds among the first `n` in which the callback returned. */
  function PublishedRounds(rounds: nat -> Round, n: nat): set<nat> { set i: nat | i < n && rounds(i).publishes }

  lemma {:induction false} CountsPublished(rounds: nat -> Round, n: nat)
    ensures CountPublished(rounds, n) == |PublishedRounds(rounds, n)|
  {
    if n == 0 {
      assert PublishedRounds(rounds, n) == {};
    } else {
      CountsPublished(rounds, n - 1);
      assert PublishedRounds(rounds, n) == PublishedRounds(rounds, n - 1) + if rounds(n - 1).publishes then {n - 1} else {};
    }
  }

  class OutboxWorker {
    const store: OutboxStore
    const workerId: string

    constructor (store: OutboxStore, workerId: string)
      ensures this.store == store && this.workerId == workerId
    {
      this.store := store;
      this.workerId := workerId;
    }

    /** Publishing one item and telling the store, with the other workers around. */
    method Handle(item: Item, round: Round) returns (r: Result<(), Error>)
      requires Inv(store.Abstract())
      modifies store
      ensures Inv(store.Abstract())
      ensures store.Abstract() == Apply(AtCall(old(store.Abstract()), round), OwnCall(workerId, item, round))
      ensures r.Success? <==> CallAccepted(old(store.Abstract()), workerId, item, round)
    {
      InterleavingKeeps(store.Abstract(), round.before);
      store.Others(round.before);
      InterleavingKeeps(store.Abstract(), round.after);
      store.Others(round.after);
      ApplyKeeps(store.Abstract(), OwnCall(workerId, item, round));
      if round.publishes {
        r := store.CompleteOutbox(item.id, workerId);
      } else {
        r := store.RetryOutbox(item.id, workerId, ErrorText(round.errorName), Backoff(item.attempts), round.now);
      }
    }

    /** The loop of `run_once`; it ends early when the store refuses a call. */
    method Process(batch: seq<Item>, rounds: nat -> Round)
      returns (r: Result<(nat, nat), Error>, ghost done: nat)
      requires Inv(store.Abstract())
      modifies store
      ensures Inv(store.Abstract())
      ensures (store.Abstract(), done) == WorkThrough(old(store.Abstract()), workerId, batch, rounds, 0)
      ensures r.Success? ==> done == |batch| &&
                             r.value.0 == CountPublished(rounds, done) && r.value.0 + r.value.1 == |batch|
      ensures r.Failure? ==> done < |batch|
    {
      var completed, failed := 0, 0;
      ghost var result := WorkThrough(store.Abstract(), workerId, batch, rounds, 0);
      var i := 0;
      while i < |batch|
        invariant 0 <= i <= |batch|
        invariant Inv(store.Abstract())
        invariant WorkThrough(store.Abstract(), workerId, batch, rounds, i) == result
        invariant completed == CountPublished(rounds, i) && completed + failed == i
      {
        NextItem(store.Abstract(), workerId, batch, rounds, i, result);
        var outcome := Handle(batch[i], rounds(i));
        if outcome.Failure? { return Failure(outcome.error), i; }
        if rounds(i).publishes { completed := completed + 1; } else { failed := failed + 1; }
        i := i + 1;
      }
      return Success((completed, failed)), i;
    }

    /**
     * `run_once`: the counts on success.  The state afterwards is the one the calls of
     * this worker and of the others lead to, and its history is legal if it was before.
     */
    method RunOnce(limit: nat, locked: set<string>, now: int, rounds: nat -> Round)
      returns (r: Result<(nat, nat), Error>, ghost items: seq<Item>, ghost done: nat)
      requires Inv(store.Abstract())
      modifies store
      ensures Inv(store.Abstract())
      ensures !ValidClaim(workerId, limit) ==> r == Failure(InvalidArgument) && store.Abstract() == old(store.Abstract())
      ensures ValidClaim(workerId, limit) ==>
                ItemsOf(items, ClaimIds(old(store.rows), limit, locked, now), old(store.rows)) &&
                (store.Abstract(), done) ==
                WorkThrough(Apply(old(store.Abstract()), ClaimCall(workerId, limit, locked, now)), workerId, items, rounds, 0)
      ensures r.Success? ==> done == |items| &&
                             r.value.0 == CountPublished(rounds, done) && r.value.0 + r.value.1 == |items|
      ensures r.Failure? && ValidClaim(workerId, limit) ==> done < |items|
    {
      items, done := [], 0;
      ApplyKeeps(store.Abstract(), ClaimCall(workerId, limit, locked, now));
      var claim := store.ClaimOutbox(workerId, limit, locked, now);
      if claim.Failure? { return Failure(claim.error), items, done; }
      items := claim.value;
      r, done := Process(claim.value, rounds);
    }
  }

  /** The events this worker's own calls add during a run, with the item they concern. */
  function OwnEvents(s: State, worker: string, items: seq<Item>, rounds: nat -> Round, i: nat): seq<(nat, Event)>
    requires i <= |items|
    decreases |items| - i
  {
    if i == |items| || !CallAccepted(s, worker, items[i], rounds(i)) then []
    else
      var t := AtCall(s, rounds(i));
      var u := Apply(t, OwnCall(worker, items[i], rounds(i)));
      [(i, u.log[|u.log| - 1])] + OwnEvents(u, worker, items, rounds, i + 1)
  }

  /** What the loop leaves contains what was there. */
  lemma {:induction false} WorkKeepsLog(s: State, worker: string, items: seq<Item>, rounds: nat -> Round, i: nat)
    requires i <= |items|
    ensures s.log <= WorkThrough(s, worker, items, rounds, i).0.log
    decreases |items| - i
  {
    if i < |items| {
      var round := rounds(i);
      var t := AtCall(s, round);
      LogGrowsOver(s, round.before);
      LogGrowsOver(ApplyAll(s, round.before), round.after);
      LogGrows(t, OwnCall(worker, items[i], round));
      if CallAccepted(s, worker, items[i], round) {
        WorkKeepsLog(Apply(t, OwnCall(worker, items[i], round)), worker, items, rounds, i + 1);
      }
    }
  }

  /**
   * A row the worker completes had its callback return; one it retries did not.  Every
   * such event is in the log that the run leaves behind.
   */
  lemma {:induction false} CompletedWasPublished(s: State, worker: string, items: seq<Item>, rounds: nat -> Round, i: nat, k: nat)
    requires i <= |items| && k < |OwnEvents(s, worker, items, rounds, i)|
    ensures var (n, e) := OwnEvents(s, worker, items, rounds, i)[k];
            n == i + k && n < |items| && e in WorkThrough(s, worker, items, rounds, i).0.log &&
            e == if rounds(n).publishes then Closed(items[n].id, worker, Published)
                 else Retried(items[n].id, worker, rounds(n).now, Backoff(items[n].attempts))
    decreases |items| - i
  {
    var t := AtCall(s, rounds(i));
    var u := Apply(t, OwnCall(worker, items[i], rounds(i)));
    if k > 0 {
      CompletedWasPublished(u, worker, items, rounds, i + 1, k - 1);
    } else {
      WorkKeepsLog(u, worker, items, rounds, i + 1);
      assert u.log[|u.log| - 1] in u.log;
    }
  }

  /** One event for each item dealt with, in order. */
  lemma {:induction false} OwnEventsCount(s: State, worker: string, items: seq<Item>, rounds: nat -> Round, i: nat)
    requires i <= |items|
    ensures i + |OwnEvents(s, worker, items, rounds, i)| == WorkThrough(s, worker, items, rounds, i).1
    decreases |items| - i
  {
    if i < |items| && CallAccepted(s, worker, items[i], rounds(i)) {
      OwnEventsCount(Apply(AtCall(s, rounds(i)), OwnCall(worker, items[i], rounds(i))), worker, items, rounds, i + 1);
    }
  }

  /** The retry is refused for its arguments exactly when the exception's name is too long. */
  lemma RetryArgumentsExactly(name: string, attempts: nat)
    ensures ValidRetry(ErrorText(name), Backoff(attempts), 2000) <==> |name| <= 1980
  {
    BackoffBounds(attempts, attempts);
  }
}
