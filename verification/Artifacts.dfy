// The reconciliation of staged artifact rows against the stored bytes.
module Artifacts {
  import opened Wrappers
  import opened Hashing
  import L = Leases
  import O = Outbox
  import opened ArtifactFiles

  /** Immutable columns of an artifact row. */
  datatype Metadata = Metadata(byteLength: nat, storageKey: string)

  /** What a reconciler found when it read the bytes of a row it had claimed. */
  datatype Reading = Passed | Missing | Unreachable

  /** Files, artifact rows under their leases, and readings not yet acted upon. */
  datatype System = System(
    world: World,
    leases: L.State,
    metadata: map<string, Metadata>,
    readings: map<(string, string), Reading>)

  datatype Move =
    | Files(step: Step)
    | Stage(digest: string, metadata: Metadata, now: int)
    | ClaimRows(worker: string, limit: nat, locked: set<string>, now: int)
    | Examine(worker: string, digest: string, ioError: bool)
    | Decide(worker: string, digest: string, delay: int, now: int)

  /** The check of `run_once`: the bytes hash to the digest and have the stated length. */
  function Inspect(sha: Sha, w: World, m: Metadata, digest: string): Reading {
    match Read(sha, w.target, digest)
    case None => Missing
    case Some(bytes) => if |bytes| == m.byteLength then Passed else Missing
  }

  function Verdict(worker: string, digest: string, reading: Reading, delay: int, now: int): L.Action {
    match reading
    case Passed => L.CloseCall(digest, worker, L.Available, None)
    case Missing =>
      L.CloseCall(digest, worker, L.Unavailable, Some("artifact bytes missing or failed verification"))
    case Unreachable => L.RetryCall(digest, worker, "artifact storage temporarily unavailable", delay, now)
  }

  /** One atomic step of anyone: writers, reconcilers, the clock, crashes. */
  function Move1(sha: Sha, s: System, m: Move): System {
    match m
    case Files(step) => s.(world := Next(sha, s.world, step))
    case Stage(digest, metadata, now) =>
      if digest in s.leases.rows then s
      else s.(leases := L.Apply(s.leases, L.Enqueue(digest, now)), metadata := s.metadata[digest := metadata])
    case ClaimRows(worker, limit, locked, now) =>
      s.(leases := L.Apply(s.leases, L.ClaimCall(worker, limit, locked, now)))
    case Examine(worker, digest, ioError) =>
      if digest !in s.metadata then s
      else s.(readings := s.readings[(worker, digest) :=
                 if ioError then Unreachable else Inspect(sha, s.world, s.metadata[digest], digest)])
    case Decide(worker, digest, delay, now) =>
      if (worker, digest) !in s.readings then s
      else s.(leases := L.Apply(s.leases, Verdict(worker, digest, s.readings[(worker, digest)], delay, now)),
              readings := s.readings - {(worker, digest)})
  }

  function Moves(sha: Sha, s: System, ms: seq<Move>): System
    decreases |ms|
  {
    if ms == [] then s else Moves(sha, Move1(sha, s, ms[0]), ms[1..])
  }

  /** The stored bytes of a row are its digest's bytes and have its length. */
  predicate Sound(sha: Sha, s: System, digest: string) {
    digest in s.metadata && digest in s.world.target &&
    sha(s.world.target[digest]) == digest && |s.world.target[digest]| == s.metadata[digest].byteLength
  }

  predicate IsAvailable(s: System, digest: string) {
    digest in s.leases.rows && s.leases.rows[digest].closed == Some(L.Available)
  }

  ghost predicate SystemInv(sha: Sha, s: System) {
    && Inv(sha, s.world)
    && L.Inv(s.leases)
    && s.metadata.Keys == s.leases.rows.Keys
    && (forall k :: k in s.readings && s.readings[k] == Passed ==> Sound(sha, s, k.1))
    && (forall d :: IsAvailable(s, d) ==> Sound(sha, s, d))
  }

  lemma FilesKeep(sha: Sha, s: System, step: Step)
    requires SystemInv(sha, s)
    ensures SystemInv(sha, Move1(sha, s, Files(step))) || ContentsClash(sha, Move1(sha, s, Files(step)).world.begun)
  {
    NextKeeps(sha, s.world, step);
    TargetStable(sha, s.world, step);
    var u := Move1(sha, s, Files(step));
    if !ContentsClash(sha, u.world.begun) {
      assert forall d :: Sound(sha, s, d) ==> Sound(sha, u, d);
    }
  }

  /** Rows change their closing only in a closing call for them. */
  lemma ClosingChanges(s: L.State, a: L.Action, id: string)
    requires id in s.rows
    ensures id in L.Apply(s, a).rows
    ensures L.Apply(s, a).rows[id].closed == s.rows[id].closed ||
            (a.CloseCall? && a.id == id && L.Apply(s, a).rows[id].closed == Some(a.how))
  {
  }

  lemma KeysKept(s: L.State, a: L.Action)
    requires !a.Enqueue?
    ensures L.Apply(s, a).rows.Keys == s.rows.Keys
  {
  }

  /** A lease call that closes a row as available only after a passing reading. */
  lemma LeaseCallKeeps(sha: Sha, s: System, a: L.Action, readings: map<(string, string), Reading>)
    requires SystemInv(sha, s) && !a.Enqueue?
    requires a.CloseCall? && a.how == L.Available ==> Sound(sha, s, a.id)
    requires forall k :: k in readings ==> k in s.readings && readings[k] == s.readings[k]
    ensures SystemInv(sha, s.(leases := L.Apply(s.leases, a), readings := readings))
  {
    L.ApplyKeeps(s.leases, a);
    KeysKept(s.leases, a);
    var u := s.(leases := L.Apply(s.leases, a), readings := readings);
    forall d | IsAvailable(u, d)
      ensures Sound(sha, u, d)
    {
      ClosingChanges(s.leases, a, d);
      assert Sound(sha, s, d);
    }
    forall k | k in readings && readings[k] == Passed ensures Sound(sha, u, k.1) { assert Sound(sha, s, k.1); }
  }

  lemma StageKeeps(sha: Sha, s: System, digest: string, metadata: Metadata, now: int)
    requires SystemInv(sha, s) && digest !in s.leases.rows
    ensures SystemInv(sha, Move1(sha, s, Stage(digest, metadata, now)))
  {
    L.ApplyKeeps(s.leases, L.Enqueue(digest, now));
    var u := Move1(sha, s, Stage(digest, metadata, now));
    forall d | IsAvailable(u, d) ensures Sound(sha, u, d) { assert Sound(sha, s, d); }
    forall k | k in u.readings && u.readings[k] == Passed ensures Sound(sha, u, k.1) { assert Sound(sha, s, k.1); }
  }

  lemma ExamineKeeps(sha: Sha, s: System, worker: string, digest: string, ioError: bool)
    requires SystemInv(sha, s) && digest in s.metadata
    ensures SystemInv(sha, Move1(sha, s, Examine(worker, digest, ioError)))
  {
    var u := Move1(sha, s, Examine(worker, digest, ioError));
    forall d | IsAvailable(u, d) ensures Sound(sha, u, d) { assert Sound(sha, s, d); }
    forall k | k in u.readings && u.readings[k] == Passed
      ensures Sound(sha, u, k.1)
    {
      if k != (worker, digest) { assert Sound(sha, s, k.1); }
    }
  }

  lemma MoveKeeps(sha: Sha, s: System, m: Move)
    requires SystemInv(sha, s)
    ensures SystemInv(sha, Move1(sha, s, m)) || ContentsClash(sha, Move1(sha, s, m).world.begun)
  {
    match m
    case Files(step) => FilesKeep(sha, s, step);
    case Stage(digest, metadata, now) => if digest !in s.leases.rows { StageKeeps(sha, s, digest, metadata, now); }
    case ClaimRows(worker, limit, locked, now) =>
      LeaseCallKeeps(sha, s, L.ClaimCall(worker, limit, locked, now), s.readings);
    case Examine(worker, digest, ioError) => if digest in s.metadata { ExamineKeeps(sha, s, worker, digest, ioError); }
    case Decide(worker, digest, delay, now) =>
      if (worker, digest) in s.readings {
        LeaseCallKeeps(sha, s, Verdict(worker, digest, s.readings[(worker, digest)], delay, now),
                       s.readings - {(worker, digest)});
      }
  }

  const START := System(EMPTY, L.State(map[], []), map[], map[])

  lemma StartIsSound(sha: Sha)
    ensures SystemInv(sha, START)
  {
  }

  lemma {:induction false} BegunGrows(sha: Sha, s: System, ms: seq<Move>)
    ensures s.world.begun <= Moves(sha, s, ms).world.begun
    decreases |ms|
  {
    if ms != [] { BegunGrows(sha, Move1(sha, s, ms[0]), ms[1..]); }
  }

  lemma LargerClash(sha: Sha, a: set<Bytes>, b: set<Bytes>)
    requires ContentsClash(sha, a) && a <= b
    ensures ContentsClash(sha, b)
  {
    var x, y :| x in a && y in a && Clash(sha, x, y);
    assert x in b && y in b;
  }

  lemma {:induction false} MovesKeep(sha: Sha, s: System, ms: seq<Move>)
    requires SystemInv(sha, s)
    ensures SystemInv(sha, Moves(sha, s, ms)) || ContentsClash(sha, Moves(sha, s, ms).world.begun)
    decreases |ms|
  {
    if ms != [] {
      var u := Move1(sha, s, ms[0]);
      MoveKeeps(sha, s, ms[0]);
      BegunGrows(sha, u, ms[1..]);
      if SystemInv(sha, u) {
        MovesKeep(sha, u, ms[1..]);
      } else {
        LargerClash(sha, u.world.begun, Moves(sha, u, ms[1..]).world.begun);
      }
    }
  }

  /**
   * Over every interleaving, from the empty system on, a row is available only if its
   * bytes are stored, hash to its digest and have its length - unless two of the
   * contents that were to be published clash.
   */
  lemma AvailableIsSound(sha: Sha, ms: seq<Move>, digest: string)
    requires IsAvailable(Moves(sha, START, ms), digest)
    ensures Sound(sha, Moves(sha, START, ms), digest) || ContentsClash(sha, Moves(sha, START, ms).world.begun)
  {
    StartIsSound(sha);
    MovesKeep(sha, START, ms);
  }

  /** A closed row keeps its closing whatever is done. */
  lemma ClosedStays(s: L.State, a: L.Action, id: string)
    requires id in s.rows && s.rows[id].closed.Some? && L.Inv(s)
    ensures id in L.Apply(s, a).rows && L.Apply(s, a).rows[id] == s.rows[id]
  {
    var es := L.EventsOf(s.log, id);
    if a.ClaimCall? && L.ValidClaim(a.worker, a.limit) {
      assert id !in L.ClaimIds(s.rows, a.limit, a.locked, a.now);
    }
  }

  /** Once available or unavailable, a row never changes again. */
  lemma {:induction false} StatusFinal(sha: Sha, s: System, ms: seq<Move>, digest: string)
    requires L.Inv(s.leases) && s.metadata.Keys == s.leases.rows.Keys
    requires digest in s.leases.rows && s.leases.rows[digest].closed.Some?
    ensures digest in Moves(sha, s, ms).leases.rows
    ensures Moves(sha, s, ms).leases.rows[digest] == s.leases.rows[digest]
    decreases |ms|
  {
    if ms != [] {
      var u := Move1(sha, s, ms[0]);
      LeaseStep(sha, s, ms[0], digest);
      StatusFinal(sha, u, ms[1..], digest);
    }
  }

  lemma LeaseStep(sha: Sha, s: System, m: Move, digest: string)
    requires L.Inv(s.leases) && s.metadata.Keys == s.leases.rows.Keys
    requires digest in s.leases.rows && s.leases.rows[digest].closed.Some?
    ensures var u := Move1(sha, s, m);
            L.Inv(u.leases) && u.metadata.Keys == u.leases.rows.Keys &&
            digest in u.leases.rows && u.leases.rows[digest] == s.leases.rows[digest]
  {
    match m
    case Files(_) =>
    case Stage(d, metadata, now) =>
      L.ApplyKeeps(s.leases, L.Enqueue(d, now));
      ClosedStays(s.leases, L.Enqueue(d, now), digest);
    case ClaimRows(worker, limit, locked, now) =>
      ClosedUnderCall(s.leases, L.ClaimCall(worker, limit, locked, now), digest);
    case Examine(_, _, _) =>
    case Decide(worker, d, delay, now) =>
      if (worker, d) in s.readings {
        ClosedUnderCall(s.leases, Verdict(worker, d, s.readings[(worker, d)], delay, now), digest);
      }
  }

  lemma ClosedUnderCall(s: L.State, a: L.Action, digest: string)
    requires L.Inv(s) && digest in s.rows && s.rows[digest].closed.Some? && !a.Enqueue?
    ensures L.Inv(L.Apply(s, a)) && L.Apply(s, a).rows.Keys == s.rows.Keys
    ensures L.Apply(s, a).rows[digest] == s.rows[digest]
  {
    L.ApplyKeeps(s, a);
    KeysKept(s, a);
    ClosedStays(s, a, digest);
  }

  // ---------- the reconciler ----------

  lemma MoveKeepsSound(sha: Sha, s: System, m: Move, digest: string)
    requires SystemInv(sha, s) && !ContentsClash(sha, Move1(sha, s, m).world.begun)
    ensures SystemInv(sha, Move1(sha, s, m))
    ensures Sound(sha, s, digest) ==> Sound(sha, Move1(sha, s, m), digest)
    ensures digest in s.metadata ==> digest in Move1(sha, s, m).metadata
  {
    MoveKeeps(sha, s, m);
    if m.Files? { TargetStable(sha, s.world, m.step); }
  }

  /** Stored bytes that passed stay as they are, whatever happens next. */
  lemma {:induction false} MovesKeepSound(sha: Sha, s: System, ms: seq<Move>, digest: string)
    requires SystemInv(sha, s) && !ContentsClash(sha, Moves(sha, s, ms).world.begun)
    ensures SystemInv(sha, Moves(sha, s, ms))
    ensures Sound(sha, s, digest) ==> Sound(sha, Moves(sha, s, ms), digest)
    ensures digest in s.metadata ==> digest in Moves(sha, s, ms).metadata
    decreases |ms|
  {
    if ms != [] {
      var u := Move1(sha, s, ms[0]);
      BegunGrows(sha, u, ms[1..]);
      if ContentsClash(sha, u.world.begun) { LargerClash(sha, u.world.begun, Moves(sha, u, ms[1..]).world.begun); }
      MoveKeepsSound(sha, s, ms[0], digest);
      MovesKeepSound(sha, u, ms[1..], digest);
    }
  }

  lemma OthersKeep(sha: Sha, s: System, ms: seq<Move>)
    requires SystemInv(sha, s) && !ContentsClash(sha, Moves(sha, s, ms).world.begun)
    ensures var u := Moves(sha, s, ms);
            SystemInv(sha, u) && s.metadata.Keys <= u.metadata.Keys &&
            forall d :: Sound(sha, s, d) ==> Sound(sha, u, d)
  {
    forall d
      ensures Sound(sha, s, d) ==> Sound(sha, Moves(sha, s, ms), d)
      ensures d in s.metadata ==> d in Moves(sha, s, ms).metadata
    {
      MovesKeepSound(sha, s, ms, d);
    }
    MovesKeepSound(sha, s, ms, "");
  }

  /** What others do before the bytes are read and before the row is updated. */
  datatype Round = Round(before: seq<Move>, ioError: bool, between: seq<Move>, now: int)

  function CountOf(readings: seq<Reading>, r: Reading): nat {
    if readings == [] then 0
    else CountOf(readings[..|readings| - 1], r) + if readings[|readings| - 1] == r then 1 else 0
  }

  lemma {:induction false} CountsOccurrences(readings: seq<Reading>, r: Reading)
    ensures CountOf(readings, r) == multiset(readings)[r]
  {
    if readings != [] {
      CountsOccurrences(readings[..|readings| - 1], r);
      assert readings == readings[..|readings| - 1] + [readings[|readings| - 1]];
    }
  }

  lemma CountSnoc(readings: seq<Reading>, reading: Reading)
    ensures forall r :: CountOf(readings + [reading], r) == CountOf(readings, r) + if r == reading then 1 else 0
  {
    assert (readings + [reading])[..|readings|] == readings;
  }

  /** One iteration of the reconciler: read and check the bytes, then update the row. */
  function ReadIn(sha: Sha, s: System, digest: string, round: Round): Reading {
    var t := Moves(sha, s, round.before);
    if round.ioError then Unreachable
    else if digest !in t.metadata then Missing
    else Inspect(sha, t.world, t.metadata[digest], digest)
  }

  /** The state in which the reconciler updates its row. */
  function AtUpdate(sha: Sha, s: System, round: Round): System {
    Moves(sha, Moves(sha, s, round.before), round.between)
  }

  function AfterRound(sha: Sha, s: System, worker: string, item: (string, nat), round: Round): System {
    var t := AtUpdate(sha, s, round);
    t.(leases := L.Apply(t.leases, Verdict(worker, item.0, ReadIn(sha, s, item.0, round), O.Backoff(item.1), round.now)))
  }

  /** The whole run from item `i` on: what it leaves, what it read, and the item that ended it. */
  function RunFrom(sha: Sha, s: System, worker: string, items: seq<(string, nat)>, rounds: nat -> Round, i: nat): (System, seq<Reading>)
    requires i <= |items|
    decreases |items| - i
  {
    if i == |items| then (s, [])
    else
      var u := AfterRound(sha, s, worker, items[i], rounds(i));
      if !L.Holds(AtUpdate(sha, s, rounds(i)).leases.rows, items[i].0, worker) then (u, [])
      else
        var (v, readings) := RunFrom(sha, u, worker, items, rounds, i + 1);
        (v, [ReadIn(sha, s, items[i].0, rounds(i))] + readings)
  }

  /** A verdict is sound when the row is written: what passed is still stored. */
  lemma RoundKeeps(sha: Sha, s: System, worker: string, item: (string, nat), round: Round)
    requires SystemInv(sha, s) && item.0 in s.metadata
    requires !ContentsClash(sha, AfterRound(sha, s, worker, item, round).world.begun)
    ensures SystemInv(sha, AfterRound(sha, s, worker, item, round))
    ensures s.metadata.Keys <= AfterRound(sha, s, worker, item, round).metadata.Keys
  {
    var t := Moves(sha, s, round.before);
    var u := AtUpdate(sha, s, round);
    BegunGrows(sha, t, round.between);
    if ContentsClash(sha, t.world.begun) { LargerClash(sha, t.world.begun, u.world.begun); }
    OthersKeep(sha, s, round.before);
    OthersKeep(sha, t, round.between);
    var reading := ReadIn(sha, s, item.0, round);
    if reading == Passed {
      PassedIsSound(sha, t, item.0);
      assert Sound(sha, u, item.0);
    }
    LeaseCallKeeps(sha, u, Verdict(worker, item.0, reading, O.Backoff(item.1), round.now), u.readings);
  }

  lemma PassedIsSound(sha: Sha, s: System, digest: string)
    requires digest in s.metadata && Inspect(sha, s.world, s.metadata[digest], digest) == Passed
    ensures Sound(sha, s, digest)
  {
  }

  class ArtifactReconciler {
    const sha: Sha
    const workerId: string
    var system: System

    constructor (sha: Sha, workerId: string, system: System)
      requires workerId != ""
      ensures this.sha == sha && this.workerId == workerId && this.system == system
    {
      this.sha, this.workerId, this.system := sha, workerId, system;
    }

    /** One iteration; `held` says whether the store accepted the update. */
    method Reconcile(item: (string, nat), round: Round) returns (reading: Reading, held: bool)
      modifies this
      ensures reading == ReadIn(sha, old(system), item.0, round)
      ensures held == L.Holds(AtUpdate(sha, old(system), round).leases.rows, item.0, workerId)
      ensures system == AfterRound(sha, old(system), workerId, item, round)
    {
      system := Moves(sha, system, round.before);
      if round.ioError { reading := Unreachable; }
      else if item.0 !in system.metadata { reading := Missing; }
      else { reading := Inspect(sha, system.world, system.metadata[item.0], item.0); }
      system := Moves(sha, system, round.between);
      held := L.Holds(system.leases.rows, item.0, workerId);
      var call := Verdict(workerId, item.0, reading, O.Backoff(item.1), round.now);
      system := system.(leases := L.Apply(system.leases, call));
    }

    /** `run_once`: claim staged rows, then work through them; None when the claim is refused. */
    method RunOnce(limit: nat, locked: set<string>, now: int, rounds: nat -> Round)
      returns (r: Option<(nat, nat, nat)>, complete: bool)
      modifies this
      ensures r.Some? <==> L.ValidClaim(workerId, limit)
      ensures r.None? ==> system == old(system)
      ensures r.Some? ==>
                var ids := L.ClaimIds(old(system).leases.rows, limit, locked, now);
                var s := Move1(sha, old(system), ClaimRows(workerId, limit, locked, now));
                var (u, readings) := RunFrom(sha, s, workerId, ClaimedItems(s, ids), rounds, 0);
                system == u && (complete <==> |readings| == |ids|) &&
                r.value == (CountOf(readings, Passed), CountOf(readings, Missing), CountOf(readings, Unreachable))
    {
      if !L.ValidClaim(workerId, limit) { return None, false; }
      var ids := L.ClaimIds(system.leases.rows, limit, locked, now);
      system := Move1(sha, system, ClaimRows(workerId, limit, locked, now));
      var available, unavailable, retried, all := Process(ClaimedItems(system, ids), rounds);
      return Some((available, unavailable, retried)), all;
    }

    /** The loop of `run_once` over claimed rows; it ends early when a lease was lost. */
    method Process(claimed: seq<(string, nat)>, rounds: nat -> Round)
      returns (available: nat, unavailable: nat, retried: nat, complete: bool)
      modifies this
      ensures var (s, readings) := RunFrom(sha, old(system), workerId, claimed, rounds, 0);
              system == s && (complete <==> |readings| == |claimed|) &&
              available == CountOf(readings, Passed) && unavailable == CountOf(readings, Missing) &&
              retried == CountOf(readings, Unreachable)
    {
      available, unavailable, retried, complete := 0, 0, 0, true;
      ghost var done: seq<Reading> := [];
      var i := 0;
      NothingDone(RunFrom(sha, system, workerId, claimed, rounds, 0));
      while i < |claimed|
        invariant 0 <= i <= |claimed| && |done| == i && complete
        invariant RunFrom(sha, old(system), workerId, claimed, rounds, 0)
                  == After(done, RunFrom(sha, system, workerId, claimed, rounds, i))
        invariant available == CountOf(done, Passed) && unavailable == CountOf(done, Missing)
        invariant retried == CountOf(done, Unreachable)
      {
        NextReading(sha, system, workerId, claimed, rounds, i, done);
        var reading, held := Reconcile(claimed[i], rounds(i));
        if !held { return available, unavailable, retried, false; }
        match reading {
          case Passed => available := available + 1;
          case Missing => unavailable := unavailable + 1;
          case Unreachable => retried := retried + 1;
        }
        CountSnoc(done, reading);
        done := done + [reading];
        i := i + 1;
      }
      NoneLeft(done);
    }
  }

  /** What a claim of these rows hands to the reconciler. */
  function ClaimedItems(s: System, ids: seq<string>): seq<(string, nat)> {
    seq(|ids|, i requires 0 <= i < |ids| =>
      (ids[i], if ids[i] in s.leases.rows then s.leases.rows[ids[i]].attempts else 0))
  }

  /** What a run of the reconciler over these rows relies on. */
  ghost predicate Ready(sha: Sha, s: System, claimed: seq<(string, nat)>) {
    SystemInv(sha, s) && forall i :: 0 <= i < |claimed| ==> claimed[i].0 in s.metadata
  }

  lemma RoundGrows(sha: Sha, s: System, worker: string, item: (string, nat), round: Round)
    ensures s.world.begun <= AfterRound(sha, s, worker, item, round).world.begun
  {
    BegunGrows(sha, s, round.before);
    BegunGrows(sha, Moves(sha, s, round.before), round.between);
  }

  lemma {:induction false} RunGrows(sha: Sha, s: System, worker: string, claimed: seq<(string, nat)>, rounds: nat -> Round, i: nat)
    requires i <= |claimed|
    ensures s.world.begun <= RunFrom(sha, s, worker, claimed, rounds, i).0.world.begun
    decreases |claimed| - i
  {
    if i < |claimed| {
      RoundGrows(sha, s, worker, claimed[i], rounds(i));
      RunGrows(sha, AfterRound(sha, s, worker, claimed[i], rounds(i)), worker, claimed, rounds, i + 1);
    }
  }

  /**
   * A run of the reconciler keeps every row sound, whatever the others do around it -
   * unless two of the contents that were to be published clash.
   */
  lemma {:induction false} RunKeeps(sha: Sha, s: System, worker: string, claimed: seq<(string, nat)>, rounds: nat -> Round, i: nat)
    requires Ready(sha, s, claimed) && i <= |claimed|
    ensures var u := RunFrom(sha, s, worker, claimed, rounds, i).0;
            Ready(sha, u, claimed) || ContentsClash(sha, u.world.begun)
    decreases |claimed| - i
  {
    if i < |claimed| {
      var u := AfterRound(sha, s, worker, claimed[i], rounds(i));
      if ContentsClash(sha, u.world.begun) {
        RunGrows(sha, u, worker, claimed, rounds, i + 1);
        LargerClash(sha, u.world.begun, RunFrom(sha, u, worker, claimed, rounds, i + 1).0.world.begun);
      } else {
        RoundKeeps(sha, s, worker, claimed[i], rounds(i));
        RunKeeps(sha, u, worker, claimed, rounds, i + 1);
      }
    }
  }

  function After(done: seq<Reading>, rest: (System, seq<Reading>)): (System, seq<Reading>) {
    (rest.0, done + rest.1)
  }

  lemma NothingDone(rest: (System, seq<Reading>))
    ensures After([], rest) == rest
  {
    assert [] + rest.1 == rest.1;
  }

  lemma NoneLeft(done: seq<Reading>)
    ensures done + [] == done
  {
  }

  /** One more iteration of a run, after the readings already made. */
  lemma NextReading(sha: Sha, s: System, worker: string, items: seq<(string, nat)>, rounds: nat -> Round, i: nat, done: seq<Reading>)
    requires i < |items|
    ensures var u := AfterRound(sha, s, worker, items[i], rounds(i));
            After(done, RunFrom(sha, s, worker, items, rounds, i)) ==
            if !L.Holds(AtUpdate(sha, s, rounds(i)).leases.rows, items[i].0, worker) then (u, done)
            else After(done + [ReadIn(sha, s, items[i].0, rounds(i))], RunFrom(sha, u, worker, items, rounds, i + 1))
  {
    var u := AfterRound(sha, s, worker, items[i], rounds(i));
    if !L.Holds(AtUpdate(sha, s, rounds(i)).leases.rows, items[i].0, worker) {
      NoneLeft(done);
    } else {
      Shift(done, ReadIn(sha, s, items[i].0, rounds(i)), RunFrom(sha, u, worker, items, rounds, i + 1).1);
    }
  }

  lemma Shift(done: seq<Reading>, reading: Reading, rest: seq<Reading>)
    ensures done + ([reading] + rest) == (done + [reading]) + rest
  {
  }
}
