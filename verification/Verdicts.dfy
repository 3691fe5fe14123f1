// What reconciliation decides about an artifact row, from the stored bytes alone.
module Verdicts {
  import opened Wrappers
  import L = Leases
  import O = Outbox
  import opened ArtifactFiles
  import opened Artifacts

  /**
   * One iteration on a row whose lease is held when it is written, from the files as they
   * were at the reading: available exactly if the bytes hash to the digest and have
   * the length, unavailable exactly if they do not, and after an I/O error open,
   * unclaimed and due again once the backoff has passed.  Nothing else changes.
   */
  lemma RoundDecides(sha: Sha, s: System, worker: string, item: (string, nat), round: Round)
    requires item.0 in Moves(sha, s, round.before).metadata
    requires L.Holds(AtUpdate(sha, s, round).leases.rows, item.0, worker)
    ensures var seen, t, u := Moves(sha, s, round.before), AtUpdate(sha, s, round), AfterRound(sha, s, worker, item, round);
            u == t.(leases := u.leases) && u.leases.rows.Keys == t.leases.rows.Keys &&
            (forall d :: d in t.leases.rows && d != item.0 ==> u.leases.rows[d] == t.leases.rows[d]) &&
            var before, row := t.leases.rows[item.0], u.leases.rows[item.0];
            row.claimedAt.None? && row.claimedBy.None? &&
            row.attempts == before.attempts && row.createdAt == before.createdAt &&
            (row.closed == Some(L.Available) <==> !round.ioError && Sound(sha, seen, item.0)) &&
            (row.closed == Some(L.Unavailable) <==> !round.ioError && !Sound(sha, seen, item.0)) &&
            (round.ioError ==> row.closed.None? && row.availableAt == round.now + O.Backoff(item.1) * 1_000_000) &&
            row.lastError == (if round.ioError then Some("artifact storage temporarily unavailable")
                              else if Sound(sha, seen, item.0) then None
                              else Some("artifact bytes missing or failed verification"))
  {
    O.BackoffBounds(item.1, item.1);
  }

  /** Without the lease the row is left as it is. */
  lemma RoundWithoutLease(sha: Sha, s: System, worker: string, item: (string, nat), round: Round)
    requires !L.Holds(AtUpdate(sha, s, round).leases.rows, item.0, worker)
    ensures AfterRound(sha, s, worker, item, round) == AtUpdate(sha, s, round)
  {
  }

  /** The same as two moves among others': a reading, and the decision upon it. */
  lemma MovesDecide(sha: Sha, s: System, worker: string, digest: string, ioError: bool, delay: int, now: int)
    requires digest in s.metadata && L.Holds(s.leases.rows, digest, worker) && 1 <= delay <= 3600
    ensures var u := Move1(sha, Move1(sha, s, Examine(worker, digest, ioError)), Decide(worker, digest, delay, now));
            u.world == s.world && u.metadata == s.metadata && u.readings == s.readings - {(worker, digest)} &&
            u.leases.rows.Keys == s.leases.rows.Keys &&
            (forall d :: d in s.leases.rows && d != digest ==> u.leases.rows[d] == s.leases.rows[d]) &&
            var row := u.leases.rows[digest];
            row.claimedAt.None? && row.claimedBy.None? &&
            (row.closed == Some(L.Available) <==> !ioError && Sound(sha, s, digest)) &&
            (row.closed == Some(L.Unavailable) <==> !ioError && !Sound(sha, s, digest)) &&
            (ioError ==> row.closed.None? && row.availableAt == now + delay * 1_000_000)
  {
    var r := Move1(sha, s, Examine(worker, digest, ioError)).readings;
    assert r - {(worker, digest)} == s.readings - {(worker, digest)};
  }

  /** Staging adds an open row, due at once and claimed by nobody, unless the digest has one. */
  lemma StagesExactly(sha: Sha, s: System, digest: string, metadata: Metadata, now: int)
    ensures Move1(sha, s, Stage(digest, metadata, now)) ==
            if digest in s.leases.rows then s
            else s.(leases := s.leases.(rows := s.leases.rows[digest := L.Row(now, now, None, None, 0, None, None)]),
                    metadata := s.metadata[digest := metadata])
  {
  }

  // ---------- over all runs ----------

  lemma {:induction false} MovesSnoc(sha: Sha, s: System, ms: seq<Move>, m: Move)
    ensures Moves(sha, s, ms + [m]) == Move1(sha, Moves(sha, s, ms), m)
    decreases |ms|
  {
    if ms == [] {
      assert [] + [m] == [m] && [m][1..] == [];
    } else {
      assert (ms + [m])[1..] == ms[1..] + [m];
      MovesSnoc(sha, Move1(sha, s, ms[0]), ms[1..], m);
    }
  }

  /** A reading of the row without an I/O error, and whether the bytes were right then. */
  predicate Found(sha: Sha, ms: seq<Move>, i: nat, digest: string, right: bool) {
    && i < |ms| && ms[i].Examine? && ms[i].digest == digest && !ms[i].ioError
    && digest in Moves(sha, START, ms[..i]).metadata
    && Sound(sha, Moves(sha, START, ms[..i]), digest) == right
  }

  ghost predicate Caused(sha: Sha, ms: seq<Move>, digest: string, right: bool) {
    exists i: nat :: Found(sha, ms, i, digest, right)
  }

  lemma CausedStays(sha: Sha, ms: seq<Move>, m: Move, digest: string, right: bool)
    requires Caused(sha, ms, digest, right)
    ensures Caused(sha, ms + [m], digest, right)
  {
    var i: nat :| Found(sha, ms, i, digest, right);
    assert (ms + [m])[..i] == ms[..i];
    assert Found(sha, ms + [m], i, digest, right);
  }

  /** Readings and closings each have a cause among the moves so far. */
  ghost predicate Explained(sha: Sha, ms: seq<Move>, s: System) {
    && (forall k :: k in s.readings && s.readings[k] != Unreachable ==> Caused(sha, ms, k.1, s.readings[k] == Passed))
    && (forall d :: d in s.leases.rows && s.leases.rows[d].closed.Some? ==>
          s.leases.rows[d].closed.value in {L.Available, L.Unavailable} &&
          Caused(sha, ms, d, s.leases.rows[d].closed.value == L.Available))
  }

  lemma ExaminedExplains(sha: Sha, ms: seq<Move>, worker: string, digest: string, ioError: bool)
    requires var s := Moves(sha, START, ms); Explained(sha, ms, s) && digest in s.metadata
    ensures Explained(sha, ms + [Examine(worker, digest, ioError)], Move1(sha, Moves(sha, START, ms), Examine(worker, digest, ioError)))
  {
    var m, s := Examine(worker, digest, ioError), Moves(sha, START, ms);
    var u := Move1(sha, s, m);
    forall k | k in u.readings && u.readings[k] != Unreachable
      ensures Caused(sha, ms + [m], k.1, u.readings[k] == Passed)
    {
      if k == (worker, digest) {
        assert (ms + [m])[..|ms|] == ms;
        assert Found(sha, ms + [m], |ms|, digest, Sound(sha, s, digest));
      } else {
        CausedStays(sha, ms, m, k.1, s.readings[k] == Passed);
      }
    }
    forall d | d in u.leases.rows && u.leases.rows[d].closed.Some?
      ensures Caused(sha, ms + [m], d, u.leases.rows[d].closed.value == L.Available)
    {
      CausedStays(sha, ms, m, d, s.leases.rows[d].closed.value == L.Available);
    }
  }

  /** The other moves close a row only upon a reading of it. */
  lemma LeaseCallExplains(sha: Sha, ms: seq<Move>, m: Move, u: System, a: L.Action)
    requires var s := Moves(sha, START, ms);
             Explained(sha, ms, s) && u.leases == L.Apply(s.leases, a) &&
             (forall k :: k in u.readings ==> k in s.readings && u.readings[k] == s.readings[k]) &&
             (a.CloseCall? ==> a.how in {L.Available, L.Unavailable} && Caused(sha, ms, a.id, a.how == L.Available))
    ensures Explained(sha, ms + [m], u)
  {
    var s := Moves(sha, START, ms);
    forall k | k in u.readings && u.readings[k] != Unreachable
      ensures Caused(sha, ms + [m], k.1, u.readings[k] == Passed)
    {
      CausedStays(sha, ms, m, k.1, s.readings[k] == Passed);
    }
    forall d | d in u.leases.rows && u.leases.rows[d].closed.Some?
      ensures u.leases.rows[d].closed.value in {L.Available, L.Unavailable}
      ensures Caused(sha, ms + [m], d, u.leases.rows[d].closed.value == L.Available)
    {
      if d in s.leases.rows {
        ClosingChanges(s.leases, a, d);
        CausedStays(sha, ms, m, d, u.leases.rows[d].closed.value == L.Available);
      }
    }
  }

  lemma SameExplains(sha: Sha, ms: seq<Move>, m: Move, u: System)
    requires var s := Moves(sha, START, ms);
             Explained(sha, ms, s) && u.leases == s.leases && u.readings == s.readings
    ensures Explained(sha, ms + [m], u)
  {
    var s := Moves(sha, START, ms);
    forall k | k in u.readings && u.readings[k] != Unreachable
      ensures Caused(sha, ms + [m], k.1, u.readings[k] == Passed)
    {
      CausedStays(sha, ms, m, k.1, s.readings[k] == Passed);
    }
    forall d | d in u.leases.rows && u.leases.rows[d].closed.Some?
      ensures Caused(sha, ms + [m], d, u.leases.rows[d].closed.value == L.Available)
    {
      CausedStays(sha, ms, m, d, u.leases.rows[d].closed.value == L.Available);
    }
  }

  lemma MoveExplains(sha: Sha, ms: seq<Move>, m: Move)
    requires Explained(sha, ms, Moves(sha, START, ms))
    ensures Explained(sha, ms + [m], Move1(sha, Moves(sha, START, ms), m))
  {
    var s := Moves(sha, START, ms);
    var u := Move1(sha, s, m);
    match m
    case Files(step) => SameExplains(sha, ms, m, u);
    case Stage(digest, metadata, now) =>
      if digest in s.leases.rows { SameExplains(sha, ms, m, u); }
      else { LeaseCallExplains(sha, ms, m, u, L.Enqueue(digest, now)); }
    case ClaimRows(worker, limit, locked, now) =>
      LeaseCallExplains(sha, ms, m, u, L.ClaimCall(worker, limit, locked, now));
    case Examine(worker, digest, ioError) =>
      if digest in s.metadata { ExaminedExplains(sha, ms, worker, digest, ioError); } else { SameExplains(sha, ms, m, u); }
    case Decide(worker, digest, delay, now) =>
      if (worker, digest) in s.readings {
        LeaseCallExplains(sha, ms, m, u, Verdict(worker, digest, s.readings[(worker, digest)], delay, now));
      } else {
        SameExplains(sha, ms, m, u);
      }
  }

  lemma {:induction false} MovesExplain(sha: Sha, ms: seq<Move>)
    ensures Explained(sha, ms, Moves(sha, START, ms))
    decreases |ms|
  {
    if ms != [] {
      var front, last := ms[..|ms| - 1], ms[|ms| - 1];
      assert ms == front + [last];
      MovesExplain(sha, front);
      MovesSnoc(sha, START, front, last);
      MoveExplains(sha, front, last);
    }
  }

  /**
   * Over every interleaving from the empty system on, a row is unavailable only if some
   * reading of it, without an I/O error, found its bytes missing or wrong, and
   * available only if one found them right.
   */
  lemma ClosedForCause(sha: Sha, ms: seq<Move>, digest: string)
    requires var s := Moves(sha, START, ms); digest in s.leases.rows && s.leases.rows[digest].closed.Some?
    ensures var closed := Moves(sha, START, ms).leases.rows[digest].closed;
            closed == Some(L.Available) || closed == Some(L.Unavailable)
    ensures Caused(sha, ms, digest, Moves(sha, START, ms).leases.rows[digest].closed == Some(L.Available))
  {
    MovesExplain(sha, ms);
  }
}
