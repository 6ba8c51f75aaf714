/**
 * The lease object after acquisition: the heartbeat that shows another PID namespace
 * this process still runs, and the ownership check in front of every state write.
 */
module Heartbeat {
  import opened Common

  const LEASE_CLOCK_SKEW_MS := 30_000

  /** What one read of the lease file can show. */
  datatype Observation = Unreadable | Gone | NoRecord | Shows(leaseId: nat)

  /** A peer in another namespace judges by the file's timestamp alone (`isLiveLease`). */
  predicate PeerSeesLive(mtime: int, now: int, ttl: int) {
    var age := now - mtime;
    !(age < -LEASE_CLOCK_SKEW_MS) && age < ttl
  }

  /** Live until exactly one lifetime after the last stamp, and no more than half a minute
      of it may lie in the peer's future. */
  lemma PeerJudgesExactly(mtime: int, now: int, ttl: int)
    ensures PeerSeesLive(mtime, now, ttl) <==> mtime - 30_000 <= now && now < mtime + ttl
  {
  }

  datatype Verdict = Owned | Lost | Unverifiable | Released

  class ProcessLease {
    const leaseId: nat
    const ttlMs: nat
    var closed: bool
    var lost: bool
    var beating: bool
    var failedBeats: nat
    var failureBudget: nat

    constructor (leaseId: nat, ttlMs: nat)
      ensures this.leaseId == leaseId && this.ttlMs == ttlMs
      ensures !closed && !lost && !beating && failedBeats == 0 && failureBudget == 1
    {
      this.leaseId, this.ttlMs := leaseId, ttlMs;
      closed, lost, beating, failedBeats, failureBudget := false, false, false, 0, 1;
    }

    /** Accepts exactly the intervals with three beats to a lifetime. */
    method StartHeartbeat(intervalMs: nat) returns (accepted: bool)
      requires intervalMs >= 1
      modifies this
      ensures accepted <==> intervalMs * 3 <= ttlMs
      ensures lost == old(lost) && closed == old(closed) && failedBeats == old(failedBeats)
      ensures accepted && !old(beating) && !closed && !lost ==>
        beating && failureBudget == Max(1, (ttlMs - 2 * intervalMs) / intervalMs)
      ensures !(accepted && !old(beating) && !closed && !lost) ==>
        beating == old(beating) && failureBudget == old(failureBudget)
    {
      if intervalMs * 3 > ttlMs { return false; }
      accepted := true;
      if beating || closed || lost { return; }
      failureBudget := Max(1, (ttlMs - 2 * intervalMs) / intervalMs);
      beating := true;
    }

    method MarkLost()
      modifies this
      ensures lost && !beating
      ensures closed == old(closed) && failedBeats == old(failedBeats) && failureBudget == old(failureBudget)
    {
      lost, beating := true, false;
    }

    method CountFailedBeat()
      modifies this
      ensures failedBeats == old(failedBeats) + 1 && failureBudget == old(failureBudget) && closed == old(closed)
      ensures lost == (old(lost) || failedBeats >= failureBudget)
      ensures beating == (old(beating) && failedBeats < failureBudget)
    {
      failedBeats := failedBeats + 1;
      if failedBeats < failureBudget { return; }
      MarkLost();
    }

    /** One timer beat. `stamped` is whether refreshing the timestamp succeeded. */
    method Beat(seen: Observation, stamps: bool) returns (stamped: bool)
      modifies this
      ensures closed == old(closed) && failureBudget == old(failureBudget)
      ensures old(lost) ==> lost
      ensures stamped <==> !old(closed) && !old(lost) && seen == Shows(leaseId) && stamps
      ensures stamped ==> failedBeats == 0 && !lost
      ensures old(closed) || old(lost) ==> failedBeats == old(failedBeats) && lost == old(lost)
      ensures !old(closed) && !old(lost) && BeatFails(seen, stamps) ==>
        failedBeats == old(failedBeats) + 1 && (lost <==> failedBeats >= failureBudget)
      ensures !old(closed) && !old(lost) && (seen == Gone || (seen.Shows? && seen.leaseId != leaseId)) ==> lost
    {
      stamped := false;
      if closed || lost { return; }
      match seen {
        case Unreadable => CountFailedBeat();
        case Gone => MarkLost();
        case NoRecord => CountFailedBeat();
        case Shows(id) =>
          if id != leaseId { MarkLost(); return; }
          if !stamps { CountFailedBeat(); return; }
          failedBeats := 0;
          stamped := true;
      }
    }

    /** A beat that proves nothing either way. */
    predicate BeatFails(seen: Observation, stamps: bool) {
      seen == Unreadable || seen == NoRecord || (seen == Shows(leaseId) && !stamps)
    }

    /** In front of every state write. Only `Owned` lets the write through. */
    method AssertOwned(seen: Observation) returns (v: Verdict)
      modifies this
      ensures v == Owned <==> !old(lost) && !closed && seen == Shows(leaseId)
      ensures old(lost) ==> v == Lost
      ensures v == Lost <==> lost
      ensures closed == old(closed) && failedBeats == old(failedBeats) && failureBudget == old(failureBudget)
      ensures lost == (old(lost) || (!closed && (seen == Gone || (seen.Shows? && seen.leaseId != leaseId))))
    {
      if lost { return Lost; }
      if closed { return Released; }
      match seen {
        case Unreadable => v := Unverifiable;
        case Gone => MarkLost(); v := Lost;
        case NoRecord => v := Unverifiable;
        case Shows(id) =>
          if id != leaseId { MarkLost(); v := Lost; } else { v := Owned; }
      }
    }
  }

  // ---- whole histories of one lease ----

  /** A failed ownership read is answered; a stamp may fail to land. */
  datatype Attempt = BeatAt(seen: Observation, stamps: bool) | WriteAt(seen: Observation)

  /** Once lost, no history of beats and writes ever lets another write through. */
  method LostForever(lease: ProcessLease, attempts: seq<Attempt>) returns (verdicts: seq<Verdict>)
    requires lease.lost
    modifies lease
    ensures lease.lost && Owned !in verdicts
    ensures forall n :: 0 <= n < |verdicts| ==> verdicts[n] == Lost
  {
    verdicts := [];
    for n := 0 to |attempts|
      invariant lease.lost
      invariant forall n :: 0 <= n < |verdicts| ==> verdicts[n] == Lost
    {
      match attempts[n] {
        case BeatAt(seen, stamps) => var stamped := lease.Beat(seen, stamps);
        case WriteAt(seen) =>
          var v := lease.AssertOwned(seen);
          verdicts := verdicts + [v];
      }
    }
  }

  /** The file was last stamped at `stampedAt`; from then on every scheduled beat
      fails. The holder declares the lease lost at `lostAt`, and until two whole
      intervals after that no peer sharing its clock judges the lease stale. */
  method FailingHolderStopsFirst(lease: ProcessLease, intervalMs: nat, stampedAt: int, seen: seq<Observation>)
    returns (lostAt: int)
    requires intervalMs >= 1 && intervalMs * 3 <= lease.ttlMs
    requires !lease.lost && !lease.closed && lease.failedBeats == 0
    requires lease.failureBudget == Max(1, (lease.ttlMs - 2 * intervalMs) / intervalMs)
    requires |seen| >= lease.failureBudget
    requires forall n :: 0 <= n < |seen| ==>
      seen[n] == Unreadable || seen[n] == NoRecord || seen[n] == Shows(lease.leaseId)
    modifies lease
    ensures lease.lost
    ensures stampedAt < lostAt <= stampedAt + lease.ttlMs - 2 * intervalMs
    ensures forall now :: stampedAt <= now < lostAt + 2 * intervalMs ==> PeerSeesLive(stampedAt, now, lease.ttlMs)
  {
    var beats := 0;
    ghost var budget := lease.failureBudget;
    lostAt := stampedAt;
    while !lease.lost
      invariant 0 <= beats <= budget && lease.failedBeats == beats && lease.failureBudget == budget
      invariant !lease.closed && lostAt == stampedAt + beats * intervalMs
      invariant lease.lost <==> beats >= budget
      decreases budget - beats
    {
      assert (beats + 1) * intervalMs == beats * intervalMs + intervalMs;
      lostAt := lostAt + intervalMs;
      var stamped := lease.Beat(seen[beats], false);
      beats := beats + 1;
    }
    BudgetFits(lease.ttlMs, intervalMs);
    assert beats == budget && budget * intervalMs >= intervalMs by { AtLeastOne(budget, intervalMs); }
  }

  lemma AtLeastOne(n: nat, k: nat)
    requires n >= 1
    ensures n * k >= k
  {
  }

  /** The failure budget fits under the lifetime with two beats to spare. */
  lemma BudgetFits(ttl: nat, interval: nat)
    requires interval >= 1 && interval * 3 <= ttl
    ensures Max(1, (ttl - 2 * interval) / interval) * interval <= ttl - 2 * interval
  {
    var d := (ttl - 2 * interval) / interval;
    assert d * interval <= ttl - 2 * interval;
  }
}
