/**
 * How long a payout that the contract will never pay can hold an order open.
 * Both legs are terminal and every credit move is rejected by the contract; the
 * two kinds of move (our withdrawal, the taker's push) are two retry lanes that
 * share one action per tick, withdrawal first.
 */
module Hostage {
  import opened Common
  import opened Leg
  import opened Orders
  import opened MakerPolicy

  /** The retry state of one credit move. */
  datatype Lane = Lane(sentAt: Option<int>, rejections: nat, first: Option<int>)

  /** A tick decides at `now`; a move it sends is rejected at `rejectedAt`.
      `free` says no move of higher priority took this tick's action. */
  datatype Tick = Tick(now: int, rejectedAt: int, free: bool)

  predicate LaneParked(l: Lane, now: int) { Parked(l.rejections, l.first, now) }

  predicate Due(l: Lane, now: int, resend: nat) {
    !LaneParked(l, now) && RetryOk(l.sentAt, now, CreditRetryAfterS(l.rejections, resend))
  }

  predicate Attempts(l: Lane, t: Tick, resend: nat) { t.free && Due(l, t.now, resend) }

  function AfterTick(l: Lane, t: Tick, resend: nat): Lane {
    if Attempts(l, t, resend)
    then Lane(Some(t.now), l.rejections + 1, Some(l.first.GetOr(t.rejectedAt)))
    else l
  }

  const FRESH := Lane(None, 0, None)

  /** `lanes[n]` is the lane before tick `n`. */
  ghost predicate LaneRun(lanes: seq<Lane>, ticks: seq<Tick>, resend: nat) {
    && |lanes| == |ticks| > 0
    && lanes[0] == FRESH
    && (forall n, m :: 0 <= n && m == n + 1 < |lanes| ==> lanes[m] == AfterTick(lanes[n], ticks[n], resend))
  }

  predicate Tried(lanes: seq<Lane>, ticks: seq<Tick>, n: nat, resend: nat)
    requires |lanes| == |ticks| && n < |ticks|
  {
    Attempts(lanes[n], ticks[n], resend)
  }

  predicate ParkedAt(lanes: seq<Lane>, ticks: seq<Tick>, n: nat)
    requires |lanes| == |ticks| && n < |ticks|
  {
    LaneParked(lanes[n], ticks[n].now)
  }

  /** Ticks come at most `gap` apart, a rejection is seen before the next tick, and a
      tick that is not free is preceded by a free one (never, when `lag` is 0). */
  ghost predicate Paced(ticks: seq<Tick>, gap: nat, lag: nat) {
    && lag <= 1
    && (forall n :: 0 <= n < |ticks| ==> ticks[n].now <= ticks[n].rejectedAt)
    && (forall n, m :: 0 <= n < m < |ticks| ==> ticks[n].rejectedAt <= ticks[m].now)
    && (forall n, m :: 0 <= n && m == n + 1 < |ticks| ==> ticks[m].now <= ticks[n].now + gap)
    && (forall n :: 0 <= n < |ticks| && lag == 0 ==> ticks[n].free)
    && (forall n, m :: 0 <= n && m == n + 1 < |ticks| ==> ticks[n].free || ticks[m].free)
  }

  /** The longest wait between two attempts: an hour and one tick, or two. */
  function Spacing(gap: nat, lag: nat): nat { CREDIT_RETRY_CAP_S + (if lag == 0 then gap else gap + gap) }

  function Steps(n: nat, step: nat): nat { if n == 0 then 0 else Steps(n - 1, step) + step }

  lemma RetryCapped(rejections: nat, resend: nat)
    ensures Min(resend, CREDIT_RETRY_CAP_S) <= CreditRetryAfterS(rejections, resend) <= CREDIT_RETRY_CAP_S
  {
    if rejections > 0 {
      RetryCapped(rejections - 1, resend);
      assert resend * Pow2(rejections) == 2 * (resend * Pow2(rejections - 1));
    } else {
      assert resend * Pow2(0) == resend;
    }
  }

  /** The ticks before `n` at which a move was sent, and rejected. */
  ghost function TriedBefore(lanes: seq<Lane>, ticks: seq<Tick>, n: nat, resend: nat): set<nat>
    requires |lanes| == |ticks| && n <= |ticks|
  {
    Below((i: nat) => i < |ticks| && Tried(lanes, ticks, i, resend), n)
  }

  ghost function Below(p: nat -> bool, n: nat): set<nat> { set i: nat | i < n && p(i) }

  lemma OneMore(p: nat -> bool, n: nat)
    ensures |Below(p, n + 1)| == |Below(p, n)| + (if p(n) then 1 else 0)
  {
    if p(n) {
      assert Below(p, n + 1) == Below(p, n) + {n};
    } else {
      assert Below(p, n + 1) == Below(p, n);
    }
  }

  /** The counter is the history: it counts exactly the rejected attempts. */
  lemma {:induction false} CounterIsHistory(lanes: seq<Lane>, ticks: seq<Tick>, n: nat, resend: nat)
    requires LaneRun(lanes, ticks, resend) && n < |ticks|
    ensures lanes[n].rejections == |TriedBefore(lanes, ticks, n, resend)|
  {
    var p := (i: nat) => i < |ticks| && Tried(lanes, ticks, i, resend);
    if n > 0 {
      CounterIsHistory(lanes, ticks, n - 1, resend);
      assert lanes[n] == AfterTick(lanes[n - 1], ticks[n - 1], resend);
      OneMore(p, n - 1);
      assert p(n - 1) == Tried(lanes, ticks, n - 1, resend);
      assert TriedBefore(lanes, ticks, n - 1, resend) == Below(p, n - 1);
    }
    assert TriedBefore(lanes, ticks, n, resend) == Below(p, n);
  }

  /** Without an attempt the lane stays as it was. */
  lemma {:induction false} Unchanged(lanes: seq<Lane>, ticks: seq<Tick>, k: nat, n: nat, resend: nat)
    requires LaneRun(lanes, ticks, resend) && k <= n < |ticks|
    requires forall j :: k <= j < n ==> !Tried(lanes, ticks, j, resend)
    ensures lanes[n] == lanes[k]
  {
    if k < n {
      Unchanged(lanes, ticks, k, n - 1, resend);
      assert !Tried(lanes, ticks, n - 1, resend);
    }
  }

  /** `firstRejectedAt` is the first rejection, and never moves. */
  lemma {:induction false} FirstIsFirst(lanes: seq<Lane>, ticks: seq<Tick>, k: nat, n: nat, resend: nat)
    requires LaneRun(lanes, ticks, resend) && k < n < |ticks|
    requires Tried(lanes, ticks, k, resend)
    requires forall j :: 0 <= j < k ==> !Tried(lanes, ticks, j, resend)
    ensures lanes[n].first == Some(ticks[k].rejectedAt)
  {
    assert lanes[n] == AfterTick(lanes[n - 1], ticks[n - 1], resend);
    if n == k + 1 {
      Unchanged(lanes, ticks, 0, k, resend);
    } else {
      FirstIsFirst(lanes, ticks, k, n - 1, resend);
    }
  }

  /** A free tick that did not attempt, on a lane that is not parked, came within an
      hour of the last attempt. */
  lemma NotYetDue(lanes: seq<Lane>, ticks: seq<Tick>, k: nat, j: nat, resend: nat)
    requires LaneRun(lanes, ticks, resend) && k < j < |ticks| && ticks[j].free
    requires Tried(lanes, ticks, k, resend)
    requires forall i :: k < i <= j ==> !Tried(lanes, ticks, i, resend)
    requires !ParkedAt(lanes, ticks, j)
    ensures ticks[j].now - ticks[k].now <= CREDIT_RETRY_CAP_S
  {
    Unchanged(lanes, ticks, k + 1, j, resend);
    RetryCapped(lanes[j].rejections, resend);
    assert !Tried(lanes, ticks, j, resend);
    assert lanes[k + 1] == AfterTick(lanes[k], ticks[k], resend);
  }

  /** Until it parks, a lane never lets more than an hour and `lag + 1` ticks pass
      between attempts. */
  lemma AttemptsAreSpaced(lanes: seq<Lane>, ticks: seq<Tick>, k: nat, n: nat, resend: nat, gap: nat, lag: nat)
    requires LaneRun(lanes, ticks, resend) && Paced(ticks, gap, lag) && k < n < |ticks|
    requires Tried(lanes, ticks, k, resend)
    requires forall j :: k < j < n ==> !Tried(lanes, ticks, j, resend) && !ParkedAt(lanes, ticks, j)
    ensures ticks[n].now <= ticks[k].now + Spacing(gap, lag)
  {
    if k < n - 1 {
      if ticks[n - 1].free {
        NotYetDue(lanes, ticks, k, n - 1, resend);
      } else {
        assert lag == 1;
        assert ticks[n - 2].free;
        if k < n - 2 {
          NotYetDue(lanes, ticks, k, n - 2, resend);
        }
      }
    }
  }

  /** A parked lane stays parked. */
  lemma {:induction false} ParkedForever(lanes: seq<Lane>, ticks: seq<Tick>, k: nat, n: nat,
                                         resend: nat, gap: nat, lag: nat)
    requires LaneRun(lanes, ticks, resend) && Paced(ticks, gap, lag) && k <= n < |ticks|
    requires ParkedAt(lanes, ticks, k)
    ensures ParkedAt(lanes, ticks, n)
  {
    if k < n {
      ParkedForever(lanes, ticks, k, n - 1, resend, gap, lag);
      assert lanes[n] == AfterTick(lanes[n - 1], ticks[n - 1], resend);
      assert ticks[n - 1].now <= ticks[n - 1].rejectedAt <= ticks[n].now;
    }
  }

  /** `d` is the first tick after the attempt at `k` at which the lane is due again. It
      comes within an hour and one tick. The attempt is made there exactly when no other
      move takes that tick; else it is made at the next one, unless the lane parks. So an
      hour and one tick is kept exactly when tick `d` is free or the next one is as near. */
  lemma NextAttemptExactly(lanes: seq<Lane>, ticks: seq<Tick>, k: nat, d: nat, resend: nat, gap: nat, lag: nat)
    requires LaneRun(lanes, ticks, resend) && Paced(ticks, gap, lag) && k < d < |ticks|
    requires Tried(lanes, ticks, k, resend) && Due(lanes[d], ticks[d].now, resend)
    requires forall j :: k < j < d ==> !Due(lanes[j], ticks[j].now, resend)
    ensures ticks[d].now <= ticks[k].now + CREDIT_RETRY_CAP_S + gap
    ensures Tried(lanes, ticks, d, resend) <==> ticks[d].free
    ensures !ticks[d].free && d + 1 < |ticks| ==>
              (Tried(lanes, ticks, d + 1, resend) <==> !ParkedAt(lanes, ticks, d + 1))
  {
    assert forall j :: k < j < d ==> !Tried(lanes, ticks, j, resend);
    if k < d - 1 {
      Unchanged(lanes, ticks, k + 1, d - 1, resend);
      RetryCapped(lanes[d - 1].rejections, resend);
      assert lanes[k + 1] == AfterTick(lanes[k], ticks[k], resend);
    }
    if !ticks[d].free && d + 1 < |ticks| {
      assert lanes[d + 1] == AfterTick(lanes[d], ticks[d], resend);
      assert ticks[d].now <= ticks[d].rejectedAt <= ticks[d + 1].now;
    }
  }

  /** Two attempts with none between, of which the second was first due at `d`. */
  lemma SpacingExactly(lanes: seq<Lane>, ticks: seq<Tick>, k: nat, d: nat, n: nat, resend: nat, gap: nat, lag: nat)
    requires LaneRun(lanes, ticks, resend) && Paced(ticks, gap, lag) && k < d < |ticks| && k < n < |ticks|
    requires Tried(lanes, ticks, k, resend) && Tried(lanes, ticks, n, resend)
    requires forall j :: k < j < n ==> !Tried(lanes, ticks, j, resend)
    requires Due(lanes[d], ticks[d].now, resend)
    requires forall j :: k < j < d ==> !Due(lanes[j], ticks[j].now, resend)
    ensures d <= n <= d + 1 && (n == d <==> ticks[d].free)
    ensures ticks[n].now <= ticks[k].now + CREDIT_RETRY_CAP_S + gap <==>
      ticks[d].free || (d + 1 < |ticks| && ticks[d + 1].now <= ticks[k].now + CREDIT_RETRY_CAP_S + gap)
  {
    NextAttemptExactly(lanes, ticks, k, d, resend, gap, lag);
    if n > d + 1 {
      assert !Tried(lanes, ticks, d, resend) && !Tried(lanes, ticks, d + 1, resend);
      ParkedForever(lanes, ticks, d + 1, n, resend, gap, lag);
    }
  }

  /** From the attempt at tick `k` on, each further `Spacing` brings one more
      rejection until the lane parks. `s` is the last attempt before tick `n`. */
  lemma {:induction false} Progress(lanes: seq<Lane>, ticks: seq<Tick>, k: nat, n: nat, resend: nat, gap: nat, lag: nat)
    returns (s: nat)
    requires LaneRun(lanes, ticks, resend) && Paced(ticks, gap, lag) && k < n < |ticks|
    requires Tried(lanes, ticks, k, resend)
    requires forall j :: k < j < n ==> !ParkedAt(lanes, ticks, j)
    ensures k <= s < n && Tried(lanes, ticks, s, resend)
    ensures forall j :: s < j < n ==> !Tried(lanes, ticks, j, resend)
    ensures lanes[n].rejections >= 1
    ensures ticks[s].now <= ticks[k].now + Steps(lanes[n].rejections - 1, Spacing(gap, lag))
  {
    assert lanes[n] == AfterTick(lanes[n - 1], ticks[n - 1], resend);
    if n == k + 1 {
      s := k;
    } else {
      s := Progress(lanes, ticks, k, n - 1, resend, gap, lag);
      if Tried(lanes, ticks, n - 1, resend) {
        AttemptsAreSpaced(lanes, ticks, s, n - 1, resend, gap, lag);
        s := n - 1;
      }
    }
  }

  lemma FewSteps(n: nat, step: nat)
    requires 1 <= n < 5
    ensures Steps(n - 1, step) <= 3 * step
  {
    assert Steps(n - 1, step) <= Steps(1, step) + Steps(1, step) + Steps(1, step);
  }

  /** The lane is parked at every tick that is a day past the first rejection and
      four spacings past the first attempt. */
  lemma ParksInTime(lanes: seq<Lane>, ticks: seq<Tick>, k: nat, n: nat, resend: nat, gap: nat, lag: nat)
    requires LaneRun(lanes, ticks, resend) && Paced(ticks, gap, lag) && k < n < |ticks|
    requires Tried(lanes, ticks, k, resend)
    requires forall j :: 0 <= j < k ==> !Tried(lanes, ticks, j, resend)
    requires ticks[n].now >= ticks[k].rejectedAt + CREDIT_PARK_AFTER_S
    requires ticks[n].now > ticks[k].now + 4 * Spacing(gap, lag)
    ensures ParkedAt(lanes, ticks, n)
  {
    if exists j :: k < j < n && ParkedAt(lanes, ticks, j) {
      var j :| k < j < n && ParkedAt(lanes, ticks, j);
      ParkedForever(lanes, ticks, j, n, resend, gap, lag);
    } else {
      FirstIsFirst(lanes, ticks, k, n, resend);
      var s := Progress(lanes, ticks, k, n, resend, gap, lag);
      AttemptsAreSpaced(lanes, ticks, s, n, resend, gap, lag);
      if lanes[n].rejections < 5 {
        FewSteps(lanes[n].rejections, Spacing(gap, lag));
      }
    }
  }

  /** One lane over a whole run: parked never early, and in time. */
  lemma LaneBound(lanes: seq<Lane>, ticks: seq<Tick>, k: nat, n: nat, resend: nat, gap: nat, lag: nat)
    requires LaneRun(lanes, ticks, resend) && Paced(ticks, gap, lag) && k < n < |ticks|
    requires Tried(lanes, ticks, k, resend)
    requires forall j :: 0 <= j < k ==> !Tried(lanes, ticks, j, resend)
    ensures ParkedAt(lanes, ticks, n) ==>
      && |TriedBefore(lanes, ticks, n, resend)| >= MAX_CREDIT_ATTEMPTS
      && ticks[n].now >= ticks[k].rejectedAt + CREDIT_PARK_AFTER_S
    ensures ticks[n].now >= ticks[k].rejectedAt + CREDIT_PARK_AFTER_S
            && ticks[n].now > ticks[k].now + 4 * Spacing(gap, lag)
            ==> ParkedAt(lanes, ticks, n)
  {
    CounterIsHistory(lanes, ticks, n, resend);
    FirstIsFirst(lanes, ticks, k, n, resend);
    if ticks[n].now >= ticks[k].rejectedAt + CREDIT_PARK_AFTER_S
       && ticks[n].now > ticks[k].now + 4 * Spacing(gap, lag) {
      ParksInTime(lanes, ticks, k, n, resend, gap, lag);
    }
  }

  // ---- the maker's decision is the two lanes ----

  function WithdrawLane(m: Managed): Lane { Lane(m.withdrawSentAt, m.withdrawAttempts, m.withdrawFirstRejectedAt) }

  function PushLane(m: Managed): Lane { Lane(m.pushSentAt, m.pushAttempts, m.pushFirstRejectedAt) }

  predicate Withdraws(x: Input) { x.ourResponderCredit.GetOr(0) > 0 || x.ourInitiatorCredit.GetOr(0) > 0 }

  /** Both legs are over. Our own credit is stuck or provably zero, and the taker's
      is stuck if it is ours to push. */
  predicate Stuck(x: Input) {
    && x.bookStatus == BookLocking
    && x.managed.preimage.Some? && x.managed.hashlock.Some?
    && x.managed.initiatorTimeout.Some? && x.managed.responderTimeout.Some?
    && x.managed.lockSentAt.Some?
    && x.iState.Some? && Terminal(x.iState.value) && Settled(x.rState)
    && (Withdraws(x) || (x.ourResponderCredit == Some(0) && x.ourInitiatorCredit == Some(0)))
    && (PushableTakerCredit(x, x.iState.value) ==> x.takerCredit.GetOr(0) > 0)
  }

  predicate Pushes(x: Input)
    requires Stuck(x)
  {
    PushableTakerCredit(x, x.iState.value)
  }

  /** The record after this tick's move was sent and rejected. */
  function Rejected(x: Input, rejectedAt: int): Managed {
    var m := x.managed;
    match Decide(x)
    case WithdrawCredit =>
      m.(withdrawSentAt := Some(x.now), withdrawAttempts := m.withdrawAttempts + 1,
         withdrawFirstRejectedAt := Some(m.withdrawFirstRejectedAt.GetOr(rejectedAt)))
    case PushCredit =>
      m.(pushSentAt := Some(x.now), pushAttempts := m.pushAttempts + 1,
         pushFirstRejectedAt := Some(m.pushFirstRejectedAt.GetOr(rejectedAt)))
    case _ => m
  }

  /** On a stuck order: the withdrawal lane acts whenever it is due, the push lane
      whenever it is due and the tick is free, and the order is retired exactly
      when every lane it still answers for is parked. */
  lemma StuckOrderIsTwoLanes(x: Input, rejectedAt: int)
    requires Stuck(x)
    ensures Withdraws(x) ==>
      WithdrawLane(Rejected(x, rejectedAt))
      == AfterTick(WithdrawLane(x.managed), Tick(x.now, rejectedAt, true), x.resendAfterS)
    ensures Pushes(x) ==>
      PushLane(Rejected(x, rejectedAt))
      == AfterTick(PushLane(x.managed),
                   Tick(x.now, rejectedAt, !(Withdraws(x) && Due(WithdrawLane(x.managed), x.now, x.resendAfterS))),
                   x.resendAfterS)
    ensures Decide(x) == Finish <==>
      && (Withdraws(x) ==> LaneParked(WithdrawLane(x.managed), x.now))
      && (Pushes(x) ==> LaneParked(PushLane(x.managed), x.now))
  {
    assert MayWithdraw(x) <==> Withdraws(x) && Due(WithdrawLane(x.managed), x.now, x.resendAfterS);
    assert Pushes(x) ==> (MayPush(x, x.iState.value) <==> Due(PushLane(x.managed), x.now, x.resendAfterS));
  }

  // ---- whole runs ----

  /** A run of ticks over one stuck order: the environment picks times and which
      credits are readable, the code picks the move, the contract rejects it. */
  ghost predicate StuckRun(xs: seq<Input>, rejectedAts: seq<int>, resend: nat, withdraws: bool, pushes: bool) {
    && |xs| == |rejectedAts| && |xs| > 0
    && WithdrawLane(xs[0].managed) == FRESH && PushLane(xs[0].managed) == FRESH
    && (forall n :: 0 <= n < |xs| ==>
          Stuck(xs[n]) && Withdraws(xs[n]) == withdraws && Pushes(xs[n]) == pushes && xs[n].resendAfterS == resend)
    && (forall n :: 0 < n < |xs| ==> xs[n].managed == Rejected(xs[n - 1], rejectedAts[n - 1]))
  }

  ghost function WithdrawTicks(xs: seq<Input>, rejectedAts: seq<int>): seq<Tick>
    requires |xs| == |rejectedAts|
  {
    seq(|xs|, n requires 0 <= n < |xs| => Tick(xs[n].now, rejectedAts[n], true))
  }

  ghost function PushTicks(xs: seq<Input>, rejectedAts: seq<int>, withdraws: bool): seq<Tick>
    requires |xs| == |rejectedAts|
  {
    seq(|xs|, n requires 0 <= n < |xs| =>
      Tick(xs[n].now, rejectedAts[n],
           !(withdraws && Due(WithdrawLane(xs[n].managed), xs[n].now, xs[n].resendAfterS))))
  }

  ghost function WithdrawLanes(xs: seq<Input>): seq<Lane> {
    seq(|xs|, n requires 0 <= n < |xs| => WithdrawLane(xs[n].managed))
  }

  ghost function PushLanes(xs: seq<Input>): seq<Lane> {
    seq(|xs|, n requires 0 <= n < |xs| => PushLane(xs[n].managed))
  }

  lemma RunIsWithdrawLane(xs: seq<Input>, rejectedAts: seq<int>, resend: nat, pushes: bool)
    requires StuckRun(xs, rejectedAts, resend, true, pushes)
    ensures LaneRun(WithdrawLanes(xs), WithdrawTicks(xs, rejectedAts), resend)
  {
    forall n, m | 0 <= n && m == n + 1 < |xs|
      ensures WithdrawLanes(xs)[m] == AfterTick(WithdrawLanes(xs)[n], WithdrawTicks(xs, rejectedAts)[n], resend)
    {
      StuckOrderIsTwoLanes(xs[n], rejectedAts[n]);
    }
  }

  lemma RunIsPushLane(xs: seq<Input>, rejectedAts: seq<int>, resend: nat, withdraws: bool)
    requires StuckRun(xs, rejectedAts, resend, withdraws, true)
    ensures LaneRun(PushLanes(xs), PushTicks(xs, rejectedAts, withdraws), resend)
  {
    forall n, m | 0 <= n && m == n + 1 < |xs|
      ensures PushLanes(xs)[m] == AfterTick(PushLanes(xs)[n], PushTicks(xs, rejectedAts, withdraws)[n], resend)
    {
      StuckOrderIsTwoLanes(xs[n], rejectedAts[n]);
    }
  }

  /** Ordinary pacing of the run's own clock. */
  ghost predicate Clocked(xs: seq<Input>, rejectedAts: seq<int>, gap: nat) {
    && |xs| == |rejectedAts|
    && (forall n :: 0 <= n < |xs| ==> xs[n].now <= rejectedAts[n])
    && (forall n, m :: 0 <= n < m < |xs| ==> rejectedAts[n] <= xs[m].now)
    && (forall n, m :: 0 <= n && m == n + 1 < |xs| ==> xs[m].now <= xs[n].now + gap)
  }

  /** With ticks no further apart than one resend interval, two withdrawals never
      take two ticks in a row, so every second tick is free for the push lane. */
  lemma PushLaneIsPaced(xs: seq<Input>, rejectedAts: seq<int>, resend: nat, gap: nat, withdraws: bool)
    requires StuckRun(xs, rejectedAts, resend, withdraws, true) && Clocked(xs, rejectedAts, gap)
    requires gap <= resend && gap <= CREDIT_RETRY_CAP_S
    ensures Paced(PushTicks(xs, rejectedAts, withdraws), gap, 1)
  {
    var ticks := PushTicks(xs, rejectedAts, withdraws);
    forall n, m | 0 <= n && m == n + 1 < |ticks| ensures ticks[n].free || ticks[m].free {
      StuckOrderIsTwoLanes(xs[n], rejectedAts[n]);
      RetryCapped(WithdrawLane(xs[m].managed).rejections, resend);
      assert xs[m].now <= xs[n].now + gap;
    }
  }

  /** The first attempts are immediate: a withdrawal at the first tick, a push at the
      first tick that a withdrawal does not take, which is the first or the second. */
  function FirstPush(withdraws: bool): nat { if withdraws then 1 else 0 }

  lemma FirstWithdrawIsImmediate(xs: seq<Input>, rejectedAts: seq<int>, resend: nat, pushes: bool)
    requires StuckRun(xs, rejectedAts, resend, true, pushes)
    ensures Tried(WithdrawLanes(xs), WithdrawTicks(xs, rejectedAts), 0, resend)
  {
  }

  lemma FirstPushIsImmediate(xs: seq<Input>, rejectedAts: seq<int>, resend: nat, gap: nat, withdraws: bool)
    requires StuckRun(xs, rejectedAts, resend, withdraws, true) && Clocked(xs, rejectedAts, gap)
    requires gap <= resend && gap <= CREDIT_RETRY_CAP_S && FirstPush(withdraws) < |xs|
    ensures var lanes, ticks := PushLanes(xs), PushTicks(xs, rejectedAts, withdraws);
            && Tried(lanes, ticks, FirstPush(withdraws), resend)
            && (forall j :: 0 <= j < FirstPush(withdraws) ==> !Tried(lanes, ticks, j, resend))
            && lanes[FirstPush(withdraws)] == FRESH
  {
    RunIsPushLane(xs, rejectedAts, resend, withdraws);
    PushLaneIsPaced(xs, rejectedAts, resend, gap, withdraws);
    var lanes, ticks := PushLanes(xs), PushTicks(xs, rejectedAts, withdraws);
    if withdraws {
      FirstWithdrawIsImmediate(xs, rejectedAts, resend, true);
      assert !ticks[0].free && ticks[1].free;
      assert lanes[1] == AfterTick(lanes[0], ticks[0], resend);
    }
  }

  /** The withdrawal lane is parked at exactly the ticks a day past its rejection at the
      first tick. */
  lemma WithdrawParksExactly(xs: seq<Input>, rejectedAts: seq<int>, resend: nat, gap: nat, pushes: bool, n: nat)
    requires StuckRun(xs, rejectedAts, resend, true, pushes) && Clocked(xs, rejectedAts, gap)
    requires gap <= resend && gap <= CREDIT_RETRY_CAP_S && n < |xs|
    ensures LaneParked(WithdrawLane(xs[n].managed), xs[n].now) <==>
      n > 0 && xs[n].now >= rejectedAts[0] + CREDIT_PARK_AFTER_S
    ensures LaneParked(WithdrawLane(xs[n].managed), xs[n].now) ==>
      |TriedBefore(WithdrawLanes(xs), WithdrawTicks(xs, rejectedAts), n, resend)| >= MAX_CREDIT_ATTEMPTS
  {
    RunIsWithdrawLane(xs, rejectedAts, resend, pushes);
    FirstWithdrawIsImmediate(xs, rejectedAts, resend, pushes);
    if n > 0 { LaneBound(WithdrawLanes(xs), WithdrawTicks(xs, rejectedAts), 0, n, resend, gap, 0); }
  }

  /** The push lane likewise, from its own first attempt. */
  lemma PushParksExactly(xs: seq<Input>, rejectedAts: seq<int>, resend: nat, gap: nat, withdraws: bool, n: nat)
    requires StuckRun(xs, rejectedAts, resend, withdraws, true) && Clocked(xs, rejectedAts, gap)
    requires gap <= resend && gap <= CREDIT_RETRY_CAP_S && n < |xs|
    ensures var k := FirstPush(withdraws);
      LaneParked(PushLane(xs[n].managed), xs[n].now) <==> n > k && xs[n].now >= rejectedAts[k] + CREDIT_PARK_AFTER_S
    ensures LaneParked(PushLane(xs[n].managed), xs[n].now) ==>
      |TriedBefore(PushLanes(xs), PushTicks(xs, rejectedAts, withdraws), n, resend)| >= MAX_CREDIT_ATTEMPTS
  {
    var k := FirstPush(withdraws);
    RunIsPushLane(xs, rejectedAts, resend, withdraws);
    if k < |xs| {
      FirstPushIsImmediate(xs, rejectedAts, resend, gap, withdraws);
      PushLaneIsPaced(xs, rejectedAts, resend, gap, withdraws);
      if n > k { LaneBound(PushLanes(xs), PushTicks(xs, rejectedAts, withdraws), k, n, resend, gap, 1); }
    }
  }

  /** The order is retired at exactly the ticks at which every lane it answers for saw its
      first rejection, on its very first attempt, a day ago; by then each such lane was
      rejected five times. */
  lemma HostageTimeIsBounded(xs: seq<Input>, rejectedAts: seq<int>, resend: nat, gap: nat,
                             withdraws: bool, pushes: bool, n: nat)
    requires StuckRun(xs, rejectedAts, resend, withdraws, pushes) && Clocked(xs, rejectedAts, gap)
    requires gap <= resend && gap <= 3600 && n < |xs|
    ensures var k := FirstPush(withdraws);
      Decide(xs[n]) == Finish <==>
      && (withdraws ==> n > 0 && xs[n].now >= rejectedAts[0] + 86400)
      && (pushes ==> n > k && xs[n].now >= rejectedAts[k] + 86400)
    ensures Decide(xs[n]) == Finish && withdraws ==>
      |TriedBefore(WithdrawLanes(xs), WithdrawTicks(xs, rejectedAts), n, resend)| >= 5
    ensures Decide(xs[n]) == Finish && pushes ==>
      |TriedBefore(PushLanes(xs), PushTicks(xs, rejectedAts, withdraws), n, resend)| >= 5
  {
    StuckOrderIsTwoLanes(xs[n], rejectedAts[n]);
    if withdraws { WithdrawParksExactly(xs, rejectedAts, resend, gap, pushes, n); }
    if pushes { PushParksExactly(xs, rejectedAts, resend, gap, withdraws, n); }
  }

  // ---- one withdrawal lane, two credits ----

  predicate WithdrawsOn(x: Input, side: Side) { Decide(x) == WithdrawCredit && WithdrawSide(x) == side }

  /** The ticks before `n` at which that leg's credit was tried, and rejected. */
  ghost function TriedOn(xs: seq<Input>, side: Side, n: nat): set<nat> {
    Below((i: nat) => i < |xs| && WithdrawsOn(xs[i], side), n)
  }

  /** The stored counter adds up the attempts on both legs. */
  lemma {:induction false} CounterIsShared(xs: seq<Input>, rejectedAts: seq<int>, resend: nat,
                                           withdraws: bool, pushes: bool, n: nat)
    requires StuckRun(xs, rejectedAts, resend, withdraws, pushes) && n < |xs|
    ensures xs[n].managed.withdrawAttempts == |TriedOn(xs, ResponderSide, n)| + |TriedOn(xs, InitiatorSide, n)|
  {
    var r := (i: nat) => i < |xs| && WithdrawsOn(xs[i], ResponderSide);
    var i := (i: nat) => i < |xs| && WithdrawsOn(xs[i], InitiatorSide);
    if n > 0 {
      CounterIsShared(xs, rejectedAts, resend, withdraws, pushes, n - 1);
      OneMore(r, n - 1);
      OneMore(i, n - 1);
      assert xs[n].managed == Rejected(xs[n - 1], rejectedAts[n - 1]);
      assert TriedOn(xs, ResponderSide, n - 1) == Below(r, n - 1);
      assert TriedOn(xs, InitiatorSide, n - 1) == Below(i, n - 1);
    }
    assert TriedOn(xs, ResponderSide, n) == Below(r, n) && TriedOn(xs, InitiatorSide, n) == Below(i, n);
  }

  /** Each of the maker's two credits is outstanding at every tick, or at none. */
  ghost predicate Steady(xs: seq<Input>, onResponder: bool, onInitiator: bool) {
    forall n :: 0 <= n < |xs| ==>
      && (xs[n].ourResponderCredit.GetOr(0) > 0 <==> onResponder)
      && (xs[n].ourInitiatorCredit.GetOr(0) > 0 <==> onInitiator)
  }

  /** When the order is retired, the responder credit was tried five times if it was
      outstanding, and the initiator credit five times or never: never exactly when the
      responder credit was outstanding too. */
  lemma RetiresOverUntriedExactly(xs: seq<Input>, rejectedAts: seq<int>, resend: nat, gap: nat, onResponder: bool,
                                  onInitiator: bool, pushes: bool, n: nat)
    requires StuckRun(xs, rejectedAts, resend, onResponder || onInitiator, pushes) && Clocked(xs, rejectedAts, gap)
    requires gap <= resend && gap <= CREDIT_RETRY_CAP_S && n < |xs|
    requires Steady(xs, onResponder, onInitiator) && Decide(xs[n]) == Finish
    ensures onResponder ==> |TriedOn(xs, ResponderSide, n)| >= MAX_CREDIT_ATTEMPTS
    ensures onInitiator ==> (TriedOn(xs, InitiatorSide, n) == {} <==> onResponder)
    ensures onInitiator && !onResponder ==> |TriedOn(xs, InitiatorSide, n)| >= MAX_CREDIT_ATTEMPTS
  {
    CounterIsShared(xs, rejectedAts, resend, onResponder || onInitiator, pushes, n);
    StuckOrderIsTwoLanes(xs[n], rejectedAts[n]);
    if onResponder {
      assert TriedOn(xs, InitiatorSide, n) == {};
    } else {
      assert TriedOn(xs, ResponderSide, n) == {};
    }
  }

  /** So two undeliverable credits of the maker: the order is dropped at the day mark with
      the initiator credit never tried. */
  lemma UntriedCreditIsDropped(xs: seq<Input>, rejectedAts: seq<int>, resend: nat, gap: nat, n: nat)
    requires StuckRun(xs, rejectedAts, resend, true, false) && Clocked(xs, rejectedAts, gap)
    requires gap <= resend && gap <= CREDIT_RETRY_CAP_S && 0 < n < |xs|
    requires Steady(xs, true, true) && xs[n].now >= rejectedAts[0] + CREDIT_PARK_AFTER_S
    ensures Decide(xs[n]) == Finish && xs[n].ourInitiatorCredit.GetOr(0) > 0 && TriedOn(xs, InitiatorSide, n) == {}
  {
    HostageTimeIsBounded(xs, rejectedAts, resend, gap, true, false, n);
    RetiresOverUntriedExactly(xs, rejectedAts, resend, gap, true, true, false, n);
  }

  // ---- when pushes keep an hour and one tick ----

  /** On a stuck order the push lane's attempts are the push decisions. */
  lemma PushesAreTries(xs: seq<Input>, rejectedAts: seq<int>, resend: nat, withdraws: bool, n: nat)
    requires StuckRun(xs, rejectedAts, resend, withdraws, true) && n < |xs|
    ensures Tried(PushLanes(xs), PushTicks(xs, rejectedAts, withdraws), n, resend) <==> Decide(xs[n]) == PushCredit
  {
    PushIsTried(xs[n]);
  }

  lemma TriesBetween(xs: seq<Input>, rejectedAts: seq<int>, resend: nat, withdraws: bool, k: nat, n: nat)
    requires StuckRun(xs, rejectedAts, resend, withdraws, true) && k < n < |xs|
    requires Decide(xs[k]) == PushCredit && Decide(xs[n]) == PushCredit
    requires forall j :: k < j < n ==> Decide(xs[j]) != PushCredit
    ensures var lanes, ticks := PushLanes(xs), PushTicks(xs, rejectedAts, withdraws);
            && Tried(lanes, ticks, k, resend) && Tried(lanes, ticks, n, resend)
            && (forall j :: k < j < n ==> !Tried(lanes, ticks, j, resend))
            && LaneRun(lanes, ticks, resend)
  {
    RunIsPushLane(xs, rejectedAts, resend, withdraws);
    PushesAreTries(xs, rejectedAts, resend, withdraws, k);
    PushesAreTries(xs, rejectedAts, resend, withdraws, n);
    forall j | k < j < n ensures !Tried(PushLanes(xs), PushTicks(xs, rejectedAts, withdraws), j, resend) {
      PushesAreTries(xs, rejectedAts, resend, withdraws, j);
    }
  }

  lemma DueBetween(xs: seq<Input>, rejectedAts: seq<int>, resend: nat, withdraws: bool, k: nat, d: nat)
    requires |xs| == |rejectedAts| && k < d < |xs|
    requires Due(PushLane(xs[d].managed), xs[d].now, resend)
    requires forall j :: k < j < d ==> !Due(PushLane(xs[j].managed), xs[j].now, resend)
    ensures var lanes, ticks := PushLanes(xs), PushTicks(xs, rejectedAts, withdraws);
            && Due(lanes[d], ticks[d].now, resend)
            && (forall j :: k < j < d ==> !Due(lanes[j], ticks[j].now, resend))
  {
  }

  /** The push lane of a stuck run, with what matters about three of its ticks. */
  lemma PushRun(xs: seq<Input>, rejectedAts: seq<int>, resend: nat, gap: nat, withdraws: bool, k: nat, d: nat, n: nat)
    returns (lanes: seq<Lane>, ticks: seq<Tick>)
    requires StuckRun(xs, rejectedAts, resend, withdraws, true) && Clocked(xs, rejectedAts, gap)
    requires gap <= resend && gap <= CREDIT_RETRY_CAP_S && k < d < |xs| && k < n < |xs|
    requires Decide(xs[k]) == PushCredit && Decide(xs[n]) == PushCredit
    requires forall j :: k < j < n ==> Decide(xs[j]) != PushCredit
    requires Due(PushLane(xs[d].managed), xs[d].now, resend)
    requires forall j :: k < j < d ==> !Due(PushLane(xs[j].managed), xs[j].now, resend)
    ensures LaneRun(lanes, ticks, resend) && Paced(ticks, gap, 1) && |ticks| == |xs|
    ensures Tried(lanes, ticks, k, resend) && Tried(lanes, ticks, n, resend)
    ensures forall j :: k < j < n ==> !Tried(lanes, ticks, j, resend)
    ensures Due(lanes[d], ticks[d].now, resend)
    ensures forall j :: k < j < d ==> !Due(lanes[j], ticks[j].now, resend)
    ensures forall j :: 0 <= j < |xs| ==> ticks[j].now == xs[j].now
    ensures ticks[d].free <==> !(withdraws && Due(WithdrawLane(xs[d].managed), xs[d].now, resend))
  {
    lanes, ticks := PushLanes(xs), PushTicks(xs, rejectedAts, withdraws);
    PushLaneIsPaced(xs, rejectedAts, resend, gap, withdraws);
    TriesBetween(xs, rejectedAts, resend, withdraws, k, n);
    DueBetween(xs, rejectedAts, resend, withdraws, k, d);
  }

  /** The pushes at `k` and `n`, with none between, are at most an hour and one tick apart
      exactly when no withdrawal takes the first tick at which the second is due, or the
      tick after that is still as near. */
  lemma PushSpacingExactly(xs: seq<Input>, rejectedAts: seq<int>, resend: nat, gap: nat, withdraws: bool,
                           k: nat, d: nat, n: nat)
    requires StuckRun(xs, rejectedAts, resend, withdraws, true) && Clocked(xs, rejectedAts, gap)
    requires gap <= resend && gap <= 3600 && k < d < |xs| && k < n < |xs|
    requires Decide(xs[k]) == PushCredit && Decide(xs[n]) == PushCredit
    requires forall j :: k < j < n ==> Decide(xs[j]) != PushCredit
    requires Due(PushLane(xs[d].managed), xs[d].now, resend)
    requires forall j :: k < j < d ==> !Due(PushLane(xs[j].managed), xs[j].now, resend)
    ensures d <= n <= d + 1
    ensures n == d <==> !(withdraws && Due(WithdrawLane(xs[d].managed), xs[d].now, resend))
    ensures xs[n].now <= xs[k].now + 3600 + gap <==>
      || !(withdraws && Due(WithdrawLane(xs[d].managed), xs[d].now, resend))
      || (d + 1 < |xs| && xs[d + 1].now <= xs[k].now + 3600 + gap)
  {
    var lanes, ticks := PushRun(xs, rejectedAts, resend, gap, withdraws, k, d, n);
    SpacingExactly(lanes, ticks, k, d, n, resend, gap, 1);
  }

  lemma PushIsTried(x: Input)
    requires Stuck(x) && Pushes(x)
    ensures Decide(x) == PushCredit <==>
      Due(PushLane(x.managed), x.now, x.resendAfterS)
      && !(Withdraws(x) && Due(WithdrawLane(x.managed), x.now, x.resendAfterS))
  {
  }
}
