/** A concrete stuck order whose pushes come more than an hour and one tick apart. */
module HostageTraces {
  import opened Common
  import opened Leg
  import opened Orders
  import opened MakerPolicy
  import opened Hostage

  const OUR_CLAIM := LegState(Claimed, 1, 3, 0, 100, 7200, 7)
  const THEIR_CLAIM := LegState(Claimed, 4, 2, 0, 500, 3600, 7)

  /** A settled order of ours, with its two retry lanes. */
  function Order(w: Lane, p: Lane): Managed {
    Managed(1, 1, None, true, Some(7), Some(8), Some(7200), Some(3600), None, Some(3), Some(4), Some(0), None, None,
            None, w.sentAt, p.sentAt, w.rejections, p.rejections, w.first, p.first)
  }

  /** A tick that finds our own credit and the taker's outstanding; resend is an hour. */
  function Ask(m: Managed, now: int): Input {
    Input(BookLocking, false, m, Some(OUR_CLAIM), Some(THEIR_CLAIM), Some(THEIR_CLAIM), 2, 500, 0, now, 3600, 600, 0,
          true, 1, Some(3), 240, Some(50), Some(0), Some(70))
  }

  const ONCE_0 := Lane(Some(0), 1, Some(0))
  const ONCE_1 := Lane(Some(1), 1, Some(1))
  const TWICE := Lane(Some(7200), 2, Some(0))

  const XS := [
    Ask(Order(FRESH, FRESH), 0),
    Ask(Order(ONCE_0, FRESH), 1),
    Ask(Order(ONCE_0, ONCE_1), 3600),
    Ask(Order(ONCE_0, ONCE_1), 7200),
    Ask(Order(TWICE, ONCE_1), 10800)]
  const REJECTED_AT := [0, 1, 3600, 7200, 10800]

  lemma AnHourEach(rejections: nat)
    ensures CreditRetryAfterS(rejections, 3600) == 3600
  {
    RetryCapped(rejections, 3600);
  }

  lemma Answers()
    ensures Decide(XS[0]) == WithdrawCredit && Decide(XS[1]) == PushCredit && Decide(XS[2]) == Wait
    ensures Decide(XS[3]) == WithdrawCredit && Decide(XS[4]) == PushCredit
  {
    AnHourEach(0);
    AnHourEach(1);
    AnHourEach(2);
  }

  lemma IsStuck(n: nat)
    requires n < |XS|
    ensures Stuck(XS[n]) && Withdraws(XS[n]) && Pushes(XS[n]) && XS[n].resendAfterS == 3600
  {
    assert XS[n].iState == Some(OUR_CLAIM) && XS[n].rState == Some(THEIR_CLAIM);
  }

  lemma Rejections()
    ensures XS[1].managed == Rejected(XS[0], 0) && XS[2].managed == Rejected(XS[1], 1)
    ensures XS[3].managed == Rejected(XS[2], 3600) && XS[4].managed == Rejected(XS[3], 7200)
  {
    Answers();
  }

  lemma IsStuckRun()
    ensures StuckRun(XS, REJECTED_AT, 3600, true, true)
  {
    Rejections();
    forall n | 0 <= n < |XS|
      ensures Stuck(XS[n]) && Withdraws(XS[n]) && Pushes(XS[n]) && XS[n].resendAfterS == 3600
    {
      IsStuck(n);
    }
    forall n | 0 < n < |XS| ensures XS[n].managed == Rejected(XS[n - 1], REJECTED_AT[n - 1]) {
      assert n == 1 || n == 2 || n == 3 || n == 4;
    }
  }

  /** Ticks at most an hour apart, resend an hour: the push at second 1 is due again at
      7200, where a withdrawal takes the tick, and goes out at 10800. */
  lemma PushesCanBeLate()
    ensures StuckRun(XS, REJECTED_AT, 3600, true, true) && Clocked(XS, REJECTED_AT, 3600)
    ensures Decide(XS[1]) == PushCredit && Decide(XS[4]) == PushCredit
    ensures forall j :: 1 < j < 4 ==> Decide(XS[j]) != PushCredit
    ensures XS[4].now > XS[1].now + CREDIT_RETRY_CAP_S + 3600
  {
    Answers();
    IsStuckRun();
  }
}
