/** The maker's pure decision core (policy.ts). */
module MakerPolicy {
  import opened Common
  import opened Leg
  import opened Orders

  datatype BookStatus = BookOpen | BookAccepted | BookLocking | BookCancelled | BookGone

  datatype Decision =
    | Wait | Announce | LockLeg | ClaimLeg | Sponsor | RefundLeg | WithdrawCredit | PushCredit | Finish | Abort

  /** None for a leg or a credit is a failed read, never a zero. */
  datatype Input = Input(
    bookStatus: BookStatus,
    released: bool,
    managed: Managed,
    iState: Option<LegState>,
    rState: Option<LegState>,
    rConfirmed: Option<LegState>,
    expectedRecipient: Address,
    expectedAmount: nat,
    expectedToken: Address,
    now: int,
    resendAfterS: nat,
    claimSafetyS: int,
    lockGraceS: int,
    sponsorClaims: bool,
    ourInitiator: Address,
    takerOnInitiatorLeg: Option<Address>,
    sponsorMarginS: int,
    ourResponderCredit: Option<nat>,
    ourInitiatorCredit: Option<nat>,
    takerCredit: Option<nat>)

  const MAX_CREDIT_ATTEMPTS := 5
  const CREDIT_PARK_AFTER_S := 24 * 60 * 60
  const CREDIT_RETRY_CAP_S := 60 * 60

  predicate RetryOk(sentAt: Option<int>, now: int, after: int) {
    sentAt.None? || now - sentAt.value > after
  }

  predicate Settled(s: Option<LegState>) { s.Some? && Terminal(s.value) }

  predicate CanContinueWithoutBook(m: Managed, iState: Option<LegState>) {
    m.Acknowledged() || m.lockSentAt.Some? || (iState.Some? && iState.value.status != NoSwap)
  }

  function Pow2(n: nat): nat { if n == 0 then 1 else 2 * Pow2(n - 1) }

  function CreditRetryAfterS(rejections: nat, resendAfterS: nat): int {
    Min(resendAfterS * Pow2(rejections), CREDIT_RETRY_CAP_S)
  }

  predicate Parked(rejections: nat, firstRejectedAt: Option<int>, now: int) {
    rejections >= MAX_CREDIT_ATTEMPTS && firstRejectedAt.Some? && now - firstRejectedAt.value >= CREDIT_PARK_AFTER_S
  }

  predicate WithdrawParked(m: Managed, now: int) { Parked(m.withdrawAttempts, m.withdrawFirstRejectedAt, now) }

  predicate PushParked(m: Managed, now: int) { Parked(m.pushAttempts, m.pushFirstRejectedAt, now) }

  /** No lock of ours can be on chain: none was ever sent, and if a hashlock
      exists its record was read and is empty. */
  predicate ExposureExcluded(x: Input) {
    && x.managed.lockSentAt.None?
    && (x.managed.hashlock.None? || (x.iState.Some? && x.iState.value.status == NoSwap))
  }

  predicate ReleasedNow(x: Input) { x.released || x.managed.Released() }

  predicate MayClaim(x: Input, t2: int) {
    && x.iState.Some? && x.iState.value.status == Open
    && x.rState.Some? && x.rState.value.status == Open
    && x.rConfirmed.Some?
    && var r := x.rConfirmed.value;
    && r.status == Open && r.token == x.expectedToken && r.recipient == x.expectedRecipient
    && r.amount == x.expectedAmount
    && x.now < r.timeout - x.claimSafetyS && x.now < t2 - x.claimSafetyS
    && RetryOk(x.managed.claimSentAt, x.now, x.resendAfterS)
  }

  /** The initiator record is the exact lock we funded for this taker. */
  predicate OurLockForTaker(x: Input, i: LegState) {
    && i.initiator == x.ourInitiator
    && x.takerOnInitiatorLeg == Some(i.recipient)
  }

  predicate MaySponsor(x: Input, i: LegState) {
    && x.sponsorClaims && i.status == Open && OurLockForTaker(x, i)
    && x.rConfirmed.Some? && x.rConfirmed.value.status == Claimed
    && x.now < i.timeout - x.sponsorMarginS
    && RetryOk(x.managed.sponsorSentAt, x.now, x.resendAfterS)
  }

  predicate MayLock(x: Input, i: LegState, t2: int) {
    && i.status == NoSwap && x.bookStatus == BookLocking && !ReleasedNow(x)
    && (x.managed.protocol.None? || x.managed.protocol.value.fillAcknowledged)
    && x.now - x.managed.announcedAt.GetOr(0) >= x.lockGraceS
    && x.now < t2 - x.claimSafetyS
    && RetryOk(x.managed.lockSentAt, x.now, x.resendAfterS)
  }

  predicate MayWithdraw(x: Input) {
    && (x.ourResponderCredit.GetOr(0) > 0 || x.ourInitiatorCredit.GetOr(0) > 0)
    && !WithdrawParked(x.managed, x.now)
    && RetryOk(x.managed.withdrawSentAt, x.now, CreditRetryAfterS(x.managed.withdrawAttempts, x.resendAfterS))
  }

  /** The leg a withdrawal goes to: the responder leg while that credit reads positive.
      Both legs share one attempt marker and one rejection counter. */
  datatype Side = InitiatorSide | ResponderSide

  function WithdrawSide(x: Input): Side {
    if x.ourResponderCredit.GetOr(0) > 0 then ResponderSide else InitiatorSide
  }

  predicate PushableTakerCredit(x: Input, i: LegState) {
    x.sponsorClaims && i.status == Claimed && OurLockForTaker(x, i)
  }

  predicate MayPush(x: Input, i: LegState) {
    && PushableTakerCredit(x, i) && x.takerCredit.GetOr(0) > 0
    && !PushParked(x.managed, x.now)
    && RetryOk(x.managed.pushSentAt, x.now, CreditRetryAfterS(x.managed.pushAttempts, x.resendAfterS))
  }

  predicate CreditsSettled(x: Input, i: LegState) {
    && (WithdrawParked(x.managed, x.now)
        || (x.ourResponderCredit == Some(0) && x.ourInitiatorCredit == Some(0)))
    && (!PushableTakerCredit(x, i) || PushParked(x.managed, x.now) || x.takerCredit == Some(0))
  }

  predicate MayFinish(x: Input, i: LegState, t2: int) {
    && Terminal(i)
    && (Settled(x.rState) || (x.rState.Some? && x.rState.value.status == NoSwap && x.now >= t2))
    && CreditsSettled(x, i)
  }

  function Decide(x: Input): Decision {
    var m := x.managed;
    if (x.bookStatus == BookGone || x.bookStatus == BookCancelled) && ExposureExcluded(x) then Abort
    else if ReleasedNow(x) && ExposureExcluded(x) then Abort
    else if x.bookStatus == BookOpen then Wait
    else if x.bookStatus == BookAccepted then Announce
    else if m.preimage.None? || m.hashlock.None? || m.initiatorTimeout.None? || m.responderTimeout.None? then Wait
    else if x.iState.None? then Wait
    else
      var i, t1, t2 := x.iState.value, m.initiatorTimeout.value, m.responderTimeout.value;
      if MayClaim(x, t2) then ClaimLeg
      else if MaySponsor(x, i) then Sponsor
      else if MayLock(x, i, t2) then LockLeg
      else if i.status == Open && x.now >= t1 && RetryOk(m.refundSentAt, x.now, x.resendAfterS) then RefundLeg
      else if MayWithdraw(x) then WithdrawCredit
      else if MayPush(x, i) then PushCredit
      else if MayFinish(x, i, t2) then Finish
      else if i.status == NoSwap && x.now >= t2 && m.lockSentAt.None? then Abort
      else Wait
  }
}
