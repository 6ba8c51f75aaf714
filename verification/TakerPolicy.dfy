/** The taker's checks and its pure decision core (taker-policy.ts, taker-config.ts). */
module TakerPolicy {
  import opened Common
  import opened Leg

  datatype LegKey = Eth | Qrl

  /** One leg's agreed terms. */
  datatype LegPlan = LegPlan(leg: LegKey, recipient: Address, amount: nat, expectedToken: Address, timeout: int)

  datatype PlanInput = PlanInput(
    ethToQrl: bool,
    assetToken: Address,
    fromAmount: nat,
    toAmount: nat,
    makerEthAccount: Address,
    makerQrlAccount: Address,
    takerEthAccount: Address,
    takerQrlAccount: Address,
    initiatorTimeout: int,
    responderTimeout: int)

  datatype Plans = Plans(initiator: LegPlan, responder: LegPlan)

  /** The registry's token on the Ethereum leg, the native marker on QRL. */
  function ExpectedToken(leg: LegKey, assetToken: Address): Address {
    if leg == Qrl then 0 else assetToken
  }

  function TakerLegPlans(x: PlanInput): Plans {
    var iLeg, rLeg := if x.ethToQrl then Eth else Qrl, if x.ethToQrl then Qrl else Eth;
    Plans(
      LegPlan(iLeg, if iLeg == Eth then x.takerEthAccount else x.takerQrlAccount,
              x.fromAmount, ExpectedToken(iLeg, x.assetToken), x.initiatorTimeout),
      LegPlan(rLeg, if rLeg == Eth then x.makerEthAccount else x.makerQrlAccount,
              x.toAmount, ExpectedToken(rLeg, x.assetToken), x.responderTimeout))
  }

  // ---- escrow checks ----

  datatype Issue = RecipientUnset | WrongAsset | WrongRecipient | WrongAmount | WindowTooShort

  datatype MakerLock = MakerAbsent | AwaitingAssign | MakerOk | MakerMismatch(issue: Issue) | MakerSettled

  function CheckMakerLock(confirmed: Option<LegState>, plan: LegPlan, responderTimeout: int, claimMarginS: int,
                          prelocked: bool): MakerLock
  {
    if confirmed.None? then MakerAbsent else
      var s := confirmed.value;
      if s.status == NoSwap then MakerAbsent
      else if s.status != Open then MakerSettled
      else if s.recipient == 0 then (if prelocked then AwaitingAssign else MakerMismatch(RecipientUnset))
      else if s.token != plan.expectedToken then MakerMismatch(WrongAsset)
      else if s.recipient != plan.recipient then MakerMismatch(WrongRecipient)
      else if s.amount != plan.amount then MakerMismatch(WrongAmount)
      else if s.timeout < responderTimeout + claimMarginS then MakerMismatch(WindowTooShort)
      else MakerOk
  }

  datatype OwnLock = OwnAbsent | Ours | OursMismatched | Foreign | OwnSettled

  function CheckOwnLock(state: Option<LegState>, plan: LegPlan, ourAddress: Address): OwnLock {
    if state.None? || state.value.status == NoSwap then OwnAbsent
    else if state.value.initiator != ourAddress then Foreign
    else if state.value.status != Open then OwnSettled
    else if state.value.token != plan.expectedToken || state.value.recipient != plan.recipient
            || state.value.amount != plan.amount then OursMismatched
    else Ours
  }

  // ---- the decision ----

  datatype BookStatus = BookOpen | BookAccepted | BookLocking | BookCancelled | BookGone

  datatype Decision = Wait | Propose | Lock | Claim | Refund | Withdraw | Release | Finish | Abort

  datatype Record = Record(
    fillAcknowledged: bool,
    intentSubmittedAt: Option<int>,
    lockSentAt: Option<int>,
    claimSentAt: Option<int>,
    refundSentAt: Option<int>,
    withdrawSentAt: Option<int>,
    releaseSentAt: Option<int>)

  datatype Terms = Terms(hashlock: Hash, initiatorTimeout: int, responderTimeout: int, respondBy: int)

  /** None for a leg or a credit is a failed read. */
  datatype Input = Input(
    record: Record,
    bookStatus: BookStatus,
    released: bool,
    cancelled: bool,
    prelocked: bool,
    fill: Option<Terms>,
    plans: Plans,
    iState: Option<LegState>,
    iConfirmed: Option<LegState>,
    rState: Option<LegState>,
    ourResponderAddress: Address,
    intentExpiresAt: Option<int>,
    abandonRequested: bool,
    now: int,
    resendAfterS: int,
    claimSafetyS: int,
    lockRunwayS: int,
    claimSubmitMarginS: int,
    initiatorCredit: Option<nat>,
    responderCredit: Option<nat>)

  datatype Verdict = Verdict(
    decision: Decision,
    makerLock: MakerLock,
    ownLock: OwnLock,
    revealedPreimage: Option<Secret>,
    creditLeg: Option<LegKey>)

  predicate RetryOk(sentAt: Option<int>, now: int, after: int) {
    sentAt.None? || now - sentAt.value > after
  }

  predicate Settled(s: Option<LegState>) { s.Some? && Terminal(s.value) }

  function MakerLockOf(x: Input): MakerLock {
    CheckMakerLock(x.iConfirmed, x.plans.initiator, if x.fill.Some? then x.fill.value.responderTimeout else 0,
                   x.claimSafetyS, x.prelocked)
  }

  function OwnLockOf(x: Input): OwnLock { CheckOwnLock(x.rState, x.plans.responder, x.ourResponderAddress) }

  /** A stored preimage of zero reads as "not revealed". */
  function RevealedPreimage(x: Input): Option<Secret> {
    if x.rState.Some? && x.rState.value.preimage != 0 then Some(x.rState.value.preimage) else None
  }

  function CreditLeg(x: Input): Option<LegKey> {
    if x.initiatorCredit.GetOr(0) > 0 then Some(x.plans.initiator.leg)
    else if x.responderCredit.GetOr(0) > 0 then Some(x.plans.responder.leg)
    else None
  }

  predicate CreditsSettled(x: Input) { x.initiatorCredit == Some(0) && x.responderCredit == Some(0) }

  predicate ExposedTo(x: Input) {
    x.record.lockSentAt.Some? || OwnLockOf(x) == Ours || OwnLockOf(x) == OursMismatched || OwnLockOf(x) == OwnSettled
  }

  /** Nothing of ours moved yet and the take is over. */
  function WalkAway(x: Input): Option<Decision> {
    if ExposedTo(x) then None
    else if x.abandonRequested then
      Some(if x.record.releaseSentAt.None? && x.record.intentSubmittedAt.Some? then Release else Abort)
    else if x.cancelled || x.bookStatus == BookCancelled || x.bookStatus == BookGone || x.released then Some(Abort)
    else None
  }

  function WithoutFill(x: Input): Decision {
    if ExposedTo(x) then Wait
    else if x.bookStatus == BookLocking then Abort
    else if x.intentExpiresAt.Some? && x.intentExpiresAt.value > x.now then Wait
    else Propose
  }

  /** Fund only against a maker escrow verified at depth, with runway left. */
  function Funding(x: Input, t2: int): Decision {
    var refuse := if ExposedTo(x) then Wait else Abort;
    if Settled(x.iState) then refuse
    else if !x.record.fillAcknowledged then Wait
    else if x.released || x.cancelled then Wait
    else if x.now + x.lockRunwayS >= t2 then refuse
    else match MakerLockOf(x)
      case MakerAbsent => Wait
      case AwaitingAssign => Wait
      case MakerSettled => refuse
      case MakerMismatch(_) => refuse
      case MakerOk => if RetryOk(x.record.lockSentAt, x.now, x.resendAfterS) then Lock else Wait
  }

  function Settling(x: Input, r: LegState, t2: int): Decision {
    var revealed := RevealedPreimage(x).Some?;
    var makerOpen := x.iState.Some? && x.iState.value.status == Open;
    if revealed && makerOpen && x.now < x.iState.value.timeout - x.claimSubmitMarginS
       && RetryOk(x.record.claimSentAt, x.now, x.resendAfterS) then Claim
    else if revealed && makerOpen && x.now >= x.iState.value.timeout - x.claimSubmitMarginS then Wait
    else if CreditLeg(x).Some? && RetryOk(x.record.withdrawSentAt, x.now, x.resendAfterS) then Withdraw
    else if Settled(x.iState) && Terminal(r) then (if CreditsSettled(x) then Finish else Wait)
    else if Terminal(r) && makerOpen && x.now >= x.iState.value.timeout then
      (if CreditsSettled(x) then Finish else Wait)
    else if (OwnLockOf(x) == Ours || OwnLockOf(x) == OursMismatched) && x.now >= r.timeout
            && RetryOk(x.record.refundSentAt, x.now, x.resendAfterS) then Refund
    else match OwnLockOf(x)
      case Foreign => Abort
      case OursMismatched => Wait
      case OwnAbsent => Funding(x, t2)
      case Ours => Wait
      case OwnSettled => Wait
  }

  function Decide(x: Input): Decision {
    var walk := WalkAway(x);
    if walk.Some? then walk.value
    else if x.fill.None? then WithoutFill(x)
    else if x.rState.None? then Wait
    else Settling(x, x.rState.value, x.fill.value.responderTimeout)
  }

  function DecideTaker(x: Input): Verdict {
    Verdict(Decide(x), MakerLockOf(x), OwnLockOf(x), RevealedPreimage(x), CreditLeg(x))
  }

  // ---- configuration ----

  function ClaimSubmitMarginS(txTimeoutMs: nat): int { (txTimeoutMs + 999) / 1000 + 60 }

  /** `assertClaimWindowIsUsable` lets the taker start. */
  predicate ClaimWindowIsUsable(claimSafetyS: int, txTimeoutMs: nat) {
    claimSafetyS > ClaimSubmitMarginS(txTimeoutMs)
  }
}
