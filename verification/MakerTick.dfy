/**
 * What one tick of the maker asks, does and ends with (`advance` in index.ts), apart
 * from the run it belongs to.
 */
module MakerTick {
  import opened Common
  import opened Leg
  import opened Orders
  import opened MakerPolicy
  import opened MakerRun
  import Windows

  datatype Policy = Policy(
    resendAfterS: nat,
    lockGraceS: int,
    sponsorClaims: bool,
    sponsorMarginS: int,
    drain: bool)

  /** The authenticated answers a portable order can get from a book. Locking and
      cancelled views prove the maker's own persisted artifact. */
  datatype Reply = OpenView | LockingView(released: bool) | CancelledView | Gone | Unavailable | Failed

  function StatusOf(r: Reply): BookStatus {
    match r
    case OpenView => BookOpen
    case CancelledView => BookCancelled
    case Gone => BookGone
    case _ => BookLocking
  }

  /** How a tick ended; `Interrupted` is an exception or a crash. */
  datatype Outcome = Interrupted | Idle | Retired | Published | Sent(decision: Decision)

  /** The first time at which a fill can be answered no more. */
  predicate ResponseExpired(m: Managed, now: int) {
    m.Filled() && now >= m.protocol.value.fillProof.value.respondBy
  }

  /** Chain reads of one tick; None is a failed read. */
  datatype Reads = Reads(iState: Option<LegState>, rState: Option<LegState>, rConfirmed: Option<LegState>)

  datatype Credits = Credits(ourResponder: Option<nat>, ourInitiator: Option<nat>, taker: Option<nat>)

  /** A stored fill keeps its lifecycle locking whatever a mirror says. */
  function Question(e: Setup, cfg: Policy, m: Managed, reply: Reply, r: Reads, c: Credits, now: int): Input {
    Input(if m.Filled() then BookLocking else StatusOf(reply),
          (reply.LockingView? && reply.released) || ResponseExpired(m, now),
          m, r.iState, r.rState, r.rConfirmed, e.payee, e.toAmount, e.toToken, now,
          cfg.resendAfterS, e.claimSafetyS, cfg.lockGraceS, cfg.sponsorClaims, e.self,
          m.TakerOnInitiatorLeg(), cfg.sponsorMarginS, c.ourResponder, c.ourInitiator, c.taker)
  }

  /** What the answers below lean on, whichever branch produced them. */
  lemma AnswerFacts(x: Input)
    ensures Decide(x) == LockLeg ==>
              !x.managed.Released() && (x.managed.protocol.Some? ==> x.managed.Acknowledged())
    ensures Decide(x) == ClaimLeg ==>
              x.rConfirmed.Some? && x.rConfirmed.value.status == Open
              && x.rConfirmed.value.recipient == x.expectedRecipient
              && x.rConfirmed.value.token == x.expectedToken && x.rConfirmed.value.amount == x.expectedAmount
              && x.now < x.rConfirmed.value.timeout - x.claimSafetyS
              && x.managed.hashlock.Some? && x.managed.preimage.Some?
    ensures Decide(x) == Sponsor ==> x.rConfirmed.Some? && x.rConfirmed.value.status == Claimed
    ensures Decide(x) == Abort ==> x.managed.lockSentAt.None?
    ensures Decide(x) == Finish ==> x.iState.Some? && Terminal(x.iState.value)
  {
  }

  /** A mirror cannot steer an order whose fill is signed: whatever authenticated view or
      failure comes back, only a release changes the answer. */
  lemma MirrorCannotSteer(e: Setup, cfg: Policy, m: Managed, a: Reply, b: Reply, r: Reads, c: Credits, now: int)
    requires m.Filled() && ((a.LockingView? && a.released) <==> (b.LockingView? && b.released))
    ensures Decide(Question(e, cfg, m, a, r, c, now)) == Decide(Question(e, cfg, m, b, r, c, now))
  {
  }

  /** Once the response window of a fill is over no answer locks, and an order nothing of
      ours can be on chain for is dropped. */
  lemma ExpiredFillNeverLocks(e: Setup, cfg: Policy, m: Managed, a: Reply, r: Reads, c: Credits, now: int)
    requires m.Filled() && now >= m.protocol.value.fillProof.value.respondBy
    ensures Decide(Question(e, cfg, m, a, r, c, now)) != LockLeg
    ensures m.lockSentAt.None? && r.iState == Some(NO_SWAP) ==> Decide(Question(e, cfg, m, a, r, c, now)) == Abort
  {
  }

  /** The question is about this order's own terms. */
  lemma QuestionIsTheOrders(e: Setup, cfg: Policy, m: Managed, a: Reply, r: Reads, c: Credits, now: int)
    ensures var x := Question(e, cfg, m, a, r, c, now);
      && x.managed == m && x.now == now && x.iState == r.iState && x.rState == r.rState && x.rConfirmed == r.rConfirmed
      && x.expectedRecipient == e.payee && x.expectedAmount == e.toAmount && x.expectedToken == e.toToken
      && x.ourInitiator == e.self
      && x.takerOnInitiatorLeg == (if m.ethToQrl then m.takerEthAccount else m.takerQrlAccount)
      && x.ourResponderCredit == c.ourResponder && x.ourInitiatorCredit == c.ourInitiator && x.takerCredit == c.taker
  {
  }

  /** The record stored at selection and the fill signed from it later are one deal: the
      fill that the window rules speak about is exactly the one the record binds. */
  lemma SelectionBindsItsFill(e: Setup, m: Managed, secret: Secret, i: Intent, at: int, p: Protocol, issuedAt: int,
                              nonce: nat)
    requires m.protocol.Some?
    ensures var cfg := Windows.Config(e.initiatorWindowS, e.responderWindowS);
      Binds(Selected(e, m, secret, i, at), Windows.SignedFill(cfg, p, i, e.H(secret), at, issuedAt, nonce))
  {
  }

  /** The outcomes a decision can have. A claim, a refund or a credit move is sent and a
      finish retires, unless the tick is cut short; only a finish or an abort retires. */
  predicate ActsOn(d: Decision, o: Outcome) {
    && (o.Sent? ==> o.decision == d)
    && (o == Retired ==> d == Finish || d == Abort)
    && (d == Wait ==> o == Idle)
    && (d == ClaimLeg || d == RefundLeg || d == WithdrawCredit || d == PushCredit ==> o == Sent(d) || o == Interrupted)
    && (d == Finish ==> o == Retired || o == Interrupted)
  }

  // ---- what a tick does, in order ----

  /** A transaction went out, was refused by the contract, or failed in any other way. */
  datatype Sending = Went | Reverted | Lost

  /** `Asked` is a book read, `Posted` and `Withdrew` answer a published fill and a
      published cancellation, `Stored` is a durable write, `Drew` a new secret, `Offered`
      the proposals at hand with those whose signatures hold, `Tried` a simulated or
      estimated claim, `Reread` the cutoff's own look at the escrow, and `Submitted` a
      transaction; `Quoted` compares the listing's price with the feed. */
  datatype Act =
    | Asked(reply: Reply)
    | Posted(reply: Reply)
    | Withdrew(reply: Reply)
    | Stored(event: Event, ok: bool)
    | Drew(unused: bool)
    | Offered(candidates: seq<Intent>, verified: set<Intent>, at: int)
    | Signed(fill: Fill, ok: bool)
    | Tried(ok: bool)
    | Reread(ok: bool, seen: LegState, at: int)
    | Submitted(result: Sending)
    | Quoted(stale: bool)

  /** An act that can cut a tick short. */
  predicate Fault(e: Setup, a: Act) {
    match a
    case Asked(r) => r == Failed || r == Unavailable
    case Posted(r) => !r.LockingView?
    case Withdrew(r) => r != CancelledView
    case Stored(_, ok) => !ok
    case Drew(unused) => !unused
    case Offered(_, _, _) => false
    case Signed(_, ok) => !ok
    case Tried(ok) => !ok
    case Reread(ok, seen, at) => !ok || (seen.status == Open && at >= seen.timeout - e.claimSafetyS)
    case Submitted(result) => result != Went
    case Quoted(_) => false
  }

  /** The record after an authenticated locking view was seen. */
  function Observed(m: Managed, released: bool): Managed
    requires m.protocol.Some?
  {
    var p := m.protocol.value;
    m.(protocol := Some(p.(fillAcknowledged := true, releaseObserved := p.releaseObserved || released)))
  }

  /** The proposal `advance` picks among those offered. */
  function Chosen(p: Protocol, candidates: seq<Intent>, verified: set<Intent>, at: int): Option<Intent> {
    Windows.EarliestValidFillIntent(candidates, p.orderDigest, at,
      i => i in verified && Windows.IntentTimesOk(i, at, p.orderIssuedAt, p.orderExpiresAt))
  }

  function WindowsOf(e: Setup): Windows.Config { Windows.Config(e.initiatorWindowS, e.responderWindowS) }

  /** The book alone ends the tick: an outage that nothing durable bridges, an expired or
      never published listing, a stored cancellation, an open listing without a fill. */
  predicate BookEndsTick(m: Managed, reply: Reply, iState: Option<LegState>, now: int)
    requires m.protocol.Some?
  {
    || (reply == Unavailable && !CanContinueWithoutBook(m, iState))
    || (Undecided(m) && m.protocol.value.orderExpiresAt <= now && !CanContinueWithoutBook(m, iState))
    || (Undecided(m) && reply == Gone && m.protocol.value.selectedIntent.None?)
    || m.Cancelled()
    || (!m.Filled() && reply == OpenView)
  }

  /** What one pass looked at and decided; no decision when the book ended it. */
  datatype Pass = Pass(record: Managed, reply: Reply, legs: Reads, at: int, decision: Option<Decision>)

  lemma NeverAnnounces(e: Setup, cfg: Policy, m: Managed, a: Reply, r: Reads, c: Credits, now: int)
    ensures Decide(Question(e, cfg, m, a, r, c, now)) != Announce
  {
  }
}
