/**
 * One take against an arbitrary maker, who knows the secret from the start and
 * may move both legs in any way the contracts allow. The maker's chain may
 * reorganise above confirmation depth and the taker's own chain freely; the
 * taker funds and claims only when `decideTaker` says so.
 */
module TakerRun {
  import opened Common
  import opened Leg
  import opened Chains
  import opened TakerPolicy

  datatype Setup = Setup(
    H: Secret -> Hash,
    h: Hash,
    self: Address,
    terms: PlanInput,
    claimSafetyS: int,
    txTimeoutMs: nat)
  {
    function Plans(): Plans { TakerLegPlans(terms) }
    function Margin(): int { ClaimSubmitMarginS(txTimeoutMs) }
    predicate Ok() { self != 0 && ClaimWindowIsUsable(claimSafetyS, txTimeoutMs) }

    /** What the order owes the taker: its own account on the leg the direction names, in
        the asset on Ethereum and the native coin on QRL. */
    function Payee(): Address { if terms.ethToQrl then terms.takerEthAccount else terms.takerQrlAccount }
    function PayoutToken(): Address { if terms.ethToQrl then terms.assetToken else 0 }

    /** And what it owes the maker, until the responder deadline. */
    function OwnPromise(): LegState {
      LegState(Open, self, if terms.ethToQrl then terms.makerQrlAccount else terms.makerEthAccount,
               if terms.ethToQrl then 0 else terms.assetToken, terms.toAmount, terms.responderTimeout, 0)
    }

    /** The escrow the taker's lock creates. */
    function OwnTerms(): LegState {
      var plan := Plans().responder;
      LegState(Open, self, plan.recipient, plan.expectedToken, plan.amount, plan.timeout, 0)
    }
  }

  /** `maker` is the maker's leg, `own` the taker's at head. `verifiedAt`: the confirmed
      record the funding leaned on. `missed`: the claim window passed with no claim sent
      and the payout not claimed at depth by anybody, or a claim that was sent did not
      land. `retired`: the record was given up as finished. */
  datatype World = World(
    now: int,
    maker: Chain,
    own: LegState,
    verifiedAt: Option<nat>,
    claimedAt: Option<int>,
    claimSent: bool,
    missed: bool,
    retired: bool)

  datatype Event =
    | Fund(input: Input, index: nat)
    | SendClaim(input: Input)
    | GiveUp(input: Input)
    | Tick(until: int)
    | MoveMaker(move: Move)
    | MoveOwn(to: LegState)
    | RewindOwn(to: LegState)

  /** The input speaks about this take: its plans, its margins, its signed deadline. */
  predicate About(e: Setup, x: Input) {
    && x.plans == e.Plans() && x.ourResponderAddress == e.self
    && x.claimSafetyS == e.claimSafetyS && x.claimSubmitMarginS == e.Margin()
    && x.fill.Some? && x.fill.value.responderTimeout == e.terms.responderTimeout
  }

  /** Our escrow, as funded. */
  predicate OwnEscrow(e: Setup, s: LegState) { s.initiator == e.self && s.status != NoSwap }

  /** The deadline of the maker escrow the funding was checked against. */
  function MakerDeadline(w: World): int {
    if w.verifiedAt.Some? && w.verifiedAt.value < |w.maker.hist| then w.maker.hist[w.verifiedAt.value].timeout else 0
  }

  predicate OwnClaimed(e: Setup, w: World) { OwnEscrow(e, w.own) && w.own.status == Claimed }

  /** The payout is claimed in a block that no longer changes. */
  predicate PaidAtDepth(w: World) { w.maker.Ok() && w.maker.Deep().status == Claimed }

  /** A tick that reads both legs at head, now. */
  predicate Reads(e: Setup, w: World, x: Input) {
    About(e, x) && x.now == w.now && w.maker.Ok() && x.rState == Some(w.own) && x.iState == Some(w.maker.Head())
  }

  /** Funding leans on the confirmed read alone: head reads may fail or lie. */
  predicate Enabled(e: Setup, w: World, s: Event) {
    match s
    case Fund(x, k) =>
      && !w.retired && About(e, x) && x.now <= w.now && DecideTaker(x).decision == Lock
      && k <= w.maker.final < |w.maker.hist| && x.iConfirmed == Some(w.maker.hist[k])
    case SendClaim(x) => !w.retired && Reads(e, w, x) && DecideTaker(x).decision == Claim
    case GiveUp(x) => !w.retired && Reads(e, w, x) && DecideTaker(x).decision == Finish
    case Tick(until) => w.now <= until
    case MoveMaker(move) => Allowed(e.H, e.h, w.maker, move, w.now, true)
    case MoveOwn(to) =>
      && Step(e.H, e.h, w.own, to, w.now, true)
      && (w.own.status == NoSwap && to.initiator == e.self ==>
            (w.verifiedAt.Some? && to == e.OwnTerms() && to.recipient != 0))
    case RewindOwn(to) =>
      || to == NO_SWAP
      || (Terminal(w.own) && to == w.own.(status := Open, preimage := 0))
  }

  function Next(e: Setup, w: World, s: Event): World
    requires Enabled(e, w, s)
  {
    match s
    case Fund(x, k) => if w.verifiedAt.Some? then w else w.(verifiedAt := Some(k))
    case SendClaim(x) => w.(claimSent := true)
    case GiveUp(x) => w.(retired := true)
    case Tick(until) =>
      var deadline := MakerDeadline(w);
      var idle := !w.claimSent && until >= deadline - e.Margin();
      var lost := w.claimSent && until >= deadline;
      w.(now := until, missed := w.missed || (OwnClaimed(e, w) && !PaidAtDepth(w) && (idle || lost)))
    case MoveMaker(move) => w.(maker := Moved(w.maker, move))
    case MoveOwn(to) => w.(own := to, claimedAt := if to.status == Claimed then Some(w.now) else w.claimedAt)
    case RewindOwn(to) => w.(own := to)
  }

  predicate Start(e: Setup, w: World) {
    && e.Ok() && w.maker == UNUSED && w.own == NO_SWAP
    && w.verifiedAt.None? && w.claimedAt.None? && !w.claimSent && !w.missed && !w.retired
  }

  predicate Follows(e: Setup, w: World, s: Event, v: World) {
    Enabled(e, w, s) && v == Next(e, w, s)
  }

  ghost predicate Path(e: Setup, ws: seq<World>, steps: seq<Event>) {
    && |ws| == |steps| + 1
    && forall n :: 0 <= n < |steps| ==> Follows(e, ws[n], steps[n], ws[n + 1])
  }

  ghost predicate Run(e: Setup, ws: seq<World>, steps: seq<Event>) {
    Path(e, ws, steps) && Start(e, ws[0])
  }

  // ---- invariants ----

  /** The maker escrow pays the taker the agreed amount and outlives our own
      deadline by the whole claim margin. */
  predicate GoodMakerLock(e: Setup, s: LegState) {
    && s.status == Open && s.recipient != 0 && s.recipient == e.Payee()
    && s.token == e.PayoutToken() && s.amount == e.terms.fromAmount
    && s.timeout >= e.terms.responderTimeout + e.claimSafetyS
  }

  predicate FundingInv(e: Setup, w: World) {
    && (w.verifiedAt.Some? ==>
          (w.verifiedAt.value <= w.maker.final < |w.maker.hist|
           && GoodMakerLock(e, w.maker.hist[w.verifiedAt.value])))
    && (OwnEscrow(e, w.own) ==> w.verifiedAt.Some? && SameTerms(w.own, e.OwnPromise()) && w.own.recipient != 0)
  }

  predicate ClaimInv(e: Setup, w: World) {
    && (OwnClaimed(e, w) ==>
          (w.claimedAt.Some? && w.claimedAt.value <= w.now && w.claimedAt.value < e.terms.responderTimeout
           && e.H(w.own.preimage) == e.h))
    && (OwnClaimed(e, w) && !w.missed ==>
          || w.now < MakerDeadline(w) - e.Margin()
          || (w.claimSent && w.now < MakerDeadline(w))
          || PaidAtDepth(w))
  }

  predicate Inv(e: Setup, w: World) {
    e.Ok() && Consistent(w.maker, w.now, true) && FundingInv(e, w) && ClaimInv(e, w)
  }

  /** A lock answer needs a confirmed escrow with all the agreed terms. */
  lemma LockNeedsGoodEscrow(e: Setup, x: Input)
    requires About(e, x) && DecideTaker(x).decision == Lock
    ensures x.iConfirmed.Some? && GoodMakerLock(e, x.iConfirmed.value)
  {
  }

  /** A fresh acknowledged take is funded exactly against such an escrow, while the
      runway to its own deadline is left and the maker leg does not read settled. */
  lemma FundingIsAnsweredExactly(e: Setup, x: Input)
    requires About(e, x) && x.record.fillAcknowledged && x.record.lockSentAt.None?
    requires x.rState.Some? && x.rState.value.status == NoSwap && x.rState.value.preimage == 0
    requires !x.abandonRequested && !x.cancelled && !x.released
    requires x.bookStatus != BookCancelled && x.bookStatus != BookGone
    requires x.initiatorCredit.GetOr(0) == 0 && x.responderCredit.GetOr(0) == 0
    ensures DecideTaker(x).decision == Lock <==>
      && x.iConfirmed.Some? && GoodMakerLock(e, x.iConfirmed.value)
      && x.now + x.lockRunwayS < e.terms.responderTimeout && !Settled(x.iState)
  {
  }

  lemma MakerKept(e: Setup, w: World, s: Event)
    requires Inv(e, w) && Enabled(e, w, s)
    ensures var v := Next(e, w, s); Consistent(v.maker, v.now, true)
  {
    if s.MoveMaker? {
      MoveKeeps(e.H, e.h, w.maker, s.move, w.now, true);
    } else {
      TimeKeeps(w.maker, w.now, true, Next(e, w, s).now, true);
    }
  }

  lemma FundingKept(e: Setup, w: World, s: Event)
    requires Inv(e, w) && Enabled(e, w, s)
    ensures FundingInv(e, Next(e, w, s))
  {
    if s.Fund? { LockNeedsGoodEscrow(e, s.input); }
  }

  lemma ClaimKept(e: Setup, w: World, s: Event)
    requires Inv(e, w) && Enabled(e, w, s)
    ensures ClaimInv(e, Next(e, w, s))
  {
    if s.MoveMaker? && s.move.Confirm? {
      assert Later(w.maker.Deep(), w.maker.hist[s.move.upTo], w.now, true);
    }
    if w.verifiedAt.Some? { Views(w.maker, w.verifiedAt.value, w.now, true); }
  }

  lemma StepKeeps(e: Setup, w: World, s: Event)
    requires Inv(e, w) && Enabled(e, w, s)
    ensures Inv(e, Next(e, w, s))
  {
    MakerKept(e, w, s);
    FundingKept(e, w, s);
    ClaimKept(e, w, s);
  }

  lemma {:induction false} RunKeeps(e: Setup, ws: seq<World>, steps: seq<Event>, n: nat)
    requires Run(e, ws, steps) && n < |ws|
    ensures Inv(e, ws[n])
  {
    if n > 0 {
      RunKeeps(e, ws, steps, n - 1);
      assert Follows(e, ws[n - 1], steps[n - 1], ws[n]);
      StepKeeps(e, ws[n - 1], steps[n - 1]);
    }
  }

  // ---- taker atomicity ----

  /** A later view of the verified maker escrow keeps its terms. */
  lemma HeadKeepsTerms(e: Setup, w: World)
    requires Inv(e, w) && w.verifiedAt.Some?
    ensures SameTerms(w.maker.hist[w.verifiedAt.value], w.maker.Head()) && w.maker.Head().status != NoSwap
    ensures w.maker.Head().status == Refunded ==> w.now >= MakerDeadline(w)
    ensures w.maker.Deep().status == Claimed ==> w.maker.Head() == w.maker.Deep()
  {
    Views(w.maker, w.verifiedAt.value, w.now, true);
  }

  /** A tick on those reads that may send again. */
  predicate HonestTick(e: Setup, w: World, x: Input) {
    Reads(e, w, x) && RetryOk(x.record.claimSentAt, x.now, x.resendAfterS)
  }

  /** After our escrow was claimed there are more than `claimSafetyS` minus the
      submission margin seconds in which every tick finds the maker escrow already
      paid to us, or open and answered with a claim. */
  lemma ClaimWindow(e: Setup, ws: seq<World>, steps: seq<Event>, n: nat, x: Input)
    requires Run(e, ws, steps) && n < |ws| && e.H(0) != e.h
    requires OwnClaimed(e, ws[n])
    ensures ws[n].claimedAt.Some? && ws[n].maker.Ok()
    ensures MakerDeadline(ws[n]) - e.Margin() - ws[n].claimedAt.value > e.claimSafetyS - e.Margin() > 0
    ensures ws[n].now < MakerDeadline(ws[n]) - e.Margin() && HonestTick(e, ws[n], x) ==>
              (ws[n].maker.Head().status == Claimed
               || (ws[n].maker.Head().status == Open && DecideTaker(x).decision == Claim))
    ensures var i := ws[n].maker.Head();
            i.recipient == e.Payee() && i.amount == e.terms.fromAmount && i.token == e.PayoutToken()
  {
    RunKeeps(e, ws, steps, n);
    HeadKeepsTerms(e, ws[n]);
  }

  /** Inside the window the answer is a claim exactly when the published secret is
      not the zero word, which the contract's record cannot tell from "none". */
  lemma ClaimIsAnsweredExactly(e: Setup, w: World, x: Input)
    requires Inv(e, w) && OwnClaimed(e, w) && HonestTick(e, w, x)
    requires w.maker.Head().status == Open && w.now < MakerDeadline(w) - e.Margin()
    ensures DecideTaker(x).decision == Claim <==> w.own.preimage != 0
    ensures e.H(0) != e.h ==> w.own.preimage != 0
  {
    HeadKeepsTerms(e, w);
  }

  /** Unless its window passed with no claim of its own and no payout at depth, or its
      claim did not land, a taker never has its own escrow claimed and the maker's
      refunded, whoever claimed for it; past the maker's deadline it is paid the agreed
      amount. */
  lemma TakerAtomicity(e: Setup, ws: seq<World>, steps: seq<Event>, n: nat)
    requires Run(e, ws, steps) && n < |ws| && !ws[n].missed && OwnClaimed(e, ws[n])
    ensures ws[n].maker.Ok() && ws[n].maker.Head().status != Refunded
    ensures var i := ws[n].maker.Head();
            i.recipient == e.Payee() && i.amount == e.terms.fromAmount && i.token == e.PayoutToken()
    ensures SameTerms(ws[n].own, e.OwnPromise())
    ensures ws[n].now >= MakerDeadline(ws[n]) ==> ws[n].maker.Head().status == Claimed
  {
    RunKeeps(e, ws, steps, n);
    HeadKeepsTerms(e, ws[n]);
  }

  // ---- giving the record up ----

  lemma PaidStep(e: Setup, w: World, s: Event)
    requires Inv(e, w) && PaidAtDepth(w) && Enabled(e, w, s)
    ensures PaidAtDepth(Next(e, w, s))
  {
    if s.MoveMaker? && s.move.Confirm? {
      assert Later(w.maker.Deep(), w.maker.hist[s.move.upTo], w.now, true);
    }
  }

  lemma {:induction false} PaidStays(e: Setup, ws: seq<World>, steps: seq<Event>, n: nat)
    requires Path(e, ws, steps) && n < |ws| && Inv(e, ws[0]) && PaidAtDepth(ws[0])
    ensures Inv(e, ws[n]) && PaidAtDepth(ws[n]) && ws[n].maker.Head().status == Claimed
  {
    if n > 0 {
      PaidStays(e, ws, steps, n - 1);
      assert Follows(e, ws[n - 1], steps[n - 1], ws[n]);
      StepKeeps(e, ws[n - 1], steps[n - 1]);
      PaidStep(e, ws[n - 1], steps[n - 1]);
    }
    Views(ws[n].maker, ws[n].maker.final, ws[n].now, true);
  }

  /** The maker leg ends, or can still end, refunded. */
  ghost predicate EndsRefunded(e: Setup, ws: seq<World>, steps: seq<Event>, w: World) {
    Path(e, ws, steps) && ws[0] == w && ws[|ws| - 1].maker.Ok() && ws[|ws| - 1].maker.Head().status == Refunded
  }

  /** Above depth everything can be reorganised away, and the deadline then passes. */
  lemma RefundAfterReorg(e: Setup, w: World) returns (ws: seq<World>, steps: seq<Event>)
    requires Inv(e, w) && w.verifiedAt.Some? && w.maker.Deep().status == Open
    ensures EndsRefunded(e, ws, steps, w) && ws[|ws| - 1].own == w.own
  {
    Views(w.maker, w.verifiedAt.value, w.now, true);
    var deep := w.maker.Deep();
    var late := if w.now < deep.timeout then deep.timeout else w.now;
    steps := [MoveMaker(Reorg(w.maker.final + 1)), Tick(late), MoveMaker(Append(deep.(status := Refunded)))];
    var v1 := Next(e, w, steps[0]);
    assert v1.maker.Head() == deep;
    var v2 := Next(e, v1, steps[1]);
    var v3 := Next(e, v2, steps[2]);
    ws := [w, v1, v2, v3];
    assert forall n :: 0 <= n < 3 ==> Follows(e, ws[n], steps[n], ws[n + 1]);
  }

  /** A funded taker that gives its record up with nothing more to send: no continuation
      ends with the maker leg refunded exactly when the payout is claimed at depth. The
      code looks at the head. */
  lemma FinishIsSafeExactly(e: Setup, w: World, x: Input)
    requires Inv(e, w) && w.verifiedAt.Some? && Enabled(e, w, GiveUp(x))
    ensures (forall ws, steps :: !EndsRefunded(e, ws, steps, Next(e, w, GiveUp(x)))) <==> PaidAtDepth(w)
  {
    var v := Next(e, w, GiveUp(x));
    StepKeeps(e, w, GiveUp(x));
    Views(w.maker, w.verifiedAt.value, w.now, true);
    if PaidAtDepth(w) {
      forall ws, steps ensures !EndsRefunded(e, ws, steps, v) {
        if Path(e, ws, steps) && ws[0] == v { PaidStays(e, ws, steps, |ws| - 1); }
      }
    } else if w.maker.Deep().status == Open {
      var ws, steps := RefundAfterReorg(e, v);
    } else {
      assert EndsRefunded(e, [v], [], v);
    }
  }

  // ---- the zero secret ----

  lemma ZeroSecretIsInvisible(e: Setup, w: World, x: Input)
    requires w.own.preimage == 0
    ensures !Enabled(e, w, SendClaim(x))
  {
  }

  /** From any state in which the escrow was claimed with the zero word no tick can
      answer with a claim, and once the maker escrow's own deadline passes the maker
      takes that back as well. */
  lemma ZeroSecretLosesBoth(e: Setup, w: World)
    requires Inv(e, w) && OwnClaimed(e, w) && w.own.preimage == 0
    requires w.now <= MakerDeadline(w) && w.maker.Head().status == Open
    ensures var later := Tick(MakerDeadline(w));
            && Enabled(e, w, later)
            && var v := Next(e, w, later);
            && (forall x :: !Enabled(e, w, SendClaim(x)) && !Enabled(e, v, SendClaim(x)))
            && var back := MoveMaker(Append(w.maker.Head().(status := Refunded)));
            && Enabled(e, v, back)
            && var u := Next(e, v, back);
            && OwnClaimed(e, u) && u.maker.Ok() && u.maker.Head().status == Refunded
  {
    HeadKeepsTerms(e, w);
    var v := Next(e, w, Tick(MakerDeadline(w)));
    forall x ensures !Enabled(e, w, SendClaim(x)) && !Enabled(e, v, SendClaim(x)) {
      ZeroSecretIsInvisible(e, w, x);
      ZeroSecretIsInvisible(e, v, x);
    }
  }

  lemma Extend(e: Setup, ws: seq<World>, steps: seq<Event>, s: Event)
    returns (ws': seq<World>, steps': seq<Event>)
    requires Run(e, ws, steps) && Enabled(e, ws[|ws| - 1], s)
    ensures ws' == ws + [Next(e, ws[|ws| - 1], s)] && steps' == steps + [s] && Run(e, ws', steps')
  {
    ws', steps' := ws + [Next(e, ws[|ws| - 1], s)], steps + [s];
    forall n | 0 <= n < |steps'| ensures Follows(e, ws'[n], steps'[n], ws'[n + 1]) {
      if n < |steps| { assert Follows(e, ws[n], steps[n], ws[n + 1]); }
    }
  }
}
