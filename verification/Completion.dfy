/**
 * Both sides honest, everybody else arbitrary: the two decision cores over one joint
 * step system with both chains, one clock, and a secret nobody else can use until the
 * maker's claim carries it. The clock only advances as the timing premises allow, so
 * that a run past the bound is a run in which both ticks and both claims were on time.
 */
module Completion {
  import opened Common
  import opened Leg
  import opened Chains
  import opened Orders
  import MakerPolicy
  import TakerPolicy

  // ---- what each side answers ----

  /** What both sides read off the signed order and fill, and their own margins. */
  datatype Deal = Deal(
    H: Secret -> Hash,
    h: Hash,
    terms: TakerPolicy.PlanInput,
    taker: Address,
    makerSafetyS: int,
    takerSafetyS: int,
    lockRunwayS: int,
    txTimeoutMs: nat)
  {
    function Plans(): TakerPolicy.Plans { TakerPolicy.TakerLegPlans(terms) }
    function Margin(): int { TakerPolicy.ClaimSubmitMarginS(txTimeoutMs) }

    /** The runway leaves the maker its margin; the taker's window is usable; zero is
        not the secret. */
    predicate Ok() {
      && taker != 0 && Plans().responder.recipient != 0 && H(0) != h
      && 0 <= makerSafetyS <= lockRunwayS && TakerPolicy.ClaimWindowIsUsable(takerSafetyS, txTimeoutMs)
    }

    function TakerEscrow(): LegState {
      var plan := Plans().responder;
      LegState(Open, taker, plan.recipient, plan.expectedToken, plan.amount, plan.timeout, 0)
    }

    /** A maker escrow the taker may fund against. */
    predicate Good(s: LegState) {
      TakerPolicy.CheckMakerLock(Some(s), Plans().initiator, terms.responderTimeout, takerSafetyS, false)
      == TakerPolicy.MakerOk
    }
  }

  /** The maker's filled and funded record of this deal. */
  predicate Ready(d: Deal, m: Managed) {
    && m.preimage.Some? && d.H(m.preimage.value) == d.h && m.hashlock == Some(d.h) && m.lockSentAt.Some?
    && m.initiatorTimeout == Some(d.terms.initiatorTimeout) && m.responderTimeout == Some(d.terms.responderTimeout)
  }

  /** A maker tick on that record. */
  predicate MakerAbout(d: Deal, y: MakerPolicy.Input) {
    var plan := d.Plans().responder;
    && y.bookStatus == MakerPolicy.BookLocking && y.claimSafetyS == d.makerSafetyS && Ready(d, y.managed)
    && y.expectedRecipient == plan.recipient && y.expectedAmount == plan.amount && y.expectedToken == plan.expectedToken
  }

  predicate TakerAbout(d: Deal, z: TakerPolicy.Input) {
    && z.plans == d.Plans() && z.ourResponderAddress == d.taker
    && z.claimSafetyS == d.takerSafetyS && z.claimSubmitMarginS == d.Margin() && z.lockRunwayS == d.lockRunwayS
    && z.fill.Some? && z.fill.value.responderTimeout == d.terms.responderTimeout
  }

  /** The maker claims an escrow, for the first time or again, exactly when it pays the
      agreed amount of the agreed asset to the maker, the margin is left before both the
      escrow's own timeout and the announced one, and no claim was sent within the
      resend interval. */
  lemma MakerAnswersExactly(d: Deal, i: LegState, r: LegState, y: MakerPolicy.Input)
    requires MakerAbout(d, y)
    requires y.iState == Some(i) && i.status == Open
    requires y.rConfirmed == Some(r) && y.rState.Some? && y.rState.value.status == Open && r.status == Open
    ensures MakerPolicy.Decide(y) == MakerPolicy.ClaimLeg <==>
      && y.now + d.makerSafetyS < Min(r.timeout, d.terms.responderTimeout)
      && (y.managed.claimSentAt.Some? ==> y.now > y.managed.claimSentAt.value + y.resendAfterS)
      && var plan := d.Plans().responder;
         r.recipient == plan.recipient && r.amount == plan.amount && r.token == plan.expectedToken
  {
  }

  /** The taker claims exactly until the submission margin before the maker escrow's
      timeout, in the same spacing. */
  lemma TakerAnswersExactly(d: Deal, i: LegState, r: LegState, z: TakerPolicy.Input)
    requires TakerAbout(d, z)
    requires z.iState == Some(i) && i.status == Open
    requires z.rState == Some(r) && r.status == Claimed && r.initiator == d.taker && r.preimage != 0
    ensures TakerPolicy.DecideTaker(z).decision == TakerPolicy.Claim <==>
      && z.now < i.timeout - d.Margin()
      && (z.record.claimSentAt.Some? ==> z.now > z.record.claimSentAt.value + z.resendAfterS)
  {
  }

  // ---- the joint run ----

  /** `fundedAt`/`verified`: the taker's first lock send and the confirmed maker escrow
      it leaned on. `claimAt`: the maker's first claim broadcast. `metAt`: the confirmed
      taker escrow the maker's tick met. `deepAt`: when the responder leg was first
      Claimed at depth. `served`: a taker tick came after that. `payingAt`: when a claim
      of the maker escrow was first on its way. */
  datatype World = World(
    now: int,
    initiator: Chain,
    responder: Chain,
    managed: Managed,
    record: TakerPolicy.Record,
    fundedAt: Option<int>,
    verified: nat,
    revealed: bool,
    claimAt: Option<int>,
    metAt: Option<nat>,
    deepAt: Option<int>,
    served: bool,
    payingAt: Option<int>)

  datatype Event =
    | Fund(x: TakerPolicy.Input, index: nat)
    | MakerTick(y: MakerPolicy.Input)
    | TakerTick(z: TakerPolicy.Input)
    | Tick(until: int)
    | MoveInitiator(move: Move)
    | MoveResponder(move: Move)

  function Deadline(f: Option<int>, after: int): int
    requires f.Some?
  {
    f.value + after
  }

  /** The timing premises: the clock does not pass `until` before a maker tick met the
      confirmed lock within the runway less the maker's margin; the maker's claim was
      final within that margin; a taker tick followed within the taker's margins; and
      a claim on its way was final within the submission margin. */
  predicate Timely(d: Deal, w: World, until: int) {
    && (w.fundedAt.Some? && w.metAt.None? ==> until <= Deadline(w.fundedAt, d.lockRunwayS - d.makerSafetyS))
    && (w.claimAt.Some? && w.deepAt.None? ==> until <= Deadline(w.claimAt, d.makerSafetyS))
    && (w.deepAt.Some? && !w.served ==> until <= Deadline(w.deepAt, d.takerSafetyS - d.Margin()))
    && (w.payingAt.Some? && !(w.initiator.Ok() && w.initiator.Deep().status == Claimed) ==>
          until <= Deadline(w.payingAt, d.Margin()))
  }

  predicate Enabled(d: Deal, w: World, s: Event) {
    && w.initiator.Ok() && w.responder.Ok()
    && match s
       case Fund(x, k) =>
         && TakerAbout(d, x) && x.now == w.now && x.record == w.record
         && k <= w.initiator.final && x.iConfirmed == Some(w.initiator.hist[k]) && x.rState == Some(w.responder.Head())
         && TakerPolicy.DecideTaker(x).decision == TakerPolicy.Lock
       case MakerTick(y) =>
         && MakerAbout(d, y) && y.now == w.now && y.managed == w.managed
         && y.iState == Some(w.initiator.Head()) && y.rState == Some(w.responder.Head())
         && y.rConfirmed == Some(w.responder.Deep())
       case TakerTick(z) =>
         && TakerAbout(d, z) && z.now == w.now && z.record == w.record
         && z.iState == Some(w.initiator.Head()) && z.rState == Some(w.responder.Head())
       case Tick(until) => w.now <= until && Timely(d, w, until)
       case MoveInitiator(move) => Allowed(d.H, d.h, w.initiator, move, w.now, w.revealed)
       case MoveResponder(move) =>
         && Allowed(d.H, d.h, w.responder, move, w.now, w.revealed)
         && (move.Append? && w.responder.Head().status == NoSwap && move.to.initiator == d.taker ==>
               (w.fundedAt.Some? && move.to == d.TakerEscrow()))
  }

  function FirstOf(old_: Option<int>, now: int): Option<int> { if old_.Some? then old_ else Some(now) }

  function Next(d: Deal, w: World, s: Event): World
    requires Enabled(d, w, s)
  {
    match s
    case Fund(x, k) =>
      var marked := w.(record := w.record.(lockSentAt := Some(w.now)));
      if w.fundedAt.Some? then marked else marked.(fundedAt := Some(w.now), verified := k)
    case MakerTick(y) =>
      var met := if w.metAt.None? && w.responder.Deep() == d.TakerEscrow() then Some(w.responder.final) else w.metAt;
      if MakerPolicy.Decide(y) == MakerPolicy.ClaimLeg then
        w.(metAt := met, revealed := true, claimAt := FirstOf(w.claimAt, w.now),
           managed := w.managed.(claimSentAt := Some(w.now)))
      else w.(metAt := met)
    case TakerTick(z) =>
      var claims := TakerPolicy.DecideTaker(z).decision == TakerPolicy.Claim;
      var paid := w.deepAt.Some? && w.initiator.Head().status == Claimed;
      w.(served := w.served || w.deepAt.Some?,
         payingAt := if claims || paid then FirstOf(w.payingAt, w.now) else w.payingAt,
         record := if claims then w.record.(claimSentAt := Some(w.now)) else w.record)
    case Tick(until) => w.(now := until)
    case MoveInitiator(move) => w.(initiator := Moved(w.initiator, move))
    case MoveResponder(move) =>
      var c := Moved(w.responder, move);
      w.(responder := c, deepAt := if c.Ok() && c.Deep().status == Claimed then FirstOf(w.deepAt, w.now) else w.deepAt)
  }

  predicate Start(d: Deal, w: World) {
    && d.Ok() && w.initiator == UNUSED && w.responder == UNUSED
    && Ready(d, w.managed) && w.managed.claimSentAt.None? && w.record.claimSentAt.None?
    && w.fundedAt.None? && !w.revealed && w.claimAt.None? && w.metAt.None?
    && w.deepAt.None? && !w.served && w.payingAt.None?
  }

  predicate Follows(d: Deal, w: World, s: Event, v: World) {
    Enabled(d, w, s) && v == Next(d, w, s)
  }

  ghost predicate Run(d: Deal, ws: seq<World>, steps: seq<Event>) {
    && |ws| == |steps| + 1 && Start(d, ws[0])
    && forall n :: 0 <= n < |steps| ==> Follows(d, ws[n], steps[n], ws[n + 1])
  }

  // ---- invariants ----

  predicate ChainsOk(w: World) {
    Consistent(w.initiator, w.now, w.revealed) && Consistent(w.responder, w.now, w.revealed)
  }

  /** The taker's name stands only on its own lock, and a claim shows a preimage. */
  predicate Entry(d: Deal, w: World, s: LegState) {
    && (s.initiator == d.taker ==> w.fundedAt.Some? && SameTerms(s, d.TakerEscrow()))
    && (s.status == Claimed ==> d.H(s.preimage) == d.h)
    && (s.status == NoSwap ==> s == NO_SWAP)
    && (s.status != Claimed ==> s.preimage == 0)
  }

  predicate EntriesOk(d: Deal, w: World) {
    forall n :: 0 <= n < |w.responder.hist| ==> Entry(d, w, w.responder.hist[n])
  }

  predicate FundingOk(d: Deal, w: World) {
    w.fundedAt.Some? ==>
      && w.verified <= w.initiator.final < |w.initiator.hist| && d.Good(w.initiator.hist[w.verified])
      && w.fundedAt.value <= w.now && w.fundedAt.value + d.lockRunwayS < d.terms.responderTimeout
      && (w.metAt.None? ==> w.now <= w.fundedAt.value + d.lockRunwayS - d.makerSafetyS)
  }

  /** Once the maker's tick met the lock the claim is out in time; a secret that went
      out otherwise went into somebody else's confirmed escrow. */
  predicate MakerOk(d: Deal, w: World) {
    && w.responder.Ok() && Ready(d, w.managed)
    && (w.revealed <==> w.claimAt.Some?) && (w.managed.claimSentAt.Some? <==> w.claimAt.Some?)
    && (w.metAt.Some? ==>
          && w.fundedAt.Some? && w.claimAt.Some?
          && w.claimAt.value <= w.fundedAt.value + d.lockRunwayS - d.makerSafetyS
          && w.metAt.value <= w.responder.final && w.responder.hist[w.metAt.value] == d.TakerEscrow())
    && (w.revealed && w.metAt.None? ==> w.responder.Deep().status != NoSwap && w.responder.Deep().initiator != d.taker)
  }

  predicate TakerOk(d: Deal, w: World) {
    && w.initiator.Ok() && w.responder.Ok()
    && (w.deepAt.Some? <==> w.responder.Deep().status == Claimed)
    && (w.claimAt.Some? && w.deepAt.None? ==> w.now <= w.claimAt.value + d.makerSafetyS)
    && (w.deepAt.Some? ==> w.claimAt.Some? && w.deepAt.value <= w.claimAt.value + d.makerSafetyS)
    && (w.deepAt.Some? && !w.served ==> w.now <= w.deepAt.value + d.takerSafetyS - d.Margin())
    && (w.record.claimSentAt.Some? ==> w.payingAt.Some?)
    && (w.payingAt.Some? ==> w.revealed)
    && (w.metAt.Some? && w.payingAt.Some? ==>
          w.payingAt.value <= w.fundedAt.GetOr(0) + d.lockRunwayS + d.takerSafetyS - d.Margin())
    && (w.served ==> w.deepAt.Some?) && (w.metAt.Some? && w.served ==> w.payingAt.Some?)
    && (w.payingAt.Some? && w.initiator.Deep().status != Claimed ==> w.now <= w.payingAt.value + d.Margin())
  }

  predicate Inv(d: Deal, w: World) {
    d.Ok() && ChainsOk(w) && EntriesOk(d, w) && FundingOk(d, w) && MakerOk(d, w) && TakerOk(d, w)
  }

  lemma ChainsKept(d: Deal, w: World, s: Event)
    requires Inv(d, w) && Enabled(d, w, s)
    ensures ChainsOk(Next(d, w, s))
  {
    var v := Next(d, w, s);
    if s.MoveInitiator? {
      MoveKeeps(d.H, d.h, w.initiator, s.move, w.now, w.revealed);
    } else if s.MoveResponder? {
      MoveKeeps(d.H, d.h, w.responder, s.move, w.now, w.revealed);
    } else {
      TimeKeeps(w.initiator, w.now, w.revealed, v.now, v.revealed);
      TimeKeeps(w.responder, w.now, w.revealed, v.now, v.revealed);
    }
  }

  lemma EntriesKept(d: Deal, w: World, s: Event)
    requires Inv(d, w) && Enabled(d, w, s)
    ensures EntriesOk(d, Next(d, w, s))
  {
    var v := Next(d, w, s);
    assert Entry(d, w, w.responder.Head());
    forall n | 0 <= n < |v.responder.hist| ensures Entry(d, v, v.responder.hist[n]) {
      if n < |w.responder.hist| { assert Entry(d, w, w.responder.hist[n]); }
    }
  }

  /** A lock answer leans on a good escrow and on runway that is left. */
  lemma FundNeeds(d: Deal, x: TakerPolicy.Input)
    requires TakerAbout(d, x) && TakerPolicy.DecideTaker(x).decision == TakerPolicy.Lock
    ensures x.iConfirmed.Some? && d.Good(x.iConfirmed.value)
    ensures x.now + d.lockRunwayS < d.terms.responderTimeout
    ensures x.rState.Some? && x.rState.value.status == NoSwap
  {
  }

  lemma FundingKept(d: Deal, w: World, s: Event)
    requires Inv(d, w) && Enabled(d, w, s)
    ensures FundingOk(d, Next(d, w, s))
  {
    if s.Fund? { FundNeeds(d, s.x); }
  }

  /** While funded and unrevealed, the maker escrow at head is the verified one, Open:
      nobody can claim it and its refund is not due. */
  lemma MakerEscrowStands(d: Deal, w: World)
    requires Inv(d, w) && w.fundedAt.Some?
    ensures SameTerms(w.initiator.Head(), w.initiator.hist[w.verified]) && w.initiator.Head().status != NoSwap
    ensures w.now < w.initiator.Head().timeout ==> w.initiator.Head().status != Refunded
    ensures !w.revealed ==> w.initiator.Head().status != Claimed
    ensures w.initiator.Head().timeout >= d.terms.responderTimeout + d.takerSafetyS
    ensures w.initiator.Deep().status == Claimed ==> w.initiator.Head() == w.initiator.Deep()
  {
    Views(w.initiator, w.verified, w.now, w.revealed);
  }

  /** The tick that meets the confirmed lock answers with the claim. */
  lemma MeetingAnswersClaim(d: Deal, w: World, y: MakerPolicy.Input)
    requires Inv(d, w) && Enabled(d, w, MakerTick(y)) && w.metAt.None? && w.responder.Deep() == d.TakerEscrow()
    ensures !w.revealed && MakerPolicy.Decide(y) == MakerPolicy.ClaimLeg
  {
    assert Entry(d, w, w.responder.Deep());
    MakerEscrowStands(d, w);
    Views(w.responder, w.responder.final, w.now, w.revealed);
    MakerAnswersExactly(d, w.initiator.Head(), w.responder.Deep(), y);
  }

  lemma MakerKept(d: Deal, w: World, s: Event)
    requires Inv(d, w) && Enabled(d, w, s)
    ensures MakerOk(d, Next(d, w, s))
  {
    assert Entry(d, w, w.responder.Deep());
    if s.MakerTick? && w.metAt.None? && w.responder.Deep() == d.TakerEscrow() {
      MeetingAnswersClaim(d, w, s.y);
    }
    if s.MakerTick? && MakerPolicy.Decide(s.y) == MakerPolicy.ClaimLeg && w.metAt.None? {
      assert w.responder.Deep().status == Open;
    }
    if s.MoveResponder? && s.move.Confirm? {
      assert Later(w.responder.Deep(), w.responder.hist[s.move.upTo], w.now, w.revealed);
    }
  }

  /** A tick that finds its own escrow claimed at depth sends its claim, or finds one
      on its way already. */
  lemma ServingPays(d: Deal, w: World, z: TakerPolicy.Input)
    requires Inv(d, w) && Enabled(d, w, TakerTick(z)) && w.metAt.Some? && w.deepAt.Some? && w.payingAt.None?
    ensures TakerPolicy.DecideTaker(z).decision == TakerPolicy.Claim || w.initiator.Head().status == Claimed
  {
    Views(w.responder, w.metAt.value, w.now, w.revealed);
    assert Entry(d, w, w.responder.Head());
    MakerEscrowStands(d, w);
    if w.initiator.Head().status == Open {
      TakerAnswersExactly(d, w.initiator.Head(), w.responder.Head(), z);
    }
  }

  lemma TakerKeptByTick(d: Deal, w: World, z: TakerPolicy.Input)
    requires Inv(d, w) && Enabled(d, w, TakerTick(z))
    ensures TakerOk(d, Next(d, w, TakerTick(z)))
  {
    if w.metAt.Some? && w.deepAt.Some? && w.payingAt.None? { ServingPays(d, w, z); }
    assert Entry(d, w, w.responder.Head());
    assert Later(w.responder.Head(), w.responder.Head(), w.now, w.revealed);
    assert Later(w.initiator.Head(), w.initiator.Head(), w.now, w.revealed);
  }

  lemma TakerKept(d: Deal, w: World, s: Event)
    requires Inv(d, w) && Enabled(d, w, s) && !s.TakerTick?
    ensures TakerOk(d, Next(d, w, s))
  {
    if s.MoveResponder? && s.move.Confirm? {
      var deeper := w.responder.hist[s.move.upTo];
      assert Later(w.responder.Deep(), deeper, w.now, w.revealed);
      assert Later(deeper, deeper, w.now, w.revealed);
    }
    if s.MoveInitiator? && s.move.Confirm? {
      assert Later(w.initiator.Deep(), w.initiator.hist[s.move.upTo], w.now, w.revealed);
    }
    if s.MakerTick? && w.metAt.None? && w.responder.Deep() == d.TakerEscrow() {
      MeetingAnswersClaim(d, w, s.y);
    }
  }

  lemma {:induction false} RunKeeps(d: Deal, ws: seq<World>, steps: seq<Event>, n: nat)
    requires Run(d, ws, steps) && n < |ws|
    ensures Inv(d, ws[n])
  {
    if n > 0 {
      RunKeeps(d, ws, steps, n - 1);
      var w, s := ws[n - 1], steps[n - 1];
      assert Follows(d, w, s, ws[n]);
      ChainsKept(d, w, s);
      EntriesKept(d, w, s);
      FundingKept(d, w, s);
      MakerKept(d, w, s);
      if s.TakerTick? { TakerKeptByTick(d, w, s.z); } else { TakerKept(d, w, s); }
    }
  }

  // ---- bounded-time completion ----

  /** The swap is over at depth: each side holds what the order promised it, on its own
      account of that leg. */
  predicate Completed(d: Deal, w: World) {
    && w.initiator.Ok() && w.responder.Ok()
    && var i, r, t := w.initiator.Deep(), w.responder.Deep(), d.terms;
    && i.status == Claimed && r.status == Claimed && r.initiator == d.taker
    && i.amount == t.fromAmount && r.amount == t.toAmount
    && (if t.ethToQrl
        then i.recipient == t.takerEthAccount && i.token == t.assetToken
             && r.recipient == t.makerQrlAccount && r.token == 0
        else i.recipient == t.takerQrlAccount && i.token == 0
             && r.recipient == t.makerEthAccount && r.token == t.assetToken)
  }

  /** If the taker funded at second `f`, any second `decideTaker` allows it, then every
      run that meets the timing premises has both legs Claimed, to the right parties and
      at depth, once the clock is past `f` by the runway and the taker's claim margin. */
  lemma HonestCompletion(d: Deal, ws: seq<World>, steps: seq<Event>, n: nat)
    requires Run(d, ws, steps) && n < |ws| && ws[n].fundedAt.Some?
    requires ws[n].now > ws[n].fundedAt.value + d.lockRunwayS + d.takerSafetyS
    ensures Completed(d, ws[n])
  {
    RunKeeps(d, ws, steps, n);
    var w := ws[n];
    assert w.metAt.Some? && w.deepAt.Some? && w.served && w.payingAt.Some?;
    MakerEscrowStands(d, w);
    Views(w.initiator, w.verified, w.now, w.revealed);
    Views(w.responder, w.metAt.value, w.now, w.revealed);
  }

  // ---- such runs exist ----

  lemma Extend(d: Deal, ws: seq<World>, steps: seq<Event>, s: Event) returns (us: seq<World>, es: seq<Event>)
    requires Run(d, ws, steps) && Enabled(d, ws[|ws| - 1], s)
    ensures us == ws + [Next(d, ws[|ws| - 1], s)] && es == steps + [s] && Run(d, us, es) && Inv(d, us[|us| - 1])
  {
    us, es := ws + [Next(d, ws[|ws| - 1], s)], steps + [s];
    forall n | 0 <= n < |es| ensures Follows(d, us[n], es[n], us[n + 1]) {
      if n < |steps| { assert Follows(d, ws[n], steps[n], ws[n + 1]); }
    }
    RunKeeps(d, us, es, |us| - 1);
  }

  /** A chain move that lands `to` and confirms it. */
  function Landed(c: Chain, to: LegState): Chain { Chain(c.hist + [to], |c.hist|) }

  lemma LandOnResponder(d: Deal, ws: seq<World>, steps: seq<Event>, to: LegState)
    returns (us: seq<World>, es: seq<Event>)
    requires Run(d, ws, steps) && Enabled(d, ws[|ws| - 1], MoveResponder(Append(to)))
    requires ws[|ws| - 1].deepAt.None?
    ensures Run(d, us, es) && ws <= us && Inv(d, us[|us| - 1])
    ensures var w := ws[|ws| - 1];
            us[|us| - 1] == w.(responder := Landed(w.responder, to),
                               deepAt := if to.status == Claimed then Some(w.now) else None)
  {
    RunKeeps(d, ws, steps, |ws| - 1);
    us, es := Extend(d, ws, steps, MoveResponder(Append(to)));
    us, es := Extend(d, us, es, MoveResponder(Confirm(|ws[|ws| - 1].responder.hist|)));
  }

  lemma LandOnInitiator(d: Deal, ws: seq<World>, steps: seq<Event>, to: LegState)
    returns (us: seq<World>, es: seq<Event>)
    requires Run(d, ws, steps) && Enabled(d, ws[|ws| - 1], MoveInitiator(Append(to)))
    ensures Run(d, us, es) && ws <= us
    ensures var w := ws[|ws| - 1]; us[|us| - 1] == w.(initiator := Landed(w.initiator, to))
  {
    us, es := Extend(d, ws, steps, MoveInitiator(Append(to)));
    us, es := Extend(d, us, es, MoveInitiator(Confirm(|ws[|ws| - 1].initiator.hist|)));
  }

  function MakerQuestion(d: Deal, w: World): MakerPolicy.Input
    requires w.initiator.Ok() && w.responder.Ok()
  {
    var plan := d.Plans().responder;
    MakerPolicy.Input(MakerPolicy.BookLocking, false, w.managed, Some(w.initiator.Head()), Some(w.responder.Head()),
                      Some(w.responder.Deep()), plan.recipient, plan.amount, plan.expectedToken, w.now, 0,
                      d.makerSafetyS, 0, false, 0, None, 0, None, None, None)
  }

  function TakerQuestion(d: Deal, w: World): TakerPolicy.Input
    requires w.initiator.Ok() && w.responder.Ok()
  {
    TakerPolicy.Input(w.record, TakerPolicy.BookLocking, false, false, false,
                      Some(TakerPolicy.Terms(d.h, d.terms.initiatorTimeout, d.terms.responderTimeout, 0)), d.Plans(),
                      Some(w.initiator.Head()), Some(w.initiator.Deep()), Some(w.responder.Head()), d.taker,
                      None, false, w.now, 0, d.takerSafetyS, d.lockRunwayS, d.Margin(), None, None)
  }

  /** The maker's half: the taker's lock lands, a tick meets it, the claim lands. */
  lemma MakerCollects(d: Deal, ws: seq<World>, steps: seq<Event>) returns (us: seq<World>, es: seq<Event>)
    requires Run(d, ws, steps) && d.terms.toAmount > 0
    requires var w := ws[|ws| - 1];
             w.fundedAt.Some? && w.metAt.None? && w.responder.Ok() && w.responder.Head().status == NoSwap
    ensures Run(d, us, es) && ws <= us && Inv(d, us[|us| - 1])
    ensures var w, v := ws[|ws| - 1], us[|us| - 1];
            && v.metAt.Some? && v.deepAt.Some? && v.revealed && v.payingAt.None?
            && v.initiator == w.initiator && v.now == w.now
            && w.initiator.Ok() && w.initiator.Head().status == Open
  {
    var w := ws[|ws| - 1];
    RunKeeps(d, ws, steps, |ws| - 1);
    Views(w.responder, w.responder.final, w.now, w.revealed);
    MakerEscrowStands(d, w);
    us, es := LandOnResponder(d, ws, steps, d.TakerEscrow());
    var v := us[|us| - 1];
    var y := MakerQuestion(d, v);
    MeetingAnswersClaim(d, v, y);
    us, es := Extend(d, us, es, MakerTick(y));
    us, es := LandOnResponder(d, us, es, d.TakerEscrow().(status := Claimed, preimage := w.managed.preimage.value));
  }

  /** From every state in which the taker funded and its lock can still land, the
      premises can be met: some continuation completes, and leaves the clock free. */
  lemma CompletionIsReachable(d: Deal, ws: seq<World>, steps: seq<Event>) returns (us: seq<World>, es: seq<Event>)
    requires Run(d, ws, steps) && d.terms.toAmount > 0
    requires var w := ws[|ws| - 1];
             w.fundedAt.Some? && w.metAt.None? && w.responder.Ok() && w.responder.Head().status == NoSwap
    ensures Run(d, us, es) && ws <= us && Completed(d, us[|us| - 1])
    ensures var last := us[|us| - 1]; forall until :: Timely(d, last, until)
  {
    us, es := MakerCollects(d, ws, steps);
    var v := us[|us| - 1];
    var z := TakerQuestion(d, v);
    ServingPays(d, v, z);
    us, es := Extend(d, us, es, TakerTick(z));
    MakerEscrowStands(d, v);
    us, es := LandOnInitiator(d, us, es, v.initiator.Head().(status := Claimed, preimage := v.managed.preimage.value));
    var last := us[|us| - 1];
    RunKeeps(d, us, es, |us| - 1);
    Views(last.initiator, last.verified, last.now, last.revealed);
    Views(last.responder, last.metAt.value, last.now, last.revealed);
  }

  // ---- and when the other side never finishes ----

  /** The maker's own lock, carrying the record's timeout, with no taker escrow to
      claim and no public secret: the answer is a refund exactly from the second the
      contract accepts one, again and again in the resend spacing. */
  lemma MakerTakesBackExactly(i: LegState, y: MakerPolicy.Input)
    requires y.bookStatus == MakerPolicy.BookLocking
    requires y.managed.preimage.Some? && y.managed.hashlock.Some? && y.managed.lockSentAt.Some?
    requires y.managed.initiatorTimeout == Some(i.timeout) && y.managed.responderTimeout.Some?
    requires y.iState == Some(i) && i.status == Open && i.recipient != 0
    requires y.rConfirmed.Some? ==> y.rConfirmed.value.status == NoSwap || y.rConfirmed.value.status == Refunded
    ensures MakerPolicy.Decide(y) == MakerPolicy.RefundLeg <==>
      && RefundStep(i, i.(status := Refunded), y.now)
      && (y.managed.refundSentAt.Some? ==> y.now > y.managed.refundSentAt.value + y.resendAfterS)
  {
  }

  /** The taker's escrow, unclaimed and with no credit to collect: refunded exactly
      from the second the contract accepts it, whatever its terms turned out to be. */
  lemma TakerTakesBackExactly(r: LegState, taker: Address, z: TakerPolicy.Input)
    requires z.fill.Some? && z.ourResponderAddress == taker && z.rState == Some(r)
    requires r.status == Open && r.initiator == taker && r.recipient != 0 && r.preimage == 0
    requires z.initiatorCredit.GetOr(0) == 0 && z.responderCredit.GetOr(0) == 0
    ensures TakerPolicy.DecideTaker(z).decision == TakerPolicy.Refund <==>
      && RefundStep(r, r.(status := Refunded), z.now)
      && (z.record.refundSentAt.Some? ==> z.now > z.record.refundSentAt.value + z.resendAfterS)
  {
  }
}
