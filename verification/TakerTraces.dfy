/** Concrete runs that show where the taker's guarantee stops. */
module TakerTraces {
  import opened Common
  import opened Leg
  import opened Chains
  import opened TakerPolicy
  import opened TakerRun

  const TERMS := PlanInput(true, 0, 100, 500, 1, 2, 3, 4, 7200, 3600)

  /** Secret `s` hashes to `s + 1`: hashlock 1 is the zero word's, hashlock 8 is 7's. */
  function Shop(h: Hash): Setup { Setup((s: Secret) => s + 1, h, 4, TERMS, 1800, 180000) }

  const MAKER_LOCK := LegState(Open, 1, 3, 0, 100, 7200, 0)
  const OWN_LOCK := LegState(Open, 4, 2, 0, 500, 3600, 0)
  const RECORD := Record(true, Some(0), None, None, None, None, None)
  const FUNDING :=
    Input(RECORD, BookLocking, false, false, false, Some(Terms(1, 7200, 3600, 300)), TakerLegPlans(TERMS),
          Some(MAKER_LOCK), Some(MAKER_LOCK), Some(NO_SWAP), 4, None, false, 0, 60, 1800, 900, 240, Some(0), Some(0))

  const OFFERED := World(0, Chain([NO_SWAP, MAKER_LOCK], 1), NO_SWAP, None, None, false, false, false)
  const VERIFIED := OFFERED.(verifiedAt := Some(1))
  const FUNDED := VERIFIED.(own := OWN_LOCK)

  /** The maker, or anybody with the secret, has claimed the taker's escrow. */
  function Taken(secret: Secret): World {
    FUNDED.(own := OWN_LOCK.(status := Claimed, preimage := secret), claimedAt := Some(0))
  }

  lemma ShopFacts(h: Hash)
    ensures Shop(h).OwnTerms() == OWN_LOCK && Shop(h).Margin() == 240 && Shop(h).Ok()
  {
  }

  lemma FundingIsAnswered(h: Hash)
    ensures About(Shop(h), FUNDING) && DecideTaker(FUNDING).decision == Lock
  {
    assert MakerLockOf(FUNDING) == MakerOk && OwnLockOf(FUNDING) == OwnAbsent && CreditLeg(FUNDING).None?;
    assert Funding(FUNDING, 3600) == Lock;
  }

  lemma MakerOffers(h: Hash) returns (ws: seq<World>, steps: seq<Event>)
    ensures Run(Shop(h), ws, steps) && ws[|ws| - 1] == OFFERED
  {
    ShopFacts(h);
    ws, steps := [World(0, UNUSED, NO_SWAP, None, None, false, false, false)], [];
    ws, steps := Extend(Shop(h), ws, steps, MoveMaker(Append(MAKER_LOCK)));
    ws, steps := Extend(Shop(h), ws, steps, MoveMaker(Confirm(1)));
  }

  lemma FundingIsLegal(h: Hash)
    ensures Enabled(Shop(h), OFFERED, Fund(FUNDING, 1)) && Next(Shop(h), OFFERED, Fund(FUNDING, 1)) == VERIFIED
    ensures Enabled(Shop(h), VERIFIED, MoveOwn(OWN_LOCK)) && Next(Shop(h), VERIFIED, MoveOwn(OWN_LOCK)) == FUNDED
  {
    ShopFacts(h);
    FundingIsAnswered(h);
  }

  lemma TakerFunds(h: Hash) returns (ws: seq<World>, steps: seq<Event>)
    ensures Run(Shop(h), ws, steps) && ws[|ws| - 1] == FUNDED
  {
    ws, steps := MakerOffers(h);
    FundingIsLegal(h);
    ws, steps := Extend(Shop(h), ws, steps, Fund(FUNDING, 1));
    ws, steps := Extend(Shop(h), ws, steps, MoveOwn(OWN_LOCK));
  }

  lemma ClaimIsLegal(secret: Secret)
    ensures var e, to := Shop(secret + 1), OWN_LOCK.(status := Claimed, preimage := secret);
            Enabled(e, FUNDED, MoveOwn(to)) && Next(e, FUNDED, MoveOwn(to)) == Taken(secret)
    ensures OwnClaimed(Shop(secret + 1), Taken(secret))
    ensures Taken(secret).now < MakerDeadline(Taken(secret)) - Shop(secret + 1).Margin()
  {
    ShopFacts(secret + 1);
  }

  lemma EscrowTaken(secret: Secret) returns (ws: seq<World>, steps: seq<Event>)
    ensures Run(Shop(secret + 1), ws, steps) && ws[|ws| - 1] == Taken(secret)
  {
    ws, steps := TakerFunds(secret + 1);
    ClaimIsLegal(secret);
    ws, steps := Extend(Shop(secret + 1), ws, steps, MoveOwn(OWN_LOCK.(status := Claimed, preimage := secret)));
  }

  /** A maker whose secret is the zero word can claim the funded escrow, well
      inside the taker's claim window. */
  lemma ZeroSecretIsReachable() returns (ws: seq<World>, steps: seq<Event>)
    ensures Run(Shop(1), ws, steps) && ws[|ws| - 1].own.preimage == 0 && OwnClaimed(Shop(1), ws[|ws| - 1])
    ensures ws[|ws| - 1].now < MakerDeadline(ws[|ws| - 1]) - Shop(1).Margin()
  {
    ws, steps := EscrowTaken(0);
    ClaimIsLegal(0);
  }

  // ---- a payout claimed for the taker, in the head block only ----

  const PAYOUT := MAKER_LOCK.(status := Claimed, preimage := 7)
  const SPONSORED := Taken(7).(maker := Chain([NO_SWAP, MAKER_LOCK, PAYOUT], 1))
  const FINISHING := FUNDING.(iState := Some(PAYOUT), rState := Some(OWN_LOCK.(status := Claimed, preimage := 7)))

  lemma SponsoredClaimIsLegal()
    ensures var claim := MoveMaker(Append(PAYOUT));
            Enabled(Shop(8), Taken(7), claim) && Next(Shop(8), Taken(7), claim) == SPONSORED
    ensures Enabled(Shop(8), SPONSORED, GiveUp(FINISHING))
    ensures Next(Shop(8), SPONSORED, GiveUp(FINISHING)) == SPONSORED.(retired := true)
  {
    FundingIsAnswered(8);
    assert Taken(7).maker.hist + [PAYOUT] == SPONSORED.maker.hist;
    assert SPONSORED.maker.Head() == PAYOUT;
    assert DecideTaker(FINISHING).decision == Finish;
  }

  lemma GivenUp() returns (ws: seq<World>, steps: seq<Event>)
    ensures Run(Shop(8), ws, steps) && |steps| > 0
    ensures ws[|ws| - 1] == SPONSORED.(retired := true) && ws[|ws| - 2] == SPONSORED
    ensures steps[|steps| - 1] == GiveUp(FINISHING)
  {
    ws, steps := EscrowTaken(7);
    SponsoredClaimIsLegal();
    ws, steps := Extend(Shop(8), ws, steps, MoveMaker(Append(PAYOUT)));
    ws, steps := Extend(Shop(8), ws, steps, GiveUp(FINISHING));
  }

  lemma SponsoredFacts()
    ensures SPONSORED.now < MakerDeadline(SPONSORED) - Shop(8).Margin()
    ensures SPONSORED.maker.Deep().status == Open
    ensures OwnEscrow(Shop(8), SPONSORED.own) && SPONSORED.own.status == Claimed
  {
    ShopFacts(8);
  }

  /** The maker's sponsored claim is in the head block, well inside the taker's window;
      the taker's tick answers finish and gives the record up. The block is reorganised
      away, and at the deadline the maker refunds: the taker has paid for nothing. */
  lemma HeadOnlyFinishLosesBoth() returns (ws: seq<World>, steps: seq<Event>, n: nat)
    ensures Run(Shop(8), ws, steps) && n < |steps| && ws[n] == SPONSORED && steps[n] == GiveUp(FINISHING)
    ensures ws[n].now < MakerDeadline(ws[n]) - Shop(8).Margin()
    ensures var w := ws[|ws| - 1]; OwnClaimed(Shop(8), w) && w.maker.Ok() && w.maker.Head().status == Refunded
  {
    var before, first := GivenUp();
    n := |first| - 1;
    SponsoredFacts();
    RunKeeps(Shop(8), before, first, |before| - 1);
    var after, more := RefundAfterReorg(Shop(8), before[|before| - 1]);
    ws, steps := Join(Shop(8), before, first, after, more);
  }

  lemma Join(e: Setup, ws: seq<World>, steps: seq<Event>, vs: seq<World>, more: seq<Event>)
    returns (us: seq<World>, es: seq<Event>)
    requires Run(e, ws, steps) && Path(e, vs, more) && vs[0] == ws[|ws| - 1]
    ensures Run(e, us, es) && us == ws + vs[1..] && es == steps + more
  {
    us, es := ws + vs[1..], steps + more;
    forall n | 0 <= n < |es| ensures Follows(e, us[n], es[n], us[n + 1]) {
      if n < |steps| {
        assert Follows(e, ws[n], steps[n], ws[n + 1]);
      } else {
        assert Follows(e, vs[n - |steps|], more[n - |steps|], vs[n - |steps| + 1]);
      }
    }
  }
}
