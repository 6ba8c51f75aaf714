/**
 * HTLCv3: one contract instance holding many swaps. A settlement writes its
 * terminal state first and only then tries to pay; a payout that does not go
 * through becomes a credit. Whether a delivery goes through (`pays`), and how
 * much a token pull really moved (`pulled`), are chosen by the environment.
 */
module Htlc {
  import opened Common
  import opened Leg

  const MAX_AMOUNT: nat := 0xFFFF_FFFF_FFFF_FFFF_FFFF_FFFF_FFFF_FFFF

  datatype Error =
    | HashlockAlreadyUsed | InvalidParams | SwapNotOpen | WrongPreimage | TimeoutNotReached
    | TimeoutPassed | TransferFailed | UnsupportedToken | NotInitiator | AlreadyAssigned
    | NotAssigned | NoCredit | InsufficientCredit

  /** PayoutCredited(token, account, hashlock, amount) */
  datatype Credited = Credited(token: Address, account: Address, hashlock: Hash, amount: nat)

  datatype Contract = Contract(
    swaps: map<Hash, LegState>,
    credits: map<(Address, Address), nat>,
    outstanding: map<Address, nat>,
    held: map<Address, nat>,
    log: seq<Credited>)
  {
    function SwapOf(h: Hash): LegState { if h in swaps then swaps[h] else NO_SWAP }
    function CreditOf(t: Address, a: Address): nat { if (t, a) in credits then credits[(t, a)] else 0 }
    function Outstanding(t: Address): nat { if t in outstanding then outstanding[t] else 0 }
    function Held(t: Address): nat { if t in held then held[t] else 0 }
  }

  const EMPTY := Contract(map[], map[], map[], map[], [])

  datatype Op =
    | Lock(hashlock: Hash, recipient: Address, token: Address, amount: nat, timeout: int,
           open: bool, hasCode: bool, pulled: Option<int>)
    | Assign(hashlock: Hash, recipient: Address)
    | Release(hashlock: Hash)
    | Claim(hashlock: Hash, preimage: Secret)
    | Refund(hashlock: Hash)
    | Withdraw(token: Address, to: Address, amount: nat)
    | WithdrawAll(token: Address, to: Address)
    | PushCredit(token: Address, account: Address)

  /** One transaction. `pays` says whether the payout it attempts goes through. */
  datatype Call = Call(sender: Address, now: int, op: Op, pays: bool)

  datatype Outcome = Done(contract: Contract) | Revert(error: Error)

  /** What is fixed at deployment: the contract's own address and SHA-256. */
  datatype Instance = Instance(self: Address, hash: Secret -> Hash)

  // ---- the transactions ----

  function LockError(i: Instance, c: Contract, now: int, op: Op): Option<Error>
    requires op.Lock?
  {
    if op.token != 0 && !op.hasCode then Some(InvalidParams)
    else if c.SwapOf(op.hashlock).status != NoSwap then Some(HashlockAlreadyUsed)
    else if op.hashlock == 0 || op.amount == 0 || op.amount > MAX_AMOUNT then Some(InvalidParams)
    else if !op.open && (op.recipient == 0 || op.recipient == i.self) then Some(InvalidParams)
    else if op.open && op.recipient != 0 then Some(InvalidParams)
    else if op.timeout <= now then Some(InvalidParams)
    else if op.token != 0 && op.pulled.None? then Some(TransferFailed)
    else if op.token != 0 && op.pulled != Some(op.amount) then Some(UnsupportedToken)
    else None
  }

  function Locked(c: Contract, sender: Address, op: Op): Contract
    requires op.Lock?
  {
    c.(swaps := c.swaps[op.hashlock :=
         LegState(Open, sender, op.recipient, op.token, op.amount, op.timeout, 0)],
       held := c.held[op.token := c.Held(op.token) + op.amount])
  }

  /** Pay `payee`, or credit it when the attempt does not go through. */
  function Settled(c: Contract, h: Hash, token: Address, payee: Address, amount: nat, pays: bool): Contract {
    if pays && amount <= c.Held(token) then
      c.(held := c.held[token := c.Held(token) - amount])
    else
      c.(credits := c.credits[(token, payee) := c.CreditOf(token, payee) + amount],
         outstanding := c.outstanding[token := c.Outstanding(token) + amount],
         log := c.log + [Credited(token, payee, h, amount)])
  }

  /** Take `amount` out of an account's credit and pay it out strictly. */
  function Spent(c: Contract, token: Address, account: Address, amount: nat, pays: bool): Outcome {
    if pays && amount <= c.CreditOf(token, account) && amount <= c.Outstanding(token)
       && amount <= c.Held(token)
    then
      Done(c.(credits := c.credits[(token, account) := c.CreditOf(token, account) - amount],
              outstanding := c.outstanding[token := c.Outstanding(token) - amount],
              held := c.held[token := c.Held(token) - amount]))
    else
      Revert(TransferFailed)
  }

  function WithdrawOp(i: Instance, c: Contract, sender: Address, token: Address, to: Address,
                      amount: nat, pays: bool): Outcome
  {
    if to == 0 || to == i.self then Revert(InvalidParams)
    else if amount == 0 then Revert(NoCredit)
    else if c.CreditOf(token, sender) < amount then Revert(InsufficientCredit)
    else Spent(c, token, sender, amount, pays)
  }

  function LockOp(i: Instance, c: Contract, sender: Address, now: int, op: Op): Outcome
    requires op.Lock?
  {
    var error := LockError(i, c, now, op);
    if error.Some? then Revert(error.value) else Done(Locked(c, sender, op))
  }

  function AssignOp(i: Instance, c: Contract, sender: Address, now: int, h: Hash, recipient: Address): Outcome {
    var s := c.SwapOf(h);
    if s.status != Open then Revert(SwapNotOpen)
    else if sender != s.initiator then Revert(NotInitiator)
    else if s.recipient != 0 then Revert(AlreadyAssigned)
    else if recipient == 0 || recipient == i.self then Revert(InvalidParams)
    else if now >= s.timeout then Revert(TimeoutPassed)
    else Done(c.(swaps := c.swaps[h := s.(recipient := recipient)]))
  }

  function ReleaseOp(c: Contract, sender: Address, h: Hash, pays: bool): Outcome {
    var s := c.SwapOf(h);
    if s.status != Open then Revert(SwapNotOpen)
    else if sender != s.initiator then Revert(NotInitiator)
    else if s.recipient != 0 then Revert(AlreadyAssigned)
    else Done(Settled(c.(swaps := c.swaps[h := s.(status := Refunded)]),
                      h, s.token, s.initiator, s.amount, pays))
  }

  function ClaimOp(i: Instance, c: Contract, now: int, h: Hash, preimage: Secret, pays: bool): Outcome {
    var s := c.SwapOf(h);
    if s.status != Open then Revert(SwapNotOpen)
    else if s.recipient == 0 then Revert(NotAssigned)
    else if now >= s.timeout then Revert(TimeoutPassed)
    else if i.hash(preimage) != h then Revert(WrongPreimage)
    else Done(Settled(c.(swaps := c.swaps[h := s.(status := Claimed, preimage := preimage)]),
                      h, s.token, s.recipient, s.amount, pays))
  }

  function RefundOp(c: Contract, now: int, h: Hash, pays: bool): Outcome {
    var s := c.SwapOf(h);
    if s.status != Open then Revert(SwapNotOpen)
    else if now < s.timeout then Revert(TimeoutNotReached)
    else Done(Settled(c.(swaps := c.swaps[h := s.(status := Refunded)]),
                      h, s.token, s.initiator, s.amount, pays))
  }

  function PushOp(c: Contract, token: Address, account: Address, pays: bool): Outcome {
    if c.CreditOf(token, account) == 0 then Revert(NoCredit)
    else Spent(c, token, account, c.CreditOf(token, account), pays)
  }

  function Execute(i: Instance, c: Contract, call: Call): Outcome {
    match call.op
    case Lock(_, _, _, _, _, _, _, _) => LockOp(i, c, call.sender, call.now, call.op)
    case Assign(h, recipient) => AssignOp(i, c, call.sender, call.now, h, recipient)
    case Release(h) => ReleaseOp(c, call.sender, h, call.pays)
    case Claim(h, preimage) => ClaimOp(i, c, call.now, h, preimage, call.pays)
    case Refund(h) => RefundOp(c, call.now, h, call.pays)
    case Withdraw(token, to, amount) => WithdrawOp(i, c, call.sender, token, to, amount, call.pays)
    case WithdrawAll(token, to) =>
      WithdrawOp(i, c, call.sender, token, to, c.CreditOf(token, call.sender), call.pays)
    case PushCredit(token, account) => PushOp(c, token, account, call.pays)
  }

  /** A reverted transaction leaves the contract as it was. */
  function After(c: Contract, o: Outcome): Contract { if o.Done? then o.contract else c }

  function Next(i: Instance, c: Contract, call: Call): Contract { After(c, Execute(i, c, call)) }

  function Run(i: Instance, c: Contract, calls: seq<Call>): Contract {
    if calls == [] then c
    else Next(i, Run(i, c, calls[..|calls| - 1]), calls[|calls| - 1])
  }

  // ---- value conservation ----

  function OpenAmount(swaps: map<Hash, LegState>, t: Address, h: Hash): nat {
    if h in swaps && swaps[h].status == Open && swaps[h].token == t then swaps[h].amount else 0
  }

  ghost function OpenSum(swaps: map<Hash, LegState>, t: Address): nat {
    Sum(swaps.Keys, h => OpenAmount(swaps, t, h))
  }

  function CreditAmount(credits: map<(Address, Address), nat>, t: Address, k: (Address, Address)): nat {
    if k in credits && k.0 == t then credits[k] else 0
  }

  ghost function CreditSum(credits: map<(Address, Address), nat>, t: Address): nat {
    Sum(credits.Keys, k => CreditAmount(credits, t, k))
  }

  /** The balance is exactly the open escrow plus the credits, and the running
      credit total is exactly the per-account ledger. */
  ghost predicate Conserved(c: Contract) {
    && (forall t :: c.Held(t) == OpenSum(c.swaps, t) + c.Outstanding(t))
    && (forall t :: c.Outstanding(t) == CreditSum(c.credits, t))
  }

  /** The log bounds the ledger, so its checked additions cannot overflow 2^256
      before 2^128 settlements have been credited. */
  ghost predicate Capped(c: Contract) {
    && (forall h :: h in c.swaps ==> c.swaps[h].amount <= MAX_AMOUNT)
    && (forall t :: c.Outstanding(t) <= |c.log| * MAX_AMOUNT)
  }

  lemma OpenSumUpdate(swaps: map<Hash, LegState>, h: Hash, s: LegState, t: Address)
    ensures OpenSum(swaps[h := s], t) + OpenAmount(swaps, t, h)
         == OpenSum(swaps, t) + OpenAmount(swaps[h := s], t, h)
  {
    SumUpdate(swaps.Keys, h, swaps[h := s].Keys,
              (j: Hash) => OpenAmount(swaps, t, j), (j: Hash) => OpenAmount(swaps[h := s], t, j));
  }

  lemma CreditSumUpdate(credits: map<(Address, Address), nat>, k: (Address, Address), v: nat, t: Address)
    ensures CreditSum(credits[k := v], t) + CreditAmount(credits, t, k)
         == CreditSum(credits, t) + CreditAmount(credits[k := v], t, k)
  {
    SumUpdate(credits.Keys, k, credits[k := v].Keys,
              (j: (Address, Address)) => CreditAmount(credits, t, j),
              (j: (Address, Address)) => CreditAmount(credits[k := v], t, j));
  }

  /** A credit never exceeds the total, nor an open escrow the open sum. */
  lemma Backed(c: Contract, t: Address, a: Address, h: Hash)
    requires Conserved(c)
    ensures c.CreditOf(t, a) <= c.Outstanding(t) <= c.Held(t)
    ensures OpenAmount(c.swaps, t, h) + c.Outstanding(t) <= c.Held(t)
  {
    if (t, a) in c.credits {
      SumBounds(c.credits.Keys, (t, a), k => CreditAmount(c.credits, t, k));
    }
    if h in c.swaps {
      SumBounds(c.swaps.Keys, h, j => OpenAmount(c.swaps, t, j));
    }
  }

  lemma LockConserves(i: Instance, c: Contract, sender: Address, now: int, op: Op)
    requires op.Lock? && Conserved(c)
    ensures Conserved(After(c, LockOp(i, c, sender, now, op)))
  {
    var o := LockOp(i, c, sender, now, op);
    if o.Done? {
      var d := o.contract;
      forall t ensures d.Held(t) == OpenSum(d.swaps, t) + d.Outstanding(t) {
        OpenSumUpdate(c.swaps, op.hashlock, d.swaps[op.hashlock], t);
        assert c.Held(t) == OpenSum(c.swaps, t) + c.Outstanding(t);
      }
      forall t ensures d.Outstanding(t) == CreditSum(d.credits, t) {
        assert c.Outstanding(t) == CreditSum(c.credits, t);
      }
    }
  }

  lemma AssignConserves(i: Instance, c: Contract, sender: Address, now: int, h: Hash, recipient: Address)
    requires Conserved(c)
    ensures Conserved(After(c, AssignOp(i, c, sender, now, h, recipient)))
  {
    var o := AssignOp(i, c, sender, now, h, recipient);
    if o.Done? {
      var d := o.contract;
      forall t ensures d.Held(t) == OpenSum(d.swaps, t) + d.Outstanding(t) {
        OpenSumUpdate(c.swaps, h, d.swaps[h], t);
        assert c.Held(t) == OpenSum(c.swaps, t) + c.Outstanding(t);
      }
      forall t ensures d.Outstanding(t) == CreditSum(d.credits, t) {
        assert c.Outstanding(t) == CreditSum(c.credits, t);
      }
    }
  }

  lemma SettleConserves(c: Contract, h: Hash, s': LegState, payee: Address, pays: bool)
    requires h in c.swaps && c.swaps[h].status == Open && Terminal(s') && Conserved(c)
    ensures Conserved(Settled(c.(swaps := c.swaps[h := s']), h, c.swaps[h].token, payee, c.swaps[h].amount, pays))
  {
    var s := c.swaps[h];
    var b := c.(swaps := c.swaps[h := s']);
    var d := Settled(b, h, s.token, payee, s.amount, pays);
    forall t ensures d.Held(t) == OpenSum(d.swaps, t) + d.Outstanding(t) {
      OpenSumUpdate(c.swaps, h, s', t);
      assert c.Held(t) == OpenSum(c.swaps, t) + c.Outstanding(t);
    }
    forall t ensures d.Outstanding(t) == CreditSum(d.credits, t) {
      assert c.Outstanding(t) == CreditSum(c.credits, t);
      CreditSumUpdate(c.credits, (s.token, payee), c.CreditOf(s.token, payee) + s.amount, t);
    }
  }

  lemma SpendConserves(c: Contract, token: Address, account: Address, amount: nat, pays: bool)
    requires Conserved(c)
    ensures Conserved(After(c, Spent(c, token, account, amount, pays)))
  {
    var o := Spent(c, token, account, amount, pays);
    if o.Done? {
      var d := o.contract;
      forall t ensures d.Held(t) == OpenSum(d.swaps, t) + d.Outstanding(t) {
        assert c.Held(t) == OpenSum(c.swaps, t) + c.Outstanding(t);
      }
      forall t ensures d.Outstanding(t) == CreditSum(d.credits, t) {
        assert c.Outstanding(t) == CreditSum(c.credits, t);
        CreditSumUpdate(c.credits, (token, account), c.CreditOf(token, account) - amount, t);
      }
    }
  }

  lemma NextConserves(i: Instance, c: Contract, call: Call)
    requires Conserved(c)
    ensures Conserved(Next(i, c, call))
  {
    match call.op
    case Lock(_, _, _, _, _, _, _, _) => LockConserves(i, c, call.sender, call.now, call.op);
    case Assign(h, r) => AssignConserves(i, c, call.sender, call.now, h, r);
    case Release(h) =>
      if ReleaseOp(c, call.sender, h, call.pays).Done? {
        SettleConserves(c, h, c.swaps[h].(status := Refunded), c.swaps[h].initiator, call.pays);
      }
    case Claim(h, p) =>
      if ClaimOp(i, c, call.now, h, p, call.pays).Done? {
        SettleConserves(c, h, c.swaps[h].(status := Claimed, preimage := p), c.swaps[h].recipient, call.pays);
      }
    case Refund(h) =>
      if RefundOp(c, call.now, h, call.pays).Done? {
        SettleConserves(c, h, c.swaps[h].(status := Refunded), c.swaps[h].initiator, call.pays);
      }
    case Withdraw(token, _, amount) => SpendConserves(c, token, call.sender, amount, call.pays);
    case WithdrawAll(token, _) =>
      SpendConserves(c, token, call.sender, c.CreditOf(token, call.sender), call.pays);
    case PushCredit(token, account) =>
      SpendConserves(c, token, account, c.CreditOf(token, account), call.pays);
  }

  lemma SettleCapped(c: Contract, h: Hash, s': LegState, payee: Address, pays: bool)
    requires h in c.swaps && s'.amount == c.swaps[h].amount && Capped(c)
    ensures Capped(Settled(c.(swaps := c.swaps[h := s']), h, c.swaps[h].token, payee, c.swaps[h].amount, pays))
  {
    var d := Settled(c.(swaps := c.swaps[h := s']), h, c.swaps[h].token, payee, c.swaps[h].amount, pays);
    forall t ensures d.Outstanding(t) <= |d.log| * MAX_AMOUNT {
      assert c.Outstanding(t) <= |c.log| * MAX_AMOUNT;
      assert (|c.log| + 1) * MAX_AMOUNT == |c.log| * MAX_AMOUNT + MAX_AMOUNT;
    }
  }

  lemma SpendCapped(c: Contract, token: Address, account: Address, amount: nat, pays: bool)
    requires Capped(c)
    ensures Capped(After(c, Spent(c, token, account, amount, pays)))
  {
    var d := After(c, Spent(c, token, account, amount, pays));
    forall t ensures d.Outstanding(t) <= |d.log| * MAX_AMOUNT {
      assert d.log == c.log && d.Outstanding(t) <= c.Outstanding(t) <= |c.log| * MAX_AMOUNT;
    }
  }

  lemma LockCapped(i: Instance, c: Contract, sender: Address, now: int, op: Op)
    requires op.Lock? && Capped(c)
    ensures Capped(After(c, LockOp(i, c, sender, now, op)))
  {
    forall t ensures After(c, LockOp(i, c, sender, now, op)).Outstanding(t) == c.Outstanding(t) { }
  }

  lemma AssignCapped(i: Instance, c: Contract, sender: Address, now: int, h: Hash, recipient: Address)
    requires Capped(c)
    ensures Capped(After(c, AssignOp(i, c, sender, now, h, recipient)))
  {
    forall t ensures After(c, AssignOp(i, c, sender, now, h, recipient)).Outstanding(t) == c.Outstanding(t) { }
  }

  lemma NextCapped(i: Instance, c: Contract, call: Call)
    requires Capped(c)
    ensures Capped(Next(i, c, call))
  {
    match call.op
    case Lock(_, _, _, _, _, _, _, _) => LockCapped(i, c, call.sender, call.now, call.op);
    case Assign(h, r) => AssignCapped(i, c, call.sender, call.now, h, r);
    case Release(h) =>
      if ReleaseOp(c, call.sender, h, call.pays).Done? {
        SettleCapped(c, h, c.swaps[h].(status := Refunded), c.swaps[h].initiator, call.pays);
      }
    case Claim(h, p) =>
      if ClaimOp(i, c, call.now, h, p, call.pays).Done? {
        SettleCapped(c, h, c.swaps[h].(status := Claimed, preimage := p), c.swaps[h].recipient, call.pays);
      }
    case Refund(h) =>
      if RefundOp(c, call.now, h, call.pays).Done? {
        SettleCapped(c, h, c.swaps[h].(status := Refunded), c.swaps[h].initiator, call.pays);
      }
    case Withdraw(token, _, amount) => SpendCapped(c, token, call.sender, amount, call.pays);
    case WithdrawAll(token, _) =>
      SpendCapped(c, token, call.sender, c.CreditOf(token, call.sender), call.pays);
    case PushCredit(token, account) =>
      SpendCapped(c, token, account, c.CreditOf(token, account), call.pays);
  }

  lemma EmptyConserved()
    ensures Conserved(EMPTY) && Capped(EMPTY)
  {
    forall t ensures OpenSum(EMPTY.swaps, t) == 0 && CreditSum(EMPTY.credits, t) == 0 {
      assert EMPTY.swaps.Keys == {} && EMPTY.credits.Keys == {};
    }
  }

  /** Over every sequence of transactions, with every delivery free to fail. */
  lemma {:induction false} RunConserves(i: Instance, calls: seq<Call>)
    ensures Conserved(Run(i, EMPTY, calls)) && Capped(Run(i, EMPTY, calls))
  {
    if calls == [] {
      EmptyConserved();
    } else {
      RunConserves(i, calls[..|calls| - 1]);
      NextConserves(i, Run(i, EMPTY, calls[..|calls| - 1]), calls[|calls| - 1]);
      NextCapped(i, Run(i, EMPTY, calls[..|calls| - 1]), calls[|calls| - 1]);
    }
  }

  /** In a reachable contract the bookkeeping never blocks a payment. Open escrow is
      covered by the balance; a claim in time with the right preimage, and a refund from
      the timeout on, always settle, whether or not the payout goes through; and a whole
      credit moves exactly when its payee accepts it. */
  lemma PaymentsNeverBlocked(i: Instance, calls: seq<Call>, h: Hash, p: Secret, now: int,
                             t: Address, a: Address, pays: bool)
    ensures var c := Run(i, EMPTY, calls);
      && OpenAmount(c.swaps, t, h) <= c.Held(t)
      && (Claimable(c.SwapOf(h), now) && i.hash(p) == h ==>
            Settles(c, ClaimOp(i, c, now, h, p, pays), h, c.SwapOf(h).recipient, Claimed, pays))
      && (c.SwapOf(h).status == Open && now >= c.SwapOf(h).timeout ==>
            Settles(c, RefundOp(c, now, h, pays), h, c.SwapOf(h).initiator, Refunded, pays))
      && (Spent(c, t, a, c.CreditOf(t, a), pays).Done? <==> pays)
  {
    RunConserves(i, calls);
    var c := Run(i, EMPTY, calls);
    Backed(c, t, a, h);
    SettlesAlways(i, c, h, p, now, pays);
  }

  lemma SettlesAlways(i: Instance, c: Contract, h: Hash, p: Secret, now: int, pays: bool)
    requires Conserved(c)
    ensures Claimable(c.SwapOf(h), now) && i.hash(p) == h ==>
              Settles(c, ClaimOp(i, c, now, h, p, pays), h, c.SwapOf(h).recipient, Claimed, pays)
    ensures c.SwapOf(h).status == Open && now >= c.SwapOf(h).timeout ==>
              Settles(c, RefundOp(c, now, h, pays), h, c.SwapOf(h).initiator, Refunded, pays)
  {
    Backed(c, c.SwapOf(h).token, 0, h);
  }

  /** The swap is over, and its whole amount left the contract or became the payee's. */
  predicate Settles(c: Contract, o: Outcome, h: Hash, payee: Address, status: Status, pays: bool) {
    && o.Done? && o.contract.SwapOf(h).status == status
    && var s, d := c.SwapOf(h), o.contract;
    && d.Held(s.token) == c.Held(s.token) - (if pays then s.amount else 0)
    && d.CreditOf(s.token, payee) == c.CreditOf(s.token, payee) + (if pays then 0 else s.amount)
  }

  // ---- one hashlock's view ----

  /** One hashlock's record moves by a step of `Leg`, or not at all; and only the sender
      can appear as a new initiator. */
  predicate LegMoves(i: Instance, c: Contract, d: Contract, sender: Address, now: int, h: Hash) {
    var s, s' := c.SwapOf(h), d.SwapOf(h);
    s == s' || (Leg.Step(i.hash, h, s, s', now, true) && (s.status == NoSwap ==> s'.initiator == sender))
  }

  lemma LockMovesLeg(i: Instance, c: Contract, sender: Address, now: int, op: Op, h: Hash)
    requires op.Lock?
    ensures LegMoves(i, c, After(c, LockOp(i, c, sender, now, op)), sender, now, h)
  {
  }

  lemma SettlementMovesLeg(i: Instance, c: Contract, call: Call, h: Hash)
    requires call.op.Assign? || call.op.Release? || call.op.Claim? || call.op.Refund?
    ensures LegMoves(i, c, Next(i, c, call), call.sender, call.now, h)
  {
    match call.op
    case Assign(g, r) => assert Execute(i, c, call) == AssignOp(i, c, call.sender, call.now, g, r);
    case Release(g) => assert Execute(i, c, call) == ReleaseOp(c, call.sender, g, call.pays);
    case Claim(g, p) => assert Execute(i, c, call) == ClaimOp(i, c, call.now, g, p, call.pays);
    case Refund(g) => assert Execute(i, c, call) == RefundOp(c, call.now, g, call.pays);
  }

  /** Any transaction moves any one hashlock by a step of `Leg`, or not at all;
      and only a sender can appear as a new initiator. */
  lemma NextIsLegStep(i: Instance, c: Contract, call: Call, h: Hash)
    ensures LegMoves(i, c, Next(i, c, call), call.sender, call.now, h)
  {
    if call.op.Lock? {
      LockMovesLeg(i, c, call.sender, call.now, call.op, h);
    } else if call.op.Withdraw? || call.op.WithdrawAll? || call.op.PushCredit? {
      assert Next(i, c, call).swaps == c.swaps;
    } else {
      SettlementMovesLeg(i, c, call, h);
    }
  }

  /** A settled hashlock never changes again and can never be locked again. */
  lemma {:induction false} TerminalForever(i: Instance, c: Contract, calls: seq<Call>, h: Hash)
    requires Terminal(c.SwapOf(h))
    ensures Run(i, c, calls).SwapOf(h) == c.SwapOf(h)
  {
    if calls != [] {
      TerminalForever(i, c, calls[..|calls| - 1], h);
      NextIsLegStep(i, Run(i, c, calls[..|calls| - 1]), calls[|calls| - 1], h);
    }
  }

  // ---- the deployed object ----

  class Deployed {
    const instance: Instance
    var swaps: map<Hash, LegState>
    var credits: map<(Address, Address), nat>
    var outstanding: map<Address, nat>
    var held: map<Address, nat>
    var log: seq<Credited>

    function View(): Contract reads this { Contract(swaps, credits, outstanding, held, log) }

    ghost predicate Valid() reads this { Conserved(View()) && Capped(View()) }

    constructor (instance: Instance)
      ensures Valid() && View() == EMPTY && this.instance == instance
    {
      this.instance := instance;
      swaps, credits, outstanding, held, log := map[], map[], map[], map[], [];
      new;
      EmptyConserved();
    }

    /** Terminal state is already written; attempt delivery, else credit. */
    method Settle(h: Hash, token: Address, payee: Address, amount: nat, pays: bool)
      modifies this
      ensures View() == Settled(old(View()), h, token, payee, amount, pays)
    {
      var balance := View().Held(token);
      if pays && amount <= balance {
        held := held[token := balance - amount];
        return;
      }
      credits := credits[(token, payee) := View().CreditOf(token, payee) + amount];
      outstanding := outstanding[token := View().Outstanding(token) + amount];
      log := log + [Credited(token, payee, h, amount)];
    }

    method LockSwap(sender: Address, now: int, op: Op) returns (error: Option<Error>)
      requires Valid() && op.Lock?
      modifies this
      ensures Valid() && Tells(error, LockOp(instance, old(View()), sender, now, op), old(View()))
    {
      LockConserves(instance, View(), sender, now, op);
      LockCapped(instance, View(), sender, now, op);
      error := LockError(instance, View(), now, op);
      if error.None? {
        swaps := swaps[op.hashlock := LegState(Open, sender, op.recipient, op.token, op.amount, op.timeout, 0)];
        held := held[op.token := View().Held(op.token) + op.amount];
        assert View() == Locked(old(View()), sender, op);
      }
    }

    method AssignSwap(sender: Address, now: int, h: Hash, recipient: Address) returns (error: Option<Error>)
      requires Valid()
      modifies this
      ensures Valid() && Tells(error, AssignOp(instance, old(View()), sender, now, h, recipient), old(View()))
    {
      AssignConserves(instance, View(), sender, now, h, recipient);
      AssignCapped(instance, View(), sender, now, h, recipient);
      var s := View().SwapOf(h);
      if s.status != Open { return Some(SwapNotOpen); }
      if sender != s.initiator { return Some(NotInitiator); }
      if s.recipient != 0 { return Some(AlreadyAssigned); }
      if recipient == 0 || recipient == instance.self { return Some(InvalidParams); }
      if now >= s.timeout { return Some(TimeoutPassed); }
      swaps := swaps[h := s.(recipient := recipient)];
      error := None;
    }

    method ReleaseSwap(sender: Address, h: Hash, pays: bool) returns (error: Option<Error>)
      requires Valid()
      modifies this
      ensures Valid() && Tells(error, ReleaseOp(old(View()), sender, h, pays), old(View()))
    {
      var s := View().SwapOf(h);
      if s.status != Open { return Some(SwapNotOpen); }
      if sender != s.initiator { return Some(NotInitiator); }
      if s.recipient != 0 { return Some(AlreadyAssigned); }
      SettleConserves(View(), h, s.(status := Refunded), s.initiator, pays);
      SettleCapped(View(), h, s.(status := Refunded), s.initiator, pays);
      swaps := swaps[h := s.(status := Refunded)];
      Settle(h, s.token, s.initiator, s.amount, pays);
      error := None;
    }

    method ClaimSwap(now: int, h: Hash, preimage: Secret, pays: bool) returns (error: Option<Error>)
      requires Valid()
      modifies this
      ensures Valid() && Tells(error, ClaimOp(instance, old(View()), now, h, preimage, pays), old(View()))
    {
      var s := View().SwapOf(h);
      if s.status != Open { return Some(SwapNotOpen); }
      if s.recipient == 0 { return Some(NotAssigned); }
      if now >= s.timeout { return Some(TimeoutPassed); }
      if instance.hash(preimage) != h { return Some(WrongPreimage); }
      SettleConserves(View(), h, s.(status := Claimed, preimage := preimage), s.recipient, pays);
      SettleCapped(View(), h, s.(status := Claimed, preimage := preimage), s.recipient, pays);
      swaps := swaps[h := s.(status := Claimed, preimage := preimage)];
      Settle(h, s.token, s.recipient, s.amount, pays);
      error := None;
    }

    method RefundSwap(now: int, h: Hash, pays: bool) returns (error: Option<Error>)
      requires Valid()
      modifies this
      ensures Valid() && Tells(error, RefundOp(old(View()), now, h, pays), old(View()))
    {
      var s := View().SwapOf(h);
      if s.status != Open { return Some(SwapNotOpen); }
      if now < s.timeout { return Some(TimeoutNotReached); }
      SettleConserves(View(), h, s.(status := Refunded), s.initiator, pays);
      SettleCapped(View(), h, s.(status := Refunded), s.initiator, pays);
      swaps := swaps[h := s.(status := Refunded)];
      Settle(h, s.token, s.initiator, s.amount, pays);
      error := None;
    }

    /** Debit the credit first, then pay strictly; a failed payment undoes both. */
    method Spend(token: Address, account: Address, amount: nat, pays: bool) returns (error: Option<Error>)
      requires Valid() && amount <= View().CreditOf(token, account)
      modifies this
      ensures Valid() && Tells(error, Spent(old(View()), token, account, amount, pays), old(View()))
    {
      SpendConserves(View(), token, account, amount, pays);
      SpendCapped(View(), token, account, amount, pays);
      Backed(View(), token, account, 0);
      if !pays { return Some(TransferFailed); }
      var credit, total, balance := View().CreditOf(token, account), View().Outstanding(token), View().Held(token);
      credits := credits[(token, account) := credit - amount];
      outstanding := outstanding[token := total - amount];
      held := held[token := balance - amount];
      error := None;
      assert View() == Spent(old(View()), token, account, amount, pays).contract;
    }

    /** withdraw, and withdrawAll when `amount` is the sender's whole credit. */
    method WithdrawCredit(sender: Address, token: Address, to: Address, amount: nat, pays: bool)
      returns (error: Option<Error>)
      requires Valid()
      modifies this
      ensures Valid() && Tells(error, WithdrawOp(instance, old(View()), sender, token, to, amount, pays), old(View()))
    {
      if to == 0 || to == instance.self { return Some(InvalidParams); }
      if amount == 0 { return Some(NoCredit); }
      if View().CreditOf(token, sender) < amount { return Some(InsufficientCredit); }
      error := Spend(token, sender, amount, pays);
    }

    method PushAccountCredit(token: Address, account: Address, pays: bool) returns (error: Option<Error>)
      requires Valid()
      modifies this
      ensures Valid() && Tells(error, PushOp(old(View()), token, account, pays), old(View()))
    {
      var amount := View().CreditOf(token, account);
      if amount == 0 { return Some(NoCredit); }
      error := Spend(token, account, amount, pays);
    }

    /** One transaction of any kind. */
    method Transact(call: Call) returns (error: Option<Error>)
      requires Valid()
      modifies this
      ensures Valid() && Tells(error, Execute(instance, old(View()), call), old(View()))
    {
      match call.op {
        case Lock(_, _, _, _, _, _, _, _) => error := LockSwap(call.sender, call.now, call.op);
        case Assign(h, recipient) => error := AssignSwap(call.sender, call.now, h, recipient);
        case Release(h) => error := ReleaseSwap(call.sender, h, call.pays);
        case Claim(h, preimage) => error := ClaimSwap(call.now, h, preimage, call.pays);
        case Refund(h) => error := RefundSwap(call.now, h, call.pays);
        case Withdraw(token, to, amount) => error := WithdrawCredit(call.sender, token, to, amount, call.pays);
        case WithdrawAll(token, to) =>
          error := WithdrawCredit(call.sender, token, to, View().CreditOf(token, call.sender), call.pays);
        case PushCredit(token, account) => error := PushAccountCredit(token, account, call.pays);
      }
    }

    /** Any sequence of transactions, updated in place, is the run of the transition
        functions, so everything proved about runs holds of the object. */
    method Play(calls: seq<Call>)
      requires Valid()
      modifies this
      ensures Valid() && View() == Run(instance, old(View()), calls)
      ensures forall h :: Terminal(old(View()).SwapOf(h)) ==> View().SwapOf(h) == old(View()).SwapOf(h)
    {
      ghost var start := View();
      for n := 0 to |calls|
        invariant Valid() && View() == Run(instance, start, calls[..n])
      {
        assert calls[..n + 1][..n] == calls[..n];
        var error := Transact(calls[n]);
      }
      assert calls[..|calls|] == calls;
      forall h | Terminal(start.SwapOf(h)) ensures View().SwapOf(h) == start.SwapOf(h) {
        TerminalForever(instance, start, calls, h);
      }
    }

    /** The object is where outcome `o` leaves it, and reports exactly its error. */
    ghost predicate Tells(error: Option<Error>, o: Outcome, before: Contract)
      reads this
    {
      View() == After(before, o) && error == (if o.Done? then None else Some(o.error))
    }
  }
}
