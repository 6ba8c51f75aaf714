/**
 * The conservation tracker of the contract's test suite: it re-derives the invariant
 * from what the contract shows, in loops over the swaps it has seen and over the
 * accounts those swaps name. That this covers the whole credit ledger is a property
 * of the contract.
 */
module Tracker {
  import opened Common
  import opened Leg
  import opened Htlc

  /** `account` is a party of some swap: its initiator, or its assigned recipient. */
  predicate Party(c: Contract, h: Hash, account: Address) {
    var s := c.SwapOf(h);
    s.status != NoSwap && (s.initiator == account || (s.recipient == account && account != 0))
  }

  /** Credits only ever accrue to parties of swaps. */
  ghost predicate CreditsHaveParties(c: Contract) {
    forall k :: k in c.credits ==> exists h :: Party(c, h, k.1)
  }

  lemma PartiesStay(i: Instance, c: Contract, call: Call, h: Hash, account: Address)
    requires Party(c, h, account)
    ensures Party(Next(i, c, call), h, account)
  {
    NextIsLegStep(i, c, call, h);
  }

  /** A transaction adds at most one ledger key, and that key names a party. */
  lemma NewKeyHasParty(i: Instance, c: Contract, call: Call, k: (Address, Address))
    requires k in Next(i, c, call).credits && k !in c.credits
    ensures exists h :: Party(Next(i, c, call), h, k.1)
  {
    var d := Next(i, c, call);
    match call.op
    case Release(h) => assert Party(d, h, k.1);
    case Claim(h, p) => assert Party(d, h, k.1);
    case Refund(h) => assert Party(d, h, k.1);
    case _ =>
  }

  lemma {:induction false} RunKeepsParties(i: Instance, calls: seq<Call>)
    ensures CreditsHaveParties(Run(i, EMPTY, calls))
  {
    if calls != [] {
      var front := calls[..|calls| - 1];
      RunKeepsParties(i, front);
      var c, call := Run(i, EMPTY, front), calls[|calls| - 1];
      forall k | k in Next(i, c, call).credits ensures exists h :: Party(Next(i, c, call), h, k.1) {
        if k in c.credits {
          var h :| Party(c, h, k.1);
          PartiesStay(i, c, call, h, k.1);
        } else {
          NewKeyHasParty(i, c, call, k);
        }
      }
    }
  }

  // ---- the check ----

  ghost function ByKey(credits: map<(Address, Address), nat>, t: Address): ((Address, Address)) -> nat {
    k => CreditAmount(credits, t, k)
  }

  ghost function ByAccount(credits: map<(Address, Address), nat>, keys: set<(Address, Address)>, t: Address)
    : Address -> nat
  {
    a => if (t, a) in keys then CreditAmount(credits, t, (t, a)) else 0
  }

  /** The ledger of one token, summed by account instead of by key. */
  lemma {:induction false} SumByAccount(credits: map<(Address, Address), nat>, keys: set<(Address, Address)>,
                                        accounts: set<Address>, t: Address)
    requires keys <= credits.Keys && (forall k :: k in keys ==> k.1 in accounts)
    ensures Sum(keys, ByKey(credits, t)) == Sum(accounts, ByAccount(credits, keys, t))
    decreases keys
  {
    if keys == {} {
      AllZero(accounts, ByAccount(credits, keys, t));
    } else {
      var k :| k in keys;
      SumTake(keys, k, ByKey(credits, t));
      SumByAccount(credits, keys - {k}, accounts, t);
      OneKeyMore(credits, keys, k, accounts, t);
    }
  }

  lemma OneKeyMore(credits: map<(Address, Address), nat>, keys: set<(Address, Address)>, k: (Address, Address),
                   accounts: set<Address>, t: Address)
    requires k in keys && k in credits && k.1 in accounts
    ensures Sum(accounts, ByAccount(credits, keys, t))
         == Sum(accounts, ByAccount(credits, keys - {k}, t)) + CreditAmount(credits, t, k)
  {
    var f, g := ByAccount(credits, keys - {k}, t), ByAccount(credits, keys, t);
    assert accounts == accounts + {k.1};
    if k.0 == t {
      assert k == (t, k.1) && f(k.1) == 0 && g(k.1) == CreditAmount(credits, t, k);
    }
    forall a | a in accounts && a != k.1 ensures f(a) == g(a) {
      assert (t, a) != k;
    }
    SumUpdate(accounts, k.1, accounts, f, g);
  }

  lemma {:induction false} AllZero<K(!new)>(ks: set<K>, f: K -> nat)
    requires forall k :: k in ks ==> f(k) == 0
    ensures Sum(ks, f) == 0
    decreases ks
  {
    if ks != {} {
      var k :| k in ks;
      SumTake(ks, k, f);
      AllZero(ks - {k}, f);
    }
  }

  /** The first loop: open amounts of one token, and every account a swap names. */
  method CollectSwaps(c: Contract, tracked: set<Hash>, token: Address) returns (open: nat, accounts: set<Address>)
    requires tracked == c.swaps.Keys
    ensures open == OpenSum(c.swaps, token)
    ensures forall h, a :: Party(c, h, a) ==> a in accounts
  {
    open, accounts := 0, {};
    var left := tracked;
    while left != {}
      invariant left <= tracked
      invariant open + Sum(left, h => OpenAmount(c.swaps, token, h)) == OpenSum(c.swaps, token)
      invariant forall h, a :: h !in left && Party(c, h, a) ==> a in accounts
      decreases |left|
    {
      var h :| h in left;
      SumTake(left, h, g => OpenAmount(c.swaps, token, g));
      var s := c.swaps[h];
      accounts := accounts + {s.initiator};
      if s.recipient != 0 { accounts := accounts + {s.recipient}; }
      if s.status == Open && s.token == token { open := open + s.amount; }
      left := left - {h};
    }
  }

  lemma LedgerByAccount(c: Contract, accounts: set<Address>, token: Address)
    requires forall k :: k in c.credits ==> k.1 in accounts
    ensures Sum(accounts, ByAccount(c.credits, c.credits.Keys, token)) == CreditSum(c.credits, token)
  {
    SumByAccount(c.credits, c.credits.Keys, accounts, token);
    SumSame(c.credits.Keys, ByKey(c.credits, token), k => CreditAmount(c.credits, token, k));
  }

  /** The second loop: the token's credit over those accounts. */
  method SumCredits(c: Contract, accounts: set<Address>, token: Address) returns (total: nat)
    requires forall k :: k in c.credits ==> k.1 in accounts
    ensures total == CreditSum(c.credits, token)
  {
    total := 0;
    var left := accounts;
    ghost var f := ByAccount(c.credits, c.credits.Keys, token);
    while left != {}
      invariant left <= accounts && total + Sum(left, f) == Sum(accounts, f)
      decreases |left|
    {
      var a :| a in left;
      SumTake(left, a, f);
      assert f(a) == c.CreditOf(token, a);
      total := total + c.CreditOf(token, a);
      left := left - {a};
    }
    LedgerByAccount(c, accounts, token);
  }

  /** After any transactions at all, the tracker that followed every lock finds the
      balance equal to open escrow plus credit, and the ledger equal to its total. */
  method Check(i: Instance, calls: seq<Call>, token: Address) returns (open: nat, perAccount: nat)
    ensures var c := Run(i, EMPTY, calls);
      && c.Held(token) == open + c.Outstanding(token)
      && perAccount == c.Outstanding(token)
  {
    var c := Run(i, EMPTY, calls);
    RunConserves(i, calls);
    RunKeepsParties(i, calls);
    var accounts;
    open, accounts := CollectSwaps(c, c.swaps.Keys, token);
    perAccount := SumCredits(c, accounts, token);
  }
}
