/**
 * One hashlock's record as a chain shows it over time. Entries up to `final` have
 * reached confirmation depth and never change again; what lies above may still be
 * reorganised away.
 */
module Chains {
  import opened Leg

  datatype Chain = Chain(hist: seq<LegState>, final: nat)
  {
    predicate Ok() { final < |hist| }

    function Head(): LegState
      requires Ok()
    {
      hist[|hist| - 1]
    }

    function Deep(): LegState
      requires Ok()
    {
      hist[final]
    }
  }

  const UNUSED := Chain([NO_SWAP], 0)

  datatype Move = Append(to: LegState) | Confirm(upTo: nat) | Reorg(keep: nat)

  predicate Allowed(H: Secret -> Hash, h: Hash, c: Chain, m: Move, now: int, known: bool) {
    && c.Ok()
    && match m
       case Append(to) => Step(H, h, c.Head(), to, now, known)
       case Confirm(upTo) => c.final <= upTo < |c.hist|
       case Reorg(keep) => c.final < keep <= |c.hist|
  }

  function Moved(c: Chain, m: Move): Chain
    requires m.Reorg? ==> m.keep <= |c.hist|
  {
    match m
    case Append(to) => c.(hist := c.hist + [to])
    case Confirm(upTo) => c.(final := upTo)
    case Reorg(keep) => c.(hist := c.hist[..keep])
  }

  /** Every entry is a possible later view of every earlier one. */
  predicate Consistent(c: Chain, now: int, revealed: bool) {
    && c.Ok()
    && (forall n, m :: 0 <= n <= m < |c.hist| ==> Later(c.hist[n], c.hist[m], now, revealed))
  }

  lemma MoveKeeps(H: Secret -> Hash, h: Hash, c: Chain, m: Move, now: int, known: bool)
    requires Consistent(c, now, known) && Allowed(H, h, c, m, now, known)
    ensures Consistent(Moved(c, m), now, known)
  {
    var d := Moved(c, m);
    forall i, j | 0 <= i <= j < |d.hist| ensures Later(d.hist[i], d.hist[j], now, known) {
      if m.Append? && j == |c.hist| {
        if i < j { LaterThenStep(H, h, c.hist[i], c.Head(), m.to, now, known); }
      } else {
        assert Later(c.hist[i], c.hist[j], now, known);
      }
    }
  }

  lemma TimeKeeps(c: Chain, now: int, known: bool, now': int, known': bool)
    requires Consistent(c, now, known) && now <= now' && (known ==> known')
    ensures Consistent(c, now', known')
  {
    forall i, j | 0 <= i <= j < |c.hist| ensures Later(c.hist[i], c.hist[j], now', known') {
      assert Later(c.hist[i], c.hist[j], now, known);
    }
  }

  /** What was confirmed in `c` is confirmed in `d`, unchanged. */
  predicate Grows(c: Chain, d: Chain) {
    && c.final <= d.final < |d.hist|
    && (forall k :: 0 <= k <= c.final && k < |c.hist| ==> d.hist[k] == c.hist[k])
  }

  lemma GrowsTrans(b: Chain, c: Chain, d: Chain)
    requires Grows(b, c) && Grows(c, d)
    ensures Grows(b, d)
  {
  }

  /** The views at depth and at head, each later than any confirmed entry. */
  lemma Views(c: Chain, k: nat, now: int, revealed: bool)
    requires Consistent(c, now, revealed) && k <= c.final
    ensures Later(c.hist[k], c.Deep(), now, revealed) && Later(c.hist[k], c.Head(), now, revealed)
    ensures Later(c.Deep(), c.Head(), now, revealed)
  {
  }
}
