/** A concrete run that shows where the maker's guarantee stops. */
module MakerTraces {
  import opened Common
  import opened Leg
  import opened Orders
  import opened Chains
  import opened MakerRun
  import MakerPolicy

  /** Secret 7 hashes to 8; a one-hour responder window and a 600 s margin. */
  const SETUP := Setup((s: Secret) => s + 1, 8, true, 1, 2, 0, 100, 0, 500, 600, 7200, 3600)

  const INTENT := Intent(30, 20, 3, 4, 5, 0, 900, 0)
  const FILL := Fill(20, 30, 3, 4, 5, 8, 7200, 3600, 0, 300, 6)
  const LISTING :=
    Managed(1, 1, Some(Protocol(20, 0, 3000, None, false, false, None, None, None)), true, None, None, None, None,
            None, None, None, None, None, None, None, None, None, 0, 0, None, None)
  const START := World(0, Some(LISTING), UNUSED, None, UNUSED, false, None, {}, {}, false, false)

  const OUR_LOCK := LegState(Open, 1, 3, 0, 100, 7200, 0)
  const TAKER_LOCK := LegState(Open, 4, 2, 0, 500, 3600, 0)

  const SELECTED := Selected(SETUP, LISTING, 7, INTENT, 0)
  const SIGNED := SELECTED.(protocol := Some(SELECTED.protocol.value.(fillProof := Some(FILL))))
  const ACKNOWLEDGED := SIGNED.(protocol := Some(SIGNED.protocol.value.(fillAcknowledged := true)))
  const MARKED := ACKNOWLEDGED.(lockSentAt := Some(0))

  lemma FillPublished() returns (ws: seq<World>, steps: seq<Event>)
    ensures Run(SETUP, ws, steps)
    ensures ws[|ws| - 1] == START.(disk := Some(SIGNED), published := {FillArtifact(FILL)})
  {
    ws, steps := [START], [];
    ws, steps := Extend(SETUP, ws, steps, Select(7, INTENT, 0));
    ws, steps := Extend(SETUP, ws, steps, SignFill(FILL));
    ws, steps := Extend(SETUP, ws, steps, PublishFill);
  }

  lemma LockSent() returns (ws: seq<World>, steps: seq<Event>)
    ensures Run(SETUP, ws, steps)
    ensures ws[|ws| - 1] == START.(disk := Some(MARKED), published := {FillArtifact(FILL)}, acked := {FILL},
                                   lockPending := Some(OUR_LOCK))
  {
    ws, steps := FillPublished();
    ws, steps := Extend(SETUP, ws, steps, Acknowledge(FILL));
    ws, steps := Extend(SETUP, ws, steps, Observe(false));
    ws, steps := Extend(SETUP, ws, steps, MarkLock(0));
    ws, steps := Extend(SETUP, ws, steps, SendLock);
  }

  const BOTH_LOCKED :=
    World(0, Some(MARKED), Chain([NO_SWAP, OUR_LOCK], 1), Some(OUR_LOCK), Chain([NO_SWAP, TAKER_LOCK], 1), false, None,
          {FillArtifact(FILL)}, {FILL}, false, false)

  /** Fill acknowledged, our leg locked and confirmed, theirs as well. */
  lemma BothLegsLocked() returns (ws: seq<World>, steps: seq<Event>)
    ensures Run(SETUP, ws, steps) && ws[|ws| - 1] == BOTH_LOCKED
  {
    ws, steps := LockSent();
    ws, steps := Extend(SETUP, ws, steps, MoveInitiator(Append(OUR_LOCK)));
    ws, steps := Extend(SETUP, ws, steps, MoveInitiator(Confirm(1)));
    ws, steps := Extend(SETUP, ws, steps, MoveResponder(Append(TAKER_LOCK)));
    ws, steps := Extend(SETUP, ws, steps, MoveResponder(Confirm(1)));
  }

  const OUR_REFUND := OUR_LOCK.(status := Refunded)
  const TAKER_REFUND := TAKER_LOCK.(status := Refunded)

  /** Both sides took their money back; ours only in the head block. */
  const BOTH_REFUNDED :=
    BOTH_LOCKED.(now := 7200, initiator := Chain([NO_SWAP, OUR_LOCK, OUR_REFUND], 1),
                 responder := Chain([NO_SWAP, TAKER_LOCK, TAKER_REFUND], 2), settled := true)

  lemma BothRefund() returns (ws: seq<World>, steps: seq<Event>)
    ensures Run(SETUP, ws, steps) && ws[|ws| - 1] == BOTH_REFUNDED
  {
    ws, steps := BothLegsLocked();
    ws, steps := Extend(SETUP, ws, steps, Tick(7200));
    ws, steps := Extend(SETUP, ws, steps, MoveResponder(Append(TAKER_REFUND)));
    ws, steps := Extend(SETUP, ws, steps, MoveResponder(Confirm(2)));
    ws, steps := Extend(SETUP, ws, steps, MoveInitiator(Append(OUR_REFUND)));
  }

  /** The tick's question on exact reads of that state, with no credit anywhere. */
  const QUESTION :=
    MakerPolicy.Input(MakerPolicy.BookLocking, true, MARKED, Some(OUR_REFUND), Some(TAKER_REFUND), Some(TAKER_REFUND),
                      2, 500, 0, 7200, 60, 600, 0, true, 1, Some(3), 240, Some(0), Some(0), Some(0))

  /** `decide` answers finish on reads of a settlement that is only in the head block;
      the record is dropped, and a reorganisation of that block leaves an open escrow
      with no secret on disk. */
  lemma HeadOnlyFinishOrphans() returns (ws: seq<World>, steps: seq<Event>)
    ensures Run(SETUP, ws, steps) && |ws| >= 3 && steps[|steps| - 2] == Retire
    ensures ws[|ws| - 3] == BOTH_REFUNDED
    ensures QUESTION.managed == MARKED && QUESTION.now == BOTH_REFUNDED.now
            && QUESTION.iState == Some(BOTH_REFUNDED.initiator.Head())
            && QUESTION.rState == Some(BOTH_REFUNDED.responder.Head())
    ensures MakerPolicy.Decide(QUESTION) == MakerPolicy.Finish
    ensures var w := ws[|ws| - 1]; Exposed(SETUP, w) && w.disk.None?
  {
    ws, steps := BothRefund();
    ws, steps := Extend(SETUP, ws, steps, Retire);
    ws, steps := Extend(SETUP, ws, steps, MoveInitiator(Reorg(2)));
  }
}
