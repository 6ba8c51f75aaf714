# QuantaSwap market maker: a verified model

QuantaSwap swaps an Ethereum-side asset against native QRL with two hash time-locked
contracts. The maker funds the *initiator* leg first; the taker answers on the
*responder* leg; the maker's claim of the responder leg publishes the secret; the taker
(or a sponsoring maker) then claims the initiator leg. This project models the parts
that decide who can lose money, and proves what they promise over whole runs:

- `Leg`, `Chains`, `Htlc`, `Authority`, `Tracker`, `Credit`, `Attribution`: one hashlock's
  life, a chain that confirms and reorganises it, the HTLCv3 contract, who may do what in
  it, the test suite's conservation tracker, the payout credit ledger, and how the clients
  attribute a shared balance to one swap.
- `Orders`, `MakerPolicy`, `MakerAnswers`, `MakerRun`, `MakerTraces`, `MakerTick`, `MakerDaemon`:
  the maker's record, its decision core and when it gives each answer, the step system of
  one portable order (disk, two chains, clock, book, everybody else), a concrete run where
  one guarantee stops, and the imperative tick that is shown to produce only runs of that
  step system and to stop or act only for the stated reasons.
- `TakerPolicy`, `TakerAnswers`, `TakerRun`, `TakerTraces`, `Completion`: the taker's decision core, one take
  against an arbitrary maker, concrete runs where its guarantee stops, and a joint run of
  both policies that completes in bounded time.
- `Hostage`, `HostageTraces`, `Retirement`: how long an undeliverable credit can hold an order, and what a
  retired order leaves owed.
- `StateFile`, `Lease`, `Heartbeat`: durable state with a fault at any step of a write, the
  single-writer lock files under every interleaving, and the heartbeat.
- `Windows`, `Ladder`, `Wire`, `Json`, `Qrvm`: the three copies of the FillV2 window rules,
  the price ladder, the signed-message encoder against a decoder and against JSON text, and
  the 64-byte-word ABI codec.
- `Common`: options, bounds and finite sums.

SHA-256 is an uninterpreted function. Signatures are unforgeable: a book answer that
authenticates a fill can only exist for a fill that was published. Nobody but the maker
knows a preimage until a claim that carries it has been broadcast, and secrets never
repeat. Addresses, digests and secrets are natural numbers with word zero as "unset".
One clock serves both chains and the processes. Node answers are answers about some head of
the chain: a simulation or gas estimate of a claim goes through only on an escrow that is
open before its own timeout.

The run theorems speak about one hashlock `h`, which is a free parameter: steps under
other hashlocks do not touch the two legs that are shown. Both legs of `MakerRun` are
histories with a confirmed part, and reorganise freely above it. One flag in
`MakerRun.World` records, on the run itself, that a stated assumption was broken: `late`, a
broadcast claim was not final within `claimSafetyS` of its deadline check.
`TakerRun.World.missed` does the same for a taker whose window passed with no claim of its own
and no payout at depth, whoever claimed it, or whose own claim did not land. In `Completion` the timing premises are the condition under which the
clock advances.

## Where code and promise differ

- The maker retires a record on a head read of its own leg. Dropping it is safe, whatever
  happens afterwards, exactly when the leg read at confirmation depth shows no exposure
  (`MakerRun.RetireIsSafeExactly`), which the code does not look at; a finish on a
  settlement that is only in the head block can leave an open escrow whose secret is no
  longer on disk (`MakerTraces.HeadOnlyFinishOrphans`). Every other retirement is safe
  (`MakerRun.OnlyFinishCanRisk`).
- Legs and credits are read in one unordered batch (`marketmaker/src/index.ts:412-443`). A
  zero credit reading of a settled leg means nothing is owed exactly when the leg was read
  no later than the balance (`Retirement.ReadOrderIsExact`); read the other way round, an order can
  be retired over its whole amount. A log answer that is no list, or in which nothing decodes,
  reads as zero and not as a failed read, and hides any credit
  (`Retirement.UnreadableAnswerHides`).
- A credit that was already collected can read positive again when another swap credits the
  same account later, though no attribution owes it anything
  (`Attribution.SpentCreditReadsAgain`). The reading is what some attribution owes exactly
  when the balance never fell short of it (`Attribution.ReadingIsReachedExactly`).
- `decideTaker` reads a stored preimage of zero as "not revealed". A maker whose secret is
  the zero word takes the taker's escrow and its own back (`TakerTraces.ZeroSecretIsReachable`,
  `TakerRun.ZeroSecretLosesBoth`). Inside the window the answer is a claim exactly when the
  published word is not zero (`TakerRun.ClaimIsAnsweredExactly`).
- The taker gives a take up as finished on a head read of its payout. With nothing more sent
  no continuation ends with the maker leg refunded exactly when the payout is claimed at
  depth (`TakerRun.FinishIsSafeExactly`). A sponsored claim seen in the head block only,
  well inside the window, is answered with finish; after a reorganisation the maker refunds
  (`TakerTraces.HeadOnlyFinishLosesBoth`).
- Both of the maker's credits on an order share one rejection counter, and every withdrawal
  goes to the responder leg while that credit reads positive
  (`marketmaker/src/index.ts:976`). An order is retired over an initiator credit that was
  never tried exactly when the responder credit was outstanding too
  (`Hostage.RetiresOverUntriedExactly`, `Hostage.UntriedCreditIsDropped`).
- `marketmaker/README.md:370-382` allows two simultaneous holders only for different
  containers and a ten-minute stall. In one PID namespace a starter that dies inside its
  recovery guard over a stale lease lets any two others through with no stall
  (`Lease.DeadGuardLetsTwoThrough`, `Lease.TwoHoldersAreReachable`).
- After a restart, an order with a stored cancellation counts against the admission budget
  for longer in memory than in the file: `StateFile.MakerState.constructor` states exactly
  when the two agree, `StateFile.CancelledOrderOutlivesFile` what that asks of the file.
- A clock stepped back between selecting and signing makes a fill that hydration and the
  taker both refuse (`Windows.BackwardClockStrandsFill`); 1020 seconds is exactly the
  shortest responder window that tolerates every legal signing delay
  (`Windows.DelayToleranceIsExact`).
- Two pushes can be more than an hour and one tick apart (`HostageTraces.PushesCanBeLate`).
  They keep that bound exactly when no withdrawal takes the first tick at which the second
  one is due, or the tick after it is still as near (`Hostage.PushSpacingExactly`).
  Withdrawals always keep it.
- The ladder's two floors keep every bid size from gaining exactly when the rounded ask
  still covers its size at the bid's price (`Ladder.FloorsKeepOrderExactly`). Size times
  10^(18 - decimals) of at least 1000 is enough, so assets with up to 15 decimals are always
  safe; 100 base units of an 18-decimal asset at a very low mid are not
  (`Ladder.SmallSizesLeak`).

## Model

| member | source | states |
|---|---|---|
| MakerRun.MakerAtomicity | marketmaker/src/policy.ts:297-333 | In every run against any taker with claims on time: whenever the maker's own lock has been Claimed, even in a block that may be reorganised, the responder leg is Claimed to the maker at depth for the full amount, or its claim is under way on a confirmed escrow before that escrow's own timeout; it is not Refunded. |
| MakerRun.RevealedIsSafe | marketmaker/src/index.ts:889-953 | In every state of the invariant where the secret is out and no claim is late, no record of the responder leg's history is Refunded and the maker is paid or in time; a sponsored claim reveals nothing new. |
| MakerRun.FirstRevealIsClaimable | marketmaker/src/chains.ts:177-210 | A first reveal goes only to an escrow that re-read Open with the whole margin left: the cutoff alone passes a settled re-read, the sender's estimate of the claim does not. At broadcast the escrow is claimable if and only if its own timeout has not passed. |
| MakerRun.NoOrphanedEscrow | marketmaker/src/index.ts:386-390 | At every point of every run, with crashes, failed writes and reorganisations anywhere: while the maker's lock is Open, or a broadcast lock can still land, the file holds a filled record with that hashlock, a preimage that hashes to it, and the lock marker, or else an earlier retirement dropped the record while the leg was exposed at confirmation depth. |
| MakerRun.RetireIsSafeExactly | marketmaker/src/index.ts:1089-1117 | Dropping the record leaves no exposure in any continuation if and only if the initiator leg at confirmation depth shows none: settled, taken by somebody else, or empty with no lock of ours sent. |
| MakerRun.OnlyFinishCanRisk | marketmaker/src/policy.ts:249-266 | A record that is unfilled or has no lock marker is never exposed at depth, so every retirement other than a finish meets that condition. |
| MakerTraces.HeadOnlyFinishOrphans | marketmaker/src/policy.ts:413-432 | A concrete run: both sides refund, `decide` answers finish on reads of a refund that is only in the head block, the record is dropped, and a reorganisation leaves an open escrow with nothing on disk. |
| MakerAnswers.CoordinationAnswers | marketmaker/src/policy.ts:249-281 | The book's open and accepted phases, incomplete terms and unread legs wait or announce, and move nothing. |
| MakerAnswers.ClaimExactly | marketmaker/src/policy.ts:297-311 | For every attempt marker: a claim is answered if and only if both legs are Open, the confirmed one pays the maker the agreed amount and asset, both margins are left, and no claim was sent within the resend interval. |
| MakerAnswers.LostClaimIsResent | marketmaker/src/policy.ts:297-311 | In every run in which a claim was marked but never left, with the escrow confirmed and the margins left, a tick answers claim if and only if the resend interval has passed. |
| MakerAnswers.SponsorExactly | marketmaker/src/policy.ts:321-333 | Sponsoring is answered if and only if enabled, our lock for this taker is Open, the secret is public at depth, the margin is left and the spacing passed. |
| MakerAnswers.LockExactly | marketmaker/src/policy.ts:340-350 | A lock is answered if and only if the leg is empty, the fill acknowledged, nobody left, grace and runway hold and the spacing passed. |
| MakerAnswers.RefundExactly | marketmaker/src/policy.ts:354-360 | Under the window rules a refund is answered if and only if the leg is Open past the record's deadline and the spacing passed. |
| MakerAnswers.MarkersOnlySpace | marketmaker/src/policy.ts:217-221 | An attempt marker only spaces claims, locks, refunds and sponsored claims: past the spacing the answer is the one without it. |
| MakerAnswers.CreditMovesExactly | marketmaker/src/policy.ts:376-411 | On a settled leg, exactly when a withdrawal and when a push is answered, for every marker and counter. |
| MakerAnswers.FinishExactly | marketmaker/src/policy.ts:416-432 | Finish is answered if and only if our leg is settled, the other settled or untouched past its window, and every credit the maker answers for reads zero or was given up after five rejections and a day. |
| MakerAnswers.AbortExactly | marketmaker/src/policy.ts:249-266 | Abort is answered if and only if nothing of ours can be on chain and the book is over, the taker left, or the window closed on an empty leg with nothing to collect. |
| MakerAnswers.RetryDoubles | marketmaker/src/policy.ts:528-534 | The spacing of credit moves starts at the resend interval and doubles with each rejection up to an hour. |
| MakerAnswers.ExposedNeedsNoBook | marketmaker/src/policy.ts:232-241 | In every run, while money is or may be locked the order continues without its book. |
| MakerAnswers.OnlyPristineExpire | marketmaker/src/admission.ts:17-43 | A quote expires by itself if and only if it is past its expiry and nothing ever happened to it. |
| MakerAnswers.RetentionIsLeast | marketmaker/src/admission.ts:45-62 | Retention is the least time covering the listing's grace, a cancellation's grace from now, and a day past a fill's deadline. |
| MakerRun.OneTerminalDecision | marketmaker/src/index.ts:193-241 | Any two artifacts published at any two moments of a run are identical: never a FillV2 and a CancelV2, never two different proofs. |
| MakerRun.FundingAuthority | marketmaker/src/index.ts:804-834 | Every lock send happens under a durable acknowledgment of the exact fill, which was published and whose hashlock, recipient and timeout the lock carries; at no earlier point of the run was a release recorded or the record gone. |
| MakerRun.EscrowCarriesTheFill | marketmaker/src/index.ts:835-886 | Whatever ever stood on the initiator chain in the maker's name under `h` carries exactly the terms of a fill for `h` that the book acknowledged. |
| MakerRun.WriteKeeps | marketmaker/src/index.ts:603-713 | Every durable write keeps the record well formed, keeps a signed decision and a recorded release, and once filled keeps hashlock, secret and lock marker. |
| MakerRun.StepKeeps | marketmaker/src/index.ts:385-1120 | Every step of the maker, the chains, the book and the clock keeps the joint invariant of disk, artifacts, escrow, responder history and claim. |
| MakerDaemon.Daemon.Advance | marketmaker/src/index.ts:385-532 | A tick, with everybody else moving between any two effects and every effect allowed to fail, extends the run by legal steps only. It ends early only if an act of its own failed or the configured window is too short to sign; it asks the book first, decides on the record that shows the answer, and stops before the decision exactly where the book alone ends it; a lock or claim it reports was preceded by all its checks. |
| MakerDaemon.Daemon.Coordinate | marketmaker/src/index.ts:445-598 | The branches that need no decision, as an if-and-only-if over outage, expiry, lost publication, stored cancellation and open listing, with what each leaves: an outage nothing, an expired quote a retirement, a drained or mispriced listing a withdrawal before the record goes, and a fill only a lawful one and never while draining. |
| MakerDaemon.Daemon.SelectAndFill | marketmaker/src/index.ts:600-713 | A published outcome means the fill on disk is acknowledged, is the one published, answers the stored selection under the window rules and has the longest response window that configuration and order allow; the tick is idle only without a live selection and gives the order up only in its last minute. |
| MakerDaemon.Daemon.SelectIntent | marketmaker/src/index.ts:608-657 | A live stored selection stays; otherwise the new one is the earliest valid proposal of those offered, stored with both taker accounts, a secret and both timeouts, and none is chosen only if none is valid. |
| MakerDaemon.Daemon.Republish | marketmaker/src/index.ts:515-532 | A stored fill the book does not show is published again; the tick goes on, with new locks blocked, only if the book is unreachable and something durable carries the order. |
| MakerTick.SelectionBindsItsFill | marketmaker/src/index.ts:645-707 | The record stored at selection binds exactly the fill signed from it, which is the one the window rules speak about. |
| MakerDaemon.Daemon.CancelManaged | marketmaker/src/index.ts:193-220 | A cancellation that succeeded is on disk and was answered by the book, the record carries no fill, and a stored one is sent again unchanged; a signed fill is never cancelled. |
| MakerDaemon.Daemon.ResumeCancel | marketmaker/src/index.ts:491-514 | A stored cancellation retires the record once the book shows it or takes it, waits while the row is gone, and changes nothing on a locking answer. |
| MakerDaemon.Daemon.PersistObservation | marketmaker/src/index.ts:243-278 | An authenticated locking view becomes a durable acknowledgment and a sticky release before the decision object changes, and a view that adds nothing is not written. |
| MakerDaemon.Daemon.LockInitiator | marketmaker/src/index.ts:794-887 | A reported lock is the run's last step, a legal lock send, after a fresh look at the book that shows neither release nor expiry and, for a first lock, answers locking or is unreachable, and after a durable marker; it is withheld only for those reasons and cut short only by a failure that is not a mere outage of the book. |
| MakerDaemon.Daemon.ConfirmFunding | marketmaker/src/index.ts:804-834 | The fresh look allows the lock exactly when the record it leaves shows no release, the response window is open, and a first lock rests on a locking answer or an outage that something durable bridges. |
| MakerDaemon.Daemon.Preflight | marketmaker/src/htlc.ts:263-303 | A preflight that passes began before the confirmed escrow's timeout, because the simulation went through on a head of the chain; its re-read shows a view later than the confirmed record and, if Open, leaves the margin at the moment of the check. |
| MakerDaemon.Daemon.TryClaim | marketmaker/src/htlc.ts:216-246 | A simulation or estimate of the claim may fail for any reason and goes through only on an escrow that is open before its own timeout. |
| MakerDaemon.Daemon.ClaimResponder | marketmaker/src/index.ts:889-919 | A reported claim is the run's last step and a legal reveal, after exactly a simulation, a re-read outside the margin, a durable marker carrying the time of that check, and an estimate, in this order; it is cut short only by one of them failing. |
| MakerDaemon.Daemon.EstimateAndClaim | marketmaker/src/chains.ts:186-205 | The settlement send estimates the very claim first; only if that goes through is the claim broadcast, with others moving in between. |
| MakerDaemon.Daemon.Settle | marketmaker/src/index.ts:715-1117 | The action taken is the one `decide` answers on these reads; waiting changes nothing; a claim, refund or credit move is sent and a finish retires unless one of its acts fails; a lock is left out only if its own fill could not be published or the fresh look says stop; retirement comes only from finish or abort. |
| MakerTick.MirrorCannotSteer | marketmaker/src/index.ts:715-726 | Once a fill is signed no book answer but a release changes the decision. |
| MakerTick.ExpiredFillNeverLocks | marketmaker/src/index.ts:720-726 | Past the fill's response window no answer locks, and an unexposed order is dropped. |
| MakerDaemon.Daemon.MoveOwnFunds | marketmaker/src/index.ts:955-1087 | A withdrawal goes to the responder leg if and only if that credit reads positive, a refund or push to the initiator leg; the durable marker comes first and is the only change, and only the contract's own refusal is counted, leaving the record exactly as the stuck-order model says, in one counter for both legs; a failed credit move does not end the tick. |
| MakerDaemon.Daemon.Drop | marketmaker/src/index.ts:1089-1117 | An abort of a listing that may still stand retires the record only after the book answered the cancellation; every other drop only removes the record. |
| MakerDaemon.Daemon.Serve | marketmaker/src/index.ts:1363-1439 | Any number of ticks and restarts end in a state with one published decision, maker atomicity, and no orphaned escrow but for a retirement over an exposure at depth. |
| TakerAnswers.PlansAreTheOrder | marketmaker/src/taker-policy.ts:103-124 | In the order's own fields: who is paid how much of what until when on each leg, for both directions. |
| TakerAnswers.MakerLockExactly | marketmaker/src/taker-policy.ts:149-190 | Each verdict on the maker escrow, if and only if; ok exactly when it pays the plan and outlives the deadline by the margin. |
| TakerAnswers.OwnLockExactly | marketmaker/src/taker-policy.ts:209-235 | Each verdict on the taker's own leg, if and only if. |
| TakerAnswers.ReleaseExactly | marketmaker/src/taker-policy.ts:365-371 | A proposal is released if and only if it was submitted, not yet released, abandoned, and nothing is committed. |
| TakerAnswers.ProposeExactly | marketmaker/src/taker-policy.ts:383-398 | A proposal is made if and only if nothing is committed, the take is not over, nobody was filled and none is pending. |
| TakerAnswers.LockExactly | marketmaker/src/taker-policy.ts:497-546 | For every attempt marker: funding is answered if and only if the confirmed escrow pays the plan with the margin, runway is left, the fill is acknowledged, nothing was released, and the spacing passed. |
| TakerAnswers.ClaimExactly | marketmaker/src/taker-policy.ts:412-420 | For every attempt marker: a claim is answered if and only if the secret is public, the maker escrow Open before the margin, and the spacing passed. |
| TakerAnswers.WithdrawExactly | marketmaker/src/taker-policy.ts:437-447 | A withdrawal is answered if and only if a credit is due and no claim takes precedence; it names the leg that holds it. |
| TakerAnswers.FinishExactly | marketmaker/src/taker-policy.ts:449-466 | Finish is answered if and only if the own leg is settled, no credit is left, and the maker's is settled or expired unclaimable. |
| TakerAnswers.RefundExactly | marketmaker/src/taker-policy.ts:468-477 | For every attempt marker: a refund is answered if and only if an escrow of ours, whatever its terms, is Open past its own timeout with no credit due first. |
| TakerAnswers.AbortExactly | marketmaker/src/taker-policy.ts:365-561 | Abort is answered if and only if the take is over unfunded, filled by another, squatted, or refused. |
| TakerRun.TakerAtomicity | marketmaker/src/taker-policy.ts:405-435 | In every run against any maker, head reads failing or lying at funding time, sponsored or not: unless the window passed with no claim of the taker's own and no payout at depth, or its claim did not land, its escrow, which pays the maker's account of that leg the agreed amount, is never Claimed with the maker's Refunded; the maker's pays the taker's own account of its leg the agreed amount and asset, and is Claimed after its deadline. |
| TakerRun.FinishIsSafeExactly | marketmaker/src/taker-policy.ts:449-466 | A funded taker that answers finish and sends nothing more: no continuation has the maker leg refunded if and only if the payout is claimed at depth. |
| TakerTraces.HeadOnlyFinishLosesBoth | marketmaker/src/taker-policy.ts:449-453 | A concrete run: a sponsored claim in the head block, a finish answered well inside the window, a reorganisation, and the maker's refund at the deadline. |
| TakerRun.ClaimWindow | marketmaker/src/taker-config.ts:94-113 | After the taker's escrow is claimed, more than `claimSafetyS` less the submission margin seconds remain in which every tick finds the maker escrow Claimed, or Open and answered with a claim; it pays the taker's own account, by the order's direction, the agreed amount and asset. |
| TakerRun.ClaimIsAnsweredExactly | marketmaker/src/taker-policy.ts:331-334 | Inside the window `decideTaker` answers claim if and only if the published preimage is not the zero word, which holds whenever the hashlock is not the hash of zero. |
| TakerTraces.ZeroSecretIsReachable | marketmaker/src/taker-policy.ts:412-420 | A concrete run in which a maker with the zero secret claims a properly funded escrow inside the taker's window. |
| TakerRun.ZeroSecretLosesBoth | marketmaker/src/taker-policy.ts:331-334 | From any such state no input makes a claim possible, and the maker's refund at its deadline is legal: both legs are lost. |
| TakerRun.FundingKept | marketmaker/src/taker-policy.ts:149-190 | The taker's escrow only ever stands, with the order's own terms, against a confirmed maker escrow that pays the taker's account of that leg the agreed amount and asset and outlives the taker's deadline by `claimSafetyS`, whatever the maker and the chains do. |
| Completion.HonestCompletion | marketmaker/src/taker-policy.ts:495-546 | In the joint run of both policies, with arbitrary third parties and reorganisations: if the taker funded at any second `decideTaker` allows and the ticks and claims meet the timing premises, then once the clock is past that second by the runway and the taker's claim margin both legs are Claimed at depth, each paying the other side's own account of its leg the agreed amount and asset. |
| Completion.CompletionIsReachable | marketmaker/src/policy.ts:297-311 | From every reachable state in which the taker funded and its lock can still land, some continuation meets the premises, ends completed and leaves the clock free. |
| Completion.MeetingAnswersClaim | marketmaker/src/policy.ts:297-311 | The maker tick that meets the confirmed lock within the runway less its margin answers claim: that the maker escrow still stands and the secret is still private is derived from the run. |
| Completion.ServingPays | marketmaker/src/taker-policy.ts:412-420 | A taker tick that finds its escrow claimed at depth answers claim, unless the maker escrow was already claimed for it. |
| Completion.RunKeeps | marketmaker/src/policy.ts:243-444 | Every state of every joint run keeps the invariant that ties both legs, the secret, both records and the deadlines. |
| Completion.MakerAnswersExactly | marketmaker/src/policy.ts:297-311 | With both escrows Open the maker claims, for the first time or again, if and only if the taker's pays it the agreed amount and asset, the margin is left before both deadlines, and no claim was sent within the resend interval. |
| Completion.TakerAnswersExactly | marketmaker/src/taker-policy.ts:412-435 | On a claimed escrow of its own the taker claims, for the first time or again, if and only if the submission margin is left and no claim was sent within the resend interval. |
| Completion.MakerTakesBackExactly | marketmaker/src/policy.ts:352-360 | With no taker escrow to claim, the maker refunds its lock if and only if the contract accepts a refund at that second and none was sent within the resend interval. |
| Completion.TakerTakesBackExactly | marketmaker/src/taker-policy.ts:468-477 | The taker refunds its unclaimed escrow, whatever its terms, if and only if the contract accepts it at that second and none was sent within the resend interval. |
| TakerRun.FundingIsAnsweredExactly | marketmaker/src/taker-policy.ts:495-546 | A fresh acknowledged take is funded if and only if the confirmed maker escrow has every agreed term and outlives the taker's deadline by the claim margin, runway is left, and the maker leg does not read settled. |
| Htlc.RunConserves | scripts/test-htlcv3.js:218-283 | Over every transaction sequence, each delivery free to fail: every token balance is open escrow plus outstanding credit, outstanding credit is the sum over accounts, and amounts stay below the overflow bound. |
| Tracker.Check | scripts/test-htlcv3.js:226-283 | After any transactions, the tracker's loops over swaps and the accounts they name find the balance equal to open escrow plus credit and the ledger equal to its total. |
| Tracker.RunKeepsParties | scripts/test-htlcv3.js:248-251 | Credits only ever accrue to an initiator or an assigned recipient of some swap, so those accounts are the whole domain of the ledger. |
| Tracker.CollectSwaps | scripts/test-htlcv3.js:243-258 | The first loop sums the open amounts of a token and collects every party. |
| Tracker.SumCredits | scripts/test-htlcv3.js:266-280 | The second loop sums a token's whole credit ledger by account. |
| Htlc.PaymentsNeverBlocked | contracts/hyperion/HTLCv3.hyp:325-365 | In every reachable contract an open escrow is covered by the balance; a claim in time with the right preimage and a refund from the timeout on always settle, paying or crediting the whole amount; a whole credit moves if and only if the payee accepts it. |
| Htlc.NextIsLegStep | contracts/hyperion/HTLCv3.hyp:243-365 | Any transaction moves any hashlock by one step of the leg rules or not at all, and only its sender becomes a new initiator. |
| Htlc.TerminalForever | scripts/test-htlcv3.js:571-614 | A claimed or refunded hashlock never changes again under any further transactions. |
| Htlc.Backed | contracts/hyperion/HTLCv3.hyp:404-415 | No account's credit exceeds the outstanding total, and escrow plus credit never exceeds the balance. |
| Authority.OnlyInitiatorAssigns | contracts/hyperion/HTLCv3.hyp:285-300 | Whatever the transaction: an open escrow's recipient changes only by its initiator, once, in time, to an account that is neither zero nor the contract. |
| Authority.OnlyInitiatorReleases | contracts/hyperion/HTLCv3.hyp:302-323 | Before its timeout an escrow is refunded only by its initiator and only unassigned. |
| Authority.OnlyPreimageClaims | contracts/hyperion/HTLCv3.hyp:325-343 | An escrow is claimed only assigned, in time, with its preimage, which is kept. |
| Authority.LocksAreFunded | contracts/hyperion/HTLCv3.hyp:465-502 | A new escrow is the sender's, positive, capped, unexpired, under a fresh nonzero hashlock, and exactly its amount came in. |
| Authority.OnlyOwnerSpends | contracts/hyperion/HTLCv3.hyp:369-394 | An account's credit falls only by its owner's withdrawal or by paying that owner all of it, and the balance falls by as much. |
| Authority.OnlySettlementsCredit | contracts/hyperion/HTLCv3.hyp:504-548 | An account's credit rises only by the settlement of an escrow it is the payee of, by that escrow's amount. |
| Authority.LockSucceedsExactly | contracts/hyperion/HTLCv3.hyp:450-502 | A lock goes through if and only if hashlock, amount, timeout, recipient and token pass. |
| Authority.SettlementSucceedsExactly | contracts/hyperion/HTLCv3.hyp:285-365 | Assign, release, claim and refund each go through if and only if their conditions hold. |
| Authority.CreditMovesExactly | contracts/hyperion/HTLCv3.hyp:369-394 | Withdrawals and pushes go through if and only if the credit covers them and the payee accepts. |
| Htlc.Deployed.LockSwap | contracts/hyperion/HTLCv3.hyp:450-502 | The object locks or reverts exactly as the transition function says and stays conserved. |
| Htlc.Deployed.AssignSwap | contracts/hyperion/HTLCv3.hyp:285-300 | The object assigns or reverts exactly as the transition function says, whose authority `Authority.OnlyInitiatorAssigns` states; conserved. |
| Htlc.Deployed.ReleaseSwap | contracts/hyperion/HTLCv3.hyp:302-323 | Only an unassigned escrow is released, to its initiator or into a credit; conserved. |
| Htlc.Deployed.ClaimSwap | contracts/hyperion/HTLCv3.hyp:325-343 | A claim pays or credits the recipient, with exact error cases in source order; conserved. |
| Htlc.Deployed.RefundSwap | contracts/hyperion/HTLCv3.hyp:347-365 | A refund at or after the timeout pays or credits the initiator; conserved. |
| Htlc.Deployed.WithdrawCredit | contracts/hyperion/HTLCv3.hyp:369-380 | A withdrawal debits and pays or leaves everything as it was; conserved. |
| Htlc.Deployed.PushAccountCredit | contracts/hyperion/HTLCv3.hyp:386-394 | Anyone may push a credit to its owner, whole or not at all; conserved. |
| Htlc.Deployed.Play | contracts/hyperion/HTLCv3.hyp:243-394 | Any transactions executed in place are the run of the transition functions, and settled hashlocks stay as they are. |
| Credit.GetCreditedForSwap | marketmaker/src/htlc.ts:554-597 | The loop sums exactly the decodable amounts of the log answer. |
| Credit.ReadSwapCredit | marketmaker/src/htlc.ts:600-612 | The reading is the smaller of what the events credited and what the ledger holds, zero without a balance. |
| Credit.ReadingIsExact | marketmaker/src/index.ts:368-383 | Against a faithful node the computed reading is the smaller of the contract's balance and the amounts of the events that name token, account and swap. |
| Credit.AttributionInvariant | marketmaker/src/htlc.ts:554-610 | Under any attribution of withdrawals to swaps, shares add up to the ledger and no share exceeds its swap's own events. |
| Credit.ReadingIsSound | marketmaker/src/index.ts:360-383 | Under any attribution a swap is owed at most the reading; a swap with no event in the log for this token, account and hashlock reads zero. |
| Credit.NeverCreditedReadsZero | marketmaker/src/htlc.ts:527-539 | Over the log itself: without an event of this token, account and hashlock the answer is empty and the reading zero, whatever other events there are. |
| Credit.OneEventReadsItsAmount | marketmaker/src/htlc.ts:554-610 | With exactly one such event, the latest, the reading is its amount, as far as the balance covers it. |
| Attribution.ReadingIsReachedExactly | marketmaker/src/htlc.ts:586-610 | Some attribution owes exactly the reading if and only if at every earlier moment the balance, with what the swap credited since, covered it. |
| Attribution.MostIsReached | marketmaker/src/htlc.ts:594-599 | There is a legal attribution that charges withdrawals to other swaps for as long as they are owed anything. |
| Attribution.MostBounds | marketmaker/src/htlc.ts:594-599 | No attribution owes the swap more than that one. |
| Attribution.SpentCreditReadsAgain | marketmaker/src/index.ts:360-367 | A concrete history: a collected credit reads 100 again after another swap's credit, though every attribution owes it nothing. |
| Credit.ReadingIsTight | marketmaker/src/htlc.ts:600-612 | When no other swap credited the account, every attribution owes exactly the reading. |
| Retirement.FinishOwesNothing | marketmaker/src/policy.ts:413-432 | If each leg was read no later than the balances that go with it, a finish means that under any attribution nothing is owed to the maker on either leg, nor to the taker on the lock it funded, then and after any continuation, unless the order's withdrawals (both legs together) or its pushes are parked. |
| Retirement.ReadOrderIsExact | marketmaker/src/index.ts:412-443 | Over all histories, a zero reading of a leg read settled means nothing is owed if and only if the leg was read no later than the balance. |
| Retirement.SettledForGood | marketmaker/src/htlc.ts:554-584 | Once a swap is terminal, no transaction adds to what its events credited and no attribution owes it more. |
| Retirement.ZeroReadingsFinish | marketmaker/src/policy.ts:413-432 | Three zero readings on settled legs are answered with finish, in whatever order they were taken. |
| Retirement.UnreadableAnswerHides | marketmaker/src/htlc.ts:574-583 | While something is owed and the balance is truthful, the reading is zero if and only if the log answer yields no decodable amount. |
| Retirement.OthersCreditsNeverPin | marketmaker/src/index.ts:360-367 | Without an event of its own for the token and account a swap reads zero, whatever other swaps, or this one for other accounts, left in the ledger. |
| Hostage.HostageTimeIsBounded | marketmaker/src/policy.ts:376-432 | With every credit move rejected, the order is retired at exactly the ticks at which the withdrawal lane's and the push lane's first rejections, on the first or second tick, are a day old, and by then each lane was rejected at least five times. |
| Hostage.RetiresOverUntriedExactly | marketmaker/src/index.ts:971-1002 | When such an order is retired, the responder credit was tried five times if outstanding, and an outstanding initiator credit never, if and only if the responder credit was outstanding too; otherwise five times. |
| Hostage.UntriedCreditIsDropped | marketmaker/src/policy.ts:376-386 | With both of the maker's credits stuck, every run retires the order at the day mark with the initiator credit never tried. |
| Hostage.CounterIsShared | marketmaker/src/index.ts:996-1002 | The stored counter is the attempts on the responder leg plus those on the initiator leg. |
| Hostage.FirstPushIsImmediate | marketmaker/src/policy.ts:399-411 | The first push goes out on the first tick, or on the second when a withdrawal took the first. |
| Hostage.AttemptsAreSpaced | marketmaker/src/policy.ts:524-534 | Until it parks, a lane is tried again within an hour and one tick when nothing competes, as for withdrawals, and within an hour and two ticks in any case. |
| Hostage.PushSpacingExactly | marketmaker/src/policy.ts:376-411 | Two successive pushes are at most an hour and one tick apart if and only if no withdrawal takes the first tick at which the second is due, or the tick after is as near. |
| HostageTraces.PushesCanBeLate | marketmaker/src/policy.ts:376-411 | A concrete stuck run, ticks and resend an hour, with pushes 10799 seconds apart. |
| Hostage.StuckOrderIsTwoLanes | marketmaker/src/policy.ts:376-411 | On a stuck order `decide` is two independent retry lanes, and finishes if and only if each lane it answers for is parked. |
| Hostage.CounterIsHistory | marketmaker/src/index.ts:996-1002 | The stored rejection counter is the number of rejected attempts of the run. |
| Hostage.ParksInTime | marketmaker/src/policy.ts:536-550 | A lane is parked at every tick a day past its first rejection and four spacings past its first attempt. |
| StateFile.Disk.Replace | marketmaker/src/state.ts:1984-2037 | Whatever step of the write fails, the file is the new contents if and only if the rename happened. |
| StateFile.MakerState.Upsert | marketmaker/src/state.ts:1942-1965 | Orders and live admissions equal the file, or the object is poisoned; a success remembers this order's retention and nobody else's; a failed write before the rename changes neither. |
| StateFile.MakerState.Delete | marketmaker/src/state.ts:1967-1978 | The same for deletion. |
| StateFile.MakerState.RecordStrandedCredit | marketmaker/src/state.ts:1860-1866 | Orders are untouched; a new entry stays in memory even when its write failed, and a success puts it in the file; poisoned exactly when the directory sync of a real write fails. |
| StateFile.MakerState.constructor | marketmaker/src/state.ts:1669-1843 | Orders equal the file; admissions agree with it if and only if no order's retention outlives its recorded entry. |
| StateFile.CancelledOrderOutlivesFile | marketmaker/src/admission.ts:45-62 | For a cancelled order past its listing, admissions agree after loading if and only if the file holds an entry a grace period ahead. |
| StateFile.Hydrate | marketmaker/src/state.ts:1928-1940 | After loading, each admission is the later of the recorded one and the order's own retention. |
| StateFile.Session | marketmaker/src/state.ts:1942-2037 | Any sequence of upserts, deletions and stranded credits with a fault anywhere: the file is what the renamed writes make it; unless poisoned, orders agree with it, and live admissions too if they did at the start or any write went all the way; nothing happens after poisoning. |
| StateFile.TakerState.Upsert | marketmaker/src/taker-state.ts:930-957 | Swaps and history equal the file or the object is poisoned; exact refusal cases. |
| StateFile.TakerState.Settle | marketmaker/src/taker-state.ts:903-920 | Record and history move in one write or not at all; history keeps its last fifty entries. |
| StateFile.NewestEntriesStay | marketmaker/src/taker-state.ts:903-920 | A new outcome is the newest of at most fifty, and only the oldest give way. |
| StateFile.TakerState.Delete | marketmaker/src/taker-state.ts:959-970 | Deletion with rollback; a missing record needs no write. |
| StateFile.TakerSession | marketmaker/src/taker-state.ts:903-1041 | Any sequence of the taker's operations with a fault anywhere: swaps and history in the file are what the renamed writes make them, and memory equals them unless poisoned. |
| Lease.MutualExclusion | marketmaker/src/state.ts:688-801 | In every interleaving of any number of starters, deaths, I/O errors and half-written records, at most one live process holds an unreleased lease, if no starter dies while its own guard record is on disk. |
| Lease.NextKeepsInv | marketmaker/src/state.ts:536-642 | Each single file operation keeps what every other starter relies on. |
| Lease.DeadGuardLetsTwoThrough | marketmaker/src/state.ts:738-801 | The converse: from every state with a dead starter's complete guard record and a stale lease on disk, any two new starters can both become live holders. |
| Lease.TwoHoldersAreReachable | marketmaker/src/state.ts:738-801 | A concrete run to two live holders: one starter dies inside its guard. |
| Lease.LoneStarterAcquires | marketmaker/src/state.ts:688-801 | A starter running alone from any leftovers holds a lease that names it and leaves no guard behind. |
| Lease.HolderReleases | marketmaker/src/state.ts:885-905 | Closing removes the holder's own file. |
| Lease.ConfirmsOwnIdExactly | marketmaker/src/state.ts:785-796 | The confirming read returns the lease if and only if the file still shows this attempt's id; else the starter tries again. |
| Lease.RemovesOwnIdExactly | marketmaker/src/state.ts:633-642 | A guard or lease is removed only after its own id was read in it. |
| Lease.TakesOverDeadExactly | marketmaker/src/state.ts:738-770 | A guard is taken over if and only if it is a complete record of a dead process. |
| Heartbeat.ProcessLease.StartHeartbeat | marketmaker/src/state.ts:808-841 | Accepts exactly the intervals with three beats to a lifetime, and sets the failure budget. |
| Heartbeat.ProcessLease.AssertOwned | marketmaker/src/state.ts:843-883 | The exact verdict for each observation; lost is sticky. |
| Heartbeat.ProcessLease.Beat | marketmaker/src/state.ts:907-965 | Exactly when a beat stamps, counts a failure or declares the lease lost. |
| Heartbeat.FailingHolderStopsFirst | marketmaker/src/state.ts:944-965 | A holder whose scheduled beats all fail declares the lease lost at least two intervals before any peer can judge it stale. |
| Heartbeat.LostForever | marketmaker/src/state.ts:843-850 | After a loss, no history of beats and writes lets another write through. |
| Heartbeat.PeerJudgesExactly | marketmaker/src/state.ts:465-493 | A peer judges a lease live if and only if its stamp is less than a lifetime old and at most thirty seconds ahead. |
| Windows.EarliestValidFillIntent | marketmaker/src/policy.ts:62-89 | The answer is eligible and no eligible intent sorts before it; none if and only if nothing is eligible. |
| Windows.CopiesAgree | marketmaker/src/state.ts:1373-1415 | On what the signer accepts, hydration accepts if and only if the fill is not issued before its intent, and so does the taker, plus the pre-lock runway. |
| Windows.TakerAcceptsExactly | marketmaker/src/taker-proofs.ts:856-887 | For every fill, signed by anybody: the taker accepts if and only if its numbers are sound (response, runway, caps, an initiator window at least twice the responder window), it answers the live proposal of this order, and an up-front escrow keeps its runway. |
| Windows.HydrationAcceptsExactly | marketmaker/src/state.ts:1373-1415 | The same for hydration. |
| Windows.SignerAcceptsExactly | marketmaker/src/protocol-signing.ts:1085-1173 | The same for the signer, which also checks the proposal's own rules. |
| Windows.ThreeCopies | marketmaker/src/protocol-signing.ts:1085-1173 | On every fill not issued before a sound proposal the signer and hydration agree, and the taker with them but for the up-front runway. |
| Windows.AcceptedFillsLeaveRoom | marketmaker/src/taker-proofs.ts:856-887 | In any fill the taker accepts, the maker's lock outlives the taker's by at least the responder window, which is more than eleven minutes. |
| Windows.LiveIntentsAreSelected | marketmaker/src/policy.ts:69-89 | A proposal is found if and only if one is live, for this order, and verified. |
| Windows.ArrivalDecides | marketmaker/src/policy.ts:57-64 | Backdating does not move a proposal past an earlier arrival; hidden arrivals fall back to issuance. |
| Windows.ReachesSignerExactly | marketmaker/src/index.ts:659-680 | A fill is signed if and only if its proposal is live, the responder window is at least 661 seconds, and a minute of the order is left. |
| Windows.SelectedFillsPassEverywhere | marketmaker/src/state.ts:1373-1415 | Every fill for the earliest valid intent that the signer accepted, at any later moment of a nondecreasing clock and under any configuration, passes hydration and the taker's check. |
| Windows.ReachedFillsAreSigned | marketmaker/src/index.ts:645-707 | With 1020 seconds and the protocol caps, whenever `advance` reaches the signer it accepts. |
| Windows.DelayToleranceIsExact | marketmaker/src/protocol-signing.ts:1085-1173 | Every signing delay within an intent's life keeps the window rules if and only if the responder window is at least 1020 seconds. |
| Windows.BackwardClockStrandsFill | marketmaker/src/taker-proofs.ts:856-887 | A fill the signer accepts and both others refuse, made by a clock stepping back. |
| Ladder.NoFreeRoundTrip | marketmaker/src/policy.ts:460-483 | Per unit, no bid rung pays more QRL than an ask rung receives, despite both integer divisions, whenever the ask's size times 10^(18 - decimals) is at least 1000. |
| Ladder.RungsExactly | marketmaker/src/policy.ts:471-483 | Rung n is n + 1 times the base size at n + 1 steps from the mid, above for asks and below for bids, each price and each total rounded down once. |
| Ladder.FloorsKeepOrderExactly | marketmaker/src/policy.ts:471-483 | For given prices no bid size gains if and only if the rounded ask still covers its size at the bid's price. |
| Ladder.CoarseAssetsAlwaysCover | marketmaker/src/policy.ts:453-459 | Assets with up to 15 decimals meet the floor at every size. |
| Ladder.SmallSizesLeak | marketmaker/src/policy.ts:460-483 | Below that floor a pair of listed rungs does leak. |
| Wire.MessageRoundTrip | marketmaker/src/protocol-v2-wire.ts:140-190 | A decoder recovers the primary type and every field value from the bytes of any accepted payload. |
| Wire.MessagesAreInjective | marketmaker/src/protocol-v2-wire.ts:36-102 | Equal bytes mean equal type and equal values up to the written form of integers. |
| Wire.FormIsIrrelevant | marketmaker/src/protocol-v2-wire.ts:140-190 | Payloads with equal normal forms have equal bytes. |
| Wire.NormalFormIsTheInteger | marketmaker/src/protocol-v2-wire.ts:113-113 | On an integer field normal forms are equal if and only if the integers are. |
| Wire.UnquoteEscape | marketmaker/src/protocol-v2-wire.ts:160-190 | Every printable string survives its escaping, quotes and backslashes included. |
| Json.MessageIsJson | marketmaker/src/protocol-v2-wire.ts:185-190 | The bytes are the prefix and the JSON text of the array of version, type, domain pairs and field pairs, with strings escaped as section 7 of RFC 8259 requires. |
| Json.IntegersExactly | marketmaker/src/protocol-v2-wire.ts:162-176 | An integer field accepts exactly safe numbers and decimal texts of integers below its width. |
| Json.DigestsExactly | marketmaker/src/protocol-v2-wire.ts:180-182 | A digest field accepts exactly `0x` and the lower-case digits of a 256-bit number. |
| Json.TextsExactly | marketmaker/src/protocol-v2-wire.ts:177-184 | A text field accepts exactly printable ASCII, a boolean field exactly booleans. |
| Qrvm.UintWordsAreCanonical | marketmaker/src/qrvmHtlc.ts:35-95 | A word decodes to n if and only if it is the encoding of n. |
| Qrvm.Bytes32WordsAreCanonical | marketmaker/src/qrvmHtlc.ts:35-135 | A word decodes to 32 bytes if and only if it is their encoding. |
| Qrvm.CallsAreInjective | marketmaker/src/qrvmHtlc.ts:29-68 | Equal calldata for a method means equal arguments up to hex case. |
| Qrvm.ArgsEncodeExactly | marketmaker/src/qrvmHtlc.ts:29-68 | Exactly which arguments are encoded: integers below 2^256, zero included, 32-byte texts in either case, canonical address words. |
| Qrvm.UintResultsAreCanonical | marketmaker/src/qrvmHtlc.ts:70-95 | A result decodes to a list if and only if, lower-cased, it is that list's encoding. |
| Qrvm.CaseIsIrrelevant | marketmaker/src/qrvmHtlc.ts:70-95 | A result means the same in either hex case. |
| Qrvm.DecodeEncodedSwap | marketmaker/src/qrvmHtlc.ts:97-135 | Decoding undoes encoding for every valid swap record. |
| Qrvm.AcceptedSwapsAreCanonical | marketmaker/src/qrvmHtlc.ts:97-135 | Every accepted raw result is, lower-cased, the re-encoding of what was read. |

## Left out

- Legacy unsigned orders and the announce path: other recovery rules; every run theorem is about portable orders.
- RPC, HTTP and book transport: each call is a free choice of answer, failure or timeout; the preflight simulation and the nodes it runs on are trusted with the preimage.
- ML-DSA-87, SHA-256 and SHAKE-256 computations, and field-shape parsing of proofs and state rows.
- Chain time: block timestamps and process clocks are one clock, and a reorganisation does not bring back blocks with older timestamps.
- MakerRun.NoOrphanedEscrow: allows a retirement over an exposure at depth, because the code retires records on head reads; the exact condition is `MakerRun.RetireIsSafeExactly`.
- MakerRun.MakerAtomicity: takes finality of the claim within `claimSafetyS` of the deadline check as an assumption carried on the run.
- Retirement.FinishOwesNothing: takes the legs to be read no later than the balances and the log answers to be truthful, because the code guarantees neither; both conditions are proved exact.
- Completion.HonestCompletion: a runway shorter than the maker's claim margin leaves no tick in time and is excluded.
- Lease.MutualExclusion: starters in other PID namespaces and guards judged by age are not interleaved; `Heartbeat` treats the cross-namespace judgment of a lease.
- Hostage.HostageTimeIsBounded: assumes ticks no further apart than one resend interval and than an hour.
- Hostage.RetiresOverUntriedExactly: each of the maker's two credits reads outstanding at every tick or at none.
- StateFile.MakerState.RecordStrandedCredit: stranded entries have no rollback in the source, so no memory-and-file agreement is stated for them; not every parked credit leaves an entry.
- Rehydrating a record whose cancellation follows an intent selection, which the parser refuses.
- The tables of field names and widths, domain keys and contract methods are taken over as data; what is proved holds whatever they say.
- The maker capability token of a listing, refill of the ladder, price feed, admission backoff, health, CLI and configuration reading, key generation.
- The taker's sends and records in `taker.ts` beyond the three guarded events of `TakerRun`; credits in `TakerRun`.
- `isContractRejection` text heuristics, gas measurement and settlement gas sizing, the reentrancy guard.
- The frontend, deployment and smoke scripts, and the order-book server.
