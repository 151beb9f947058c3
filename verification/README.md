# Nero: a verified model

Nero decides, for every transaction, one binary value among `3f + 1` nodes of
which up to `f` are byzantine. This project models the consensus as its code
stands, proves it safe over every run of the network, and does the same for the
parts around it: the round simulator, the reliable sender, the store and the
stake thresholds. `dafny verify dfyconfig.toml` checks everything.

## What is modelled

**The consensus.** `Votes`, `Tallies` and `Elections` hold the data, the two
tallies, the decision table, and what one call makes of one election.
`NeroCore.Core` is the node: an object with the source's maps, whose methods
update them step by step and are proved to compute exactly those functions.
`Locals` states what every node keeps by itself, `Ballots` what holds of one
election across the committee, `Safety` why that makes the protocol safe, and
`Network` and `Theorems` lift it to runs of the whole network: any number of
elections, of transactions and of deliveries, in any order. A vote once sent may
be delivered never, often, late and in any order. `Choices` says what a quorum of
votes calls for, and that votes and verdicts are exactly that; `Deliveries` says
all that a transaction or a vote does to a node, by its views and broadcasts
alone. `MissedDecide` is a concrete fault-free run.

- The theorems hold for every `f >= 1`; the source fixes `f = 1` and derives
  the other constants from it (primary/src/general.rs:5-8).
- A vote's digest covers its signer only, so the hash under which votes are
  filed, and of which a proof consists, is the signer.
- Faults: a byzantine node may run the code with its flag set, and its decisions
  are then arbitrary; or it may send any value and type it likes, one vote per
  election and round, under its own key, with a quorum of keys in the proof.
  The first is a case of the second: `Ballots.ByzantineCodeIsForgery` turns each
  step of a byzantine node running the code into such sends. The bound on proofs
  is an assumption on senders, since `validate_vote` does not check their size.
- Randomness enters as the `Coins` of each call.

**Two findings about the code.** `tally_vote` repeats the test for a One Decide
where it means a Zero Decide, so that the tally a node casts from never counts a
Zero Decide, while the one it validates with does. Agreement, validity and the
value lock hold all the same. What fails is the bound on decisions and the round
trip from casting to validating: `MissedDecide.CommitsTwoRoundsAfterCommit` is a
run without faults in which a node commits to Zero once more and whoever knows
the proof of its vote rejects it, and the theorems below say exactly when it happens. In the
simulator, the assertion that all decisions agree is not kept in general.
Whether it is depends on what the nodes hear at the start, and on nothing else:
the byzantine node can make it fail if and only if nodes 0 and 1 hear a quorum of
votes in round 0, node 2 does not, and node 0 or node 1 hears a quorum of ones
(`Disagreement.AgreementExactly`). Unanimous honest opening votes do not exclude
that (`Disagreement.AgreementFails`).

**The simulator.** `Rounds` has the transitions, the invariant and its
consequences for all openings, delays and byzantine choices; `Simulator` has the
program's nested loops, in place, against them. `Laggards` shows why nodes that
fall behind still agree in three cases, `Openings` that the first pass leads to
one of these unless node 2 alone waits behind a quorum of ones, and
`Disagreement` that otherwise some byzantine choices end in disagreement. `Passes`
tells each turn and pass of a run entry by entry.

**The reliable sender.** `Connection` has the steps of a connection under
messages, cancellations, ACKs, failed writes and reconnections, and what holds of
every run; `Wire` tells what each event writes, skips and passes on;
`ReliableSender` has the loops over the two deques. Handlers are
numbered in the order in which their messages are taken from the channel, and
what the environment does (arrivals, failures, closed handlers) is a parameter.
A flush is one step: a handler closed during it counts as closed before it, if
its message was not yet taken off the buffer, or after it.

**The store.** `Store` reads the replies off the history of commands, proves what
they promise, and shows that the command loop sends exactly them.

**Stakes.** `Stakes` has the thresholds and the overlap of quorums, for
committees with any stakes.

## Model

| member | source | states |
|---|---|---|
| Theorems.AgreementAlways | primary/src/core.rs:320-417 | in any run, whatever is lost, repeated or reordered, two honest nodes that ever record a decision of an election record the same value, at whatever times they do |
| Theorems.ValueLockAlways | primary/src/core.rs:513-556 | at any time, in the round of the first Commit in honest views every vote there is an initial vote or Commit of its value, and in all later rounds a Commit or Decide of it |
| Theorems.OneValueCommitted | primary/src/core.rs:513-556 | over a whole run, all Commits ever in honest views, of any round and at any time, have one value |
| Theorems.StrongValidityAlways | primary/src/core.rs:320-403 | if the honest opening votes sent so far are all v, every vote any honest node has sent and every decision any has recorded is v, whatever the byzantine nodes send |
| Theorems.BoundedDecisionAlways | primary/src/core.rs:521-543 | two rounds and more after the first Commit of v, a vote in an honest view is a Decide of v if and only if v is One, or the view is not its caster's own, or its proof holds a quorum of Zero Commits |
| Theorems.UnanimityAlways | primary/src/core.rs:521-543 | if all opening votes in honest views are v, so far, all votes of round 1 in them are Commit v and all of round 2 are Decide v |
| Theorems.RoundTripAlways | primary/src/core.rs:367-403 | an honest vote is Pending at an honest node that stores the previous round exactly when a signer of its proof is missing there, and otherwise Valid exactly when the proof holds no Zero Decide or a quorum of Zero Commits besides |
| Theorems.DecisionRecord | primary/src/core.rs:372-391 | `decided` has an entry exactly when the stored election says so, the entry never changes, it is the value of the node's last own vote, and that is its only Decide |
| Theorems.VoteOnce | primary/src/core.rs:346-391 | the k-th vote a node broadcasts in an election is its own, of round k, past round 0 with a quorum in its proof, and is the one in its own view: one vote a round, in consecutive rounds |
| Theorems.RoundDiscipline | primary/src/core.rs:283-318 | stored rounds are contiguous from 0; `voted` holds exactly when the own key is among the validated votes; while undecided the node has voted in every round it stores, and in the next one too once a round holds a quorum |
| Theorems.TallyRefinesBatch | primary/src/election.rs:82-155 | in every reachable round state the incremental tally is the batch tally of the validated votes with no Zero Decides, and its counters sum to the number of votes less the Zero Decides |
| Theorems.VerdictIsFinal | primary/src/core.rs:470-511 | once an honest node stores the previous round and calls a vote Valid or Invalid, every later state gives the same verdict |
| Theorems.DeadBranches | primary/src/core.rs:518-554 | no tally an honest node casts from, and none it could build from any proof, takes the branch "This should not happen!!!" or the branch "Should not be reached!" |
| MissedDecide.CommitsTwoRoundsAfterCommit | primary/src/election.rs:95-100 | a run of the network without any fault: Zero is first committed in round 1, node 1 has a Decide of Zero in view in round 2 and still commits in round 3, and every node that knows the votes of its proof calls that vote Invalid |
| Deliveries.VoteDelivered | primary/src/core.rs:320-417 | for any vote delivered at any time of any run, to any node, byzantine ones too: if no vote of its signer is in view in that round and it is judged Valid, the node's view of the round becomes the old one with this vote, and with its own opening vote if it had none in round 0; it votes in the next round if and only if that view is a quorum, it has no vote there and is undecided, with all of the view for a proof; these are its only new broadcasts; a Decide is recorded and nothing else is; any other vote only joins the votes seen; other nodes and elections are untouched |
| Deliveries.HonestVoteCalledFor | primary/src/core.rs:372-377 | the vote an honest node casts upon a delivery is what its view calls for, if and only if, not counting Zero Decides |
| Deliveries.FirstVoteOpens | primary/src/core.rs:346-365 | another's opening vote reaching a node that has not opened is stored, and the node's broadcasts for the election are exactly its own opening vote, which is in its view |
| Deliveries.TransactionDelivered | primary/src/core.rs:283-318 | a transaction makes a node that has not opened broadcast and store exactly its own opening vote, and changes nothing of any view, record or other election otherwise |
| Deliveries.ChoiceExactlyAlways | primary/src/core.rs:513-556 | at any time, a vote past round 0 in an honest view is a Decide of v if and only if its proof holds a quorum of Commits of v or a Decide of v (of One only, in its caster's own view), a Commit of v if and only if not that, but a quorum of first votes of v or any Commit of v, and else a first vote, for Zero exactly when more than f of the first votes are |
| Deliveries.FirstDecideRestsAlways | primary/src/core.rs:528-536 | a Decide that follows on no Decide rests on a quorum of Commits of its value |
| Deliveries.VerdictExactlyAlways | primary/src/core.rs:470-511 | the verdict of an honest node on any sent vote, by what it stores of the previous round: Valid exactly for what the votes of the proof call for |
| Deliveries.VerdictOfByzantine | primary/src/core.rs:515-517 | that of a byzantine node: its coin flip, unless the proof holds a One Decide |
| Choices.TableRests | primary/src/core.rs:513-556 | on any tally at all, a Decide or Commit rests on votes that call for it, and a clash of Commits gives a first vote for Zero |
| Choices.TableIsCalledFor | primary/src/core.rs:513-556 | on any quorum of votes from an honest view the table gives exactly what they call for, to validators and to the caster |
| Choices.ChoiceExactly | primary/src/core.rs:470-511 | votes in honest views are exactly what their proofs call for, in any state that keeps the invariant |
| Choices.FirstDecideRests | primary/src/core.rs:528-536 | the same for the first Decide |
| Choices.VerdictExactly | primary/src/core.rs:470-511 | and for verdicts |
| Ballots.Quorums | primary/src/general.rs:5-8 | the honest nodes make a quorum, two quorums share f + 1 nodes, and f + 1 nodes include an honest one |
| Safety.Agreement | primary/src/core.rs:513-556 | in any state that keeps the invariant, two honest decisions of one election are equal |
| Safety.ValueLock | primary/src/core.rs:528-556 | the value lock, for any state that keeps the invariant |
| Safety.FirstCommitLeans | primary/src/core.rs:537-551 | a quorum of opening votes stands behind the first Commit, so that every quorum of the round before it leans the same way |
| Safety.LockedVote | primary/src/core.rs:521-531 | a vote resting on a round locked on v is a Commit or Decide of v, and which of the two, decided by who looks and by the Commits in its proof |
| Safety.StrongValidity | primary/src/core.rs:502-551 | honest unanimity at the start fixes the value of every later vote, of every signer, in honest views, and of all decisions |
| Safety.CastValidateRoundTrip | primary/src/core.rs:372-377 | the verdict of an honest node on an honest vote, in all three cases, if and only if |
| Tallies.FromVotes | primary/src/election.rs:127-155 | the loop over a set of votes returns the number of votes of each value and type |
| Tallies.BatchTally | primary/src/core.rs:474-491 | counting the votes of a view and counting the signers of each choice give the same tally |
| Tallies.TallyVoteAdds | primary/src/election.rs:82-102 | one incremental step takes the tally of a view short of its Zero Decides to that of the view with one more vote |
| Tallies.TallySum | primary/src/election.rs:127-155 | the batch tally counts every vote of a view exactly once |
| Tallies.CastAgreesWithValidate | primary/src/core.rs:513-556 | the decision table gives the caster's tally and the validator's the same answer if and only if there is no Zero Decide, or another branch comes first: clashing Commits, a One Decide, or a quorum of Zero Commits |
| Tallies.NeverFallsThrough | primary/src/core.rs:548-554 | no tally at all reaches the last branch of the table |
| Elections.VerdictStable | primary/src/core.rs:470-511 | a verdict other than Pending survives any growth of the election, for an honest node with the previous round at hand |
| Locals.FinalVerdict | primary/src/core.rs:470-511 | for an honest node and a vote with a quorum in its proof, a verdict other than Pending is the verdict of all later states if and only if the vote is of round 0 or the previous round is stored |
| Locals.InvalidThenValid | primary/src/core.rs:510 | for every f and every quorum, the Commit of another member is Invalid at a node new to the election and Valid at the same node in a later state, both of which keep the node's invariant |
| NeroCore.Core.HandleTransaction | primary/src/core.rs:283-318 | the node's whole new state, its broadcasts included, after a transaction: opened with one own vote unless it had voted |
| NeroCore.Core.HandleVote | primary/src/core.rs:320-417 | the node's whole new state after any vote: unchanged but for the record of votes seen when the vote is known, Invalid or Pending; otherwise filed, opened if need be, and the next vote cast and recorded |
| NeroCore.Core.AcceptVote | primary/src/core.rs:348-365 | the accepting arm: the round with the vote filed and counted, and the own opening vote sent if round 0 had none |
| NeroCore.Core.CastNextVote | primary/src/core.rs:367-403 | casts in the next round exactly on a quorum, no vote there and no decision; a Decide sets the flag and the record together |
| NeroCore.Core.ValidateVote | primary/src/core.rs:470-511 | the verdict, a function of the previous round's votes that the proof names |
| NeroCore.CollectProof | primary/src/core.rs:474-483 | reports a missing hash if and only if there is one, and otherwise returns exactly the votes named |
| Locals.TransactionKeepsLocal | primary/src/core.rs:283-318 | a transaction keeps the whole invariant of a node in an election: rounds, tallies, log, record and justification of votes |
| Locals.VoteKeepsLocal | primary/src/core.rs:320-417 | so does any admissible vote, and the election only grows |
| Locals.JustifiedInView | primary/src/core.rs:470-498 | every vote past round 0 in an honest view is what the table gives for the quorum of stored votes its proof names |
| Ballots.StepKeeps | primary/src/core.rs:320-417 | every step of an election, a byzantine one included, keeps the invariant of the whole committee, and forgets nothing at any node |
| Ballots.ByzantineCodeIsForgery | primary/src/core.rs:372-383 | to honest eyes, any event at a byzantine node that runs the code is a sequence of votes sent at will, each allowed when it is sent, and any other event is itself |
| Ballots.HonestEyes | primary/src/core.rs:320-417 | the committee invariant holds of the honest nodes alone |
| Ballots.DeliveryNeverFails | primary/src/core.rs:475 | the proof of any vote that can arrive is there to be unwrapped |
| Network.ActIsStep | primary/src/core.rs:283-417 | an action of the network is one step in its own election and none in any other |
| Network.StepIsAct | primary/src/core.rs:283-417 | conversely, any event of an election is an action of the network |
| Network.RunInv | primary/src/core.rs:320-417 | every state of every run keeps the invariant, in every election |
| Rounds.QuorumExclusion | node/src/consensus.rs:69-118 | no two honest nodes ever record a quorum of ones and a quorum of zeros for the same round |
| Rounds.OppositeDecisionsApart | node/src/consensus.rs:92-112 | opposite decisions never rest on the same round or on adjacent ones |
| Rounds.TurnKeeps | node/src/consensus.rs:69-160 | an honest turn keeps the invariant: votes for exactly the rounds up to each node's, no sender heard saying both 0 and 1, recorded quorums backed for good, decisions backed by two rounds running, byzantine nodes never behind; and no entry delivered changes |
| Rounds.MisbehaveKeeps | node/src/consensus.rs:174-188 | a byzantine turn finds the vote it looks up, keeps the invariant and moves one round on |
| Rounds.LoopTop | node/src/consensus.rs:58-189 | the invariant after any number of iterations, for every opening and all byzantine choices: a byzantine node stands at the round of the iteration, no honest one ahead |
| Rounds.DeliveredStays | node/src/consensus.rs:138-157 | whatever has been delivered at some iteration is the same at every later one |
| Rounds.ZeroValidity | node/src/consensus.rs:88-135 | if no honest opening vote holds a 1, no honest node ever votes, records a quorum for, or decides 1 |
| Rounds.ExclusionAlways | node/src/consensus.rs:69-118 | at every point of every run, no round is recorded with both kinds of quorum by any two honest nodes, and opposite decisions rest on rounds more than one apart |
| Rounds.ZeroValidityAlways | node/src/consensus.rs:88-135 | the validity of 0 at every point of every run, inside a pass too |
| Passes.TurnExactlyAlways | node/src/consensus.rs:69-160 | each turn of each run, by the sets of senders heard: on a quorum the node tells all its decided value, or else 1 on a quorum of ones and 0 without, records the quorum, and decides on the second running; without, exactly the delayed entries of honest senders in its round are filled, with 1 if the sender has told anybody 1 and else 0 |
| Passes.PassExactlyAlways | node/src/consensus.rs:174-188 | between two passes the byzantine node tells all its choice in its next round, and nothing else changes |
| Disagreement.AgreementExactly | node/src/consensus.rs:163-165 | for every opening: the assertion holds under all byzantine choices, at the end of the instance, if and only if it is not the case that nodes 0 and 1 hear a quorum in round 0, node 2 does not, and node 0 or 1 hears a quorum of ones; and the same for agreement in every pass |
| Disagreement.Disagrees | node/src/consensus.rs:163-165 | from every opening of that kind, three byzantine choices make the instance end with nodes 0 and 1 deciding 0 and node 2 deciding 1 |
| Disagreement.AgreementFails | node/src/consensus.rs:163-165 | there is such an opening in which every honest vote is a 1 |
| Openings.DecisionsAgree | node/src/consensus.rs:69-171 | from every other opening all decisions agree, in every pass of every run |
| Openings.FirstPass | node/src/consensus.rs:69-160 | after the first pass of such an opening the nodes are in step, or node 1 is behind, or nobody will say 1 again |
| Laggards.LockAgreement | node/src/consensus.rs:89-133 | if nodes 1 and 2 say 1 for ever once two rounds running held a quorum of ones, all decisions agree |
| Laggards.InStepTurn | node/src/consensus.rs:69-135 | nodes in step, or with node 0 a round behind, stay so, and their votes follow the quorum of ones in the round before |
| Laggards.BehindTurn | node/src/consensus.rs:69-160 | with node 1 behind, nodes 1 and 2 still hear every honest vote, and such quorums of ones bind them |
| Laggards.OnesOverTurn | node/src/consensus.rs:69-160 | with node 2 behind and no quorum of ones recorded, no honest node says 1 past round 1 or decides 1 |
| Simulator.Instance.DrawOpening | node/src/consensus.rs:26-51 | the opening vectors: an honest value or -1 for each receiver, a byzantine choice for all |
| Simulator.Instance.constructor | node/src/consensus.rs:19-51 | the maps as the opening fills them |
| Simulator.Instance.CountVotes | node/src/consensus.rs:71-87 | how many senders, excluded ones apart, have told the node 0 and 1 |
| Simulator.Instance.Deliver | node/src/consensus.rs:141-151 | delayed entries take the value the others have, 0 if nobody has a 1, although the vector tested changes under the loop |
| Simulator.Instance.ReceiveDelayed | node/src/consensus.rs:138-157 | the honest vectors of the round, and no others, have their delayed entries filled |
| Simulator.Instance.AdvanceNode | node/src/consensus.rs:89-134 | the node's next vote, its recorded quorum and its decision |
| Simulator.Instance.HonestTurn | node/src/consensus.rs:69-160 | a turn advances on a quorum of delivered votes and receives otherwise |
| Simulator.Instance.ByzantineVotes | node/src/consensus.rs:174-188 | each byzantine node votes its choice in the next round |
| Simulator.Instance.Pass | node/src/consensus.rs:58-189 | one pass of the main loop: it concludes exactly when all honest nodes have decided, and otherwise makes one iteration |
| Simulator.Instance.Run | node/src/consensus.rs:58-189 | the main loop under any schedule of byzantine choices: it stops after the first pass that leaves all honest nodes decided, in the state that pass makes, or is at the top of the loop after the whole schedule; it reports whether all decisions are equal, which they are unless the opening is one of those above |
| Simulator.FirstHasDecided | node/src/consensus.rs:163-165 | when the instance concludes node 0 has decided, so that the lookup of its decision finds one |
| Connection.HeldInOrder | network/src/reliable_sender.rs:162-247 | after any run, the messages awaiting an ACK followed by the buffer are exactly the messages received that are neither acknowledged nor skipped, in the order they came, and only cancelled ones are skipped |
| Connection.EachAccountedFor | network/src/reliable_sender.rs:176-247 | every message received is in exactly one place: acknowledged, skipped, or held |
| Connection.LeavesForGood | network/src/reliable_sender.rs:183-240 | a message held at some point and not later has been acknowledged or cancelled, and one that has left never comes back |
| Connection.ResolvedOnce | network/src/reliable_sender.rs:214-228 | no handler is resolved twice, over all connections |
| Connection.AcksPair | network/src/reliable_sender.rs:193-229 | on each connection the k-th ACK goes to the handler of the k-th message written on it, which had been written; and all that is written and not acknowledged is all that is held |
| Connection.NothingUnwritten | network/src/reliable_sender.rs:183-204 | a connection that stands has an empty buffer after each event |
| Connection.WaitsDouble | network/src/reliable_sender.rs:141-168 | after k failures to connect in a row the next wait is the minimum of 200 * 2^k and 60000 |
| Wire.EventWrites | network/src/reliable_sender.rs:183-212 | an event that has the connection flush writes the first of the messages at hand that were not cancelled before, as many as get through; the connection stands if and only if that was all of them, and then exactly the cancelled ones have been skipped |
| Wire.CancelledAreNotWritten | network/src/reliable_sender.rs:191-197 | no message an event writes was cancelled before it, and if the connection stands every cancelled message of the buffer has been skipped |
| Wire.EventWritesNothing | network/src/reliable_sender.rs:213-238 | the other events write and resolve nothing, and all but a cancellation leave the connection down: an ACK that nothing waits for, the end of the stream, a failure to connect |
| Wire.CancelledAreClosed | network/src/reliable_sender.rs:191-197 | the handlers taken for cancelled are exactly those closed so far |
| Wire.WaitingCleans | network/src/reliable_sender.rs:170-174 | whatever was cancelled before some message arrived during the wait is no longer in the buffer |
| Wire.AcksPassedOn | network/src/reliable_sender.rs:218-229 | over all connections the handlers are passed the bytes of exactly those ACKs that found a message waiting, in order |
| Wire.AcksOfConnection | network/src/reliable_sender.rs:213-229 | on each connection the handlers are passed the bytes of all ACKs that arrived on it, in order, but for the one too many that breaks it |
| Connection.StepKeeps | network/src/reliable_sender.rs:141-247 | every event keeps conservation, order and the pairing of ACKs |
| ReliableSender.Link.AwaitTimer | network/src/reliable_sender.rs:157-174 | draining the channel while waiting, and backing off |
| ReliableSender.Link.Flush | network/src/reliable_sender.rs:183-204 | the loop over the buffer: what it writes, skips, and puts back when a write fails |
| ReliableSender.Link.PutBack | network/src/reliable_sender.rs:241-245 | the unacknowledged messages return in front of the buffer, in their order |
| ReliableSender.Link.Respond | network/src/reliable_sender.rs:213-238 | an ACK resolves the message written longest ago; an ACK too many, or a failure, breaks the connection with its error and loses nothing |
| ReliableSender.Link.Establish | network/src/reliable_sender.rs:146-155 | a new connection resets the delay and writes out the buffer |
| ReliableSender.Link.Receive | network/src/reliable_sender.rs:209-212 | a new message joins the buffer, which is written out |
| Store.AnsweredOnce | store/src/lib.rs:33-58 | over any history, a NotifyRead has at most one reply: the latest write to its key before it, or else the first one after it, and none as long as there is neither |
| Store.AnsweredInOrder | store/src/lib.rs:37-41 | of two readers of a key both answered, the one that came first is answered first |
| Store.WriteAnswers | store/src/lib.rs:35-42 | a Write sets off replies with its value, in strictly ascending order of the readers, to exactly those waiting for its key |
| Store.ReadAnsweredAtOnce | store/src/lib.rs:43-46 | a Read has exactly one reply, the value of the latest earlier write or none; a Write has none |
| Store.LastWriteIsLatest | store/src/lib.rs:35-46 | a key holds a value exactly when some command wrote it and none later wrote to the key |
| Store.WaitingIsFifo | store/src/lib.rs:47-53 | the readers waiting for a key are exactly its NotifyReads if it was never written, in the order they came |
| Store.NoWaiterHasValue | store/src/lib.rs:35-42 | no key has both a value and waiting readers |
| Store.UnwrittenIsNone | store/src/lib.rs:43-46 | a key has no value exactly when no command wrote to it |
| Store.FollowsOn | store/src/lib.rs:33-58 | how the database and the obligations follow the history, command by command |
| Store.Answer | store/src/lib.rs:38-40 | the waiting readers are served from the front of the queue, each with the value written |
| Store.CommandLoop.Handle | store/src/lib.rs:33-60 | after every command the loop has sent exactly the replies of the history, in that order |
| Stakes.Committee.TotalStake | config/src/lib.rs:135-141 | the loop returns the sum of the stakes |
| Stakes.OthersAndMyself | config/src/lib.rs:130-150 | the stakes of the others and one's own sum to the total |
| Stakes.OthersAreTheRest | config/src/lib.rs:144-150 | the others are all authorities but oneself, in key order |
| Stakes.Thresholds | config/src/lib.rs:153-166 | for N = 3f + 1 + k, k < 3, the thresholds are N - f and f + 1 |
| Stakes.QuorumsOverlap | config/src/lib.rs:153-166 | any two sets of authorities that reach the quorum share the validity threshold of stake |
| Stakes.FaultyAreOutvoted | config/src/lib.rs:153-166 | with at most f of the stake faulty the others reach the quorum, and whoever reaches the validity threshold includes one of the others |
| Stakes.ThresholdsFit | config/src/lib.rs:153-166 | 32-bit arithmetic computes the quorum right exactly for totals below 2^31, and the validity threshold exactly for totals below 2^32 - 2 |

## Left out

- Liveness of the consensus: Pending votes are dropped and no ACK is written by the receiver, so the code supports no eventual decision.
- Byzantine equivocation, forged signers and proofs short of a quorum: nothing in `handle_vote` checks signatures, committee membership or the size of a proof, so the fault model excludes them.
- `unvalidated_votes`, `validate_pending_votes` and `timed_out`: the Pending arm changes a copy that is not stored, so the stored map is always empty and the function changes nothing; the flag is never read.
- The relay of votes at primary/src/core.rs:327: its future is not awaited, so it sends nothing.
- In place update of a round and an election inside `handle_vote`: the source clones both out of their maps and inserts them again, so they are values here; the maps that hold them are fields of `NeroCore.Core`.
- Widths of counters: rounds (32 bits), tallies and delays (64 bits) and the retry counter (whose overflow only affects a log line) are unbounded here.
- `byzantine_votes` is never called; primary/src/node.rs is not compiled.
- The simulator's loop over 1000 transactions and its printing: each instance starts afresh; the model has one, and since its loop need not end, runs it under schedules of any length.
- Scheduling inside the simulator: its nodes move in the fixed order of the source.
- Errors of the database in the store, and replies to closed channels: calls succeed, and sending to a closed channel has no effect in the source either.
- Connection.HeldInOrder: says nothing of messages still in the channel of 1000 places, nor of the order among several connections.
- Overflow checks of debug builds in the stake arithmetic: `Stakes.ThresholdsFit` models the wrapping of release builds, on a total that itself fits.
- Cryptography, serialisation, TCP, the runtime's scheduling, logging, the other senders and receivers, the benchmark client and scripts.
