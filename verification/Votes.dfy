/** Votes, decisions and the thresholds of the Nero binary consensus. */
module Votes {
  import opened Basics

  // A public key.  The digest of a vote hashes the signer and nothing else, so
  // the key under which a vote is filed (the vote hash) is the signer itself.
  type NodeId = nat

  // The digest of a transaction, which names its election.
  type BlockHash = nat

  datatype Value = Zero | One

  datatype VoteType = InitialVote | Commit | Decide

  datatype Decision = Decision(value: Value, voteType: VoteType)

  datatype Vote = Vote(
    signer: NodeId,
    round: nat,
    value: Value,
    voteType: VoteType,
    proof: Option<set<NodeId>>,
    election: BlockHash)
  {
    function Hash(): NodeId { signer }

    function Choice(): Decision { Decision(value, voteType) }
  }

  function Quorum(f: nat): nat { 2 * f + 1 }

  function SemiQuorum(f: nat): nat { f + 1 }

  function TotalNodes(f: nat): nat { 3 * f + 1 }

  // The vote a node opens an election with; its value is a coin flip.
  function FirstVote(signer: NodeId, election: BlockHash, coin: Value): Vote {
    Vote(signer, 0, coin, InitialVote, None, election)
  }

  function Other(v: Value): Value { if v == Zero then One else Zero }
}
