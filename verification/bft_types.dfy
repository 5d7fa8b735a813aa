/** Messages of the BFT consensus protocol (consensus/bft/src/types.rs, round.rs). */
module BftTypes {
  import opened Words

  type BlockHash = Bytes32
  type ValidatorId = Bytes32
  type Height = u64
  type Round = u32

  datatype VoteType = Prevote | Precommit

  datatype RoundStep = NewRound | Propose | Prevote | Precommit | Commit

  datatype TimeoutStep = Propose | Prevote | Precommit

  /** An ideal signature: who signed, and exactly which bytes. */
  datatype Signature = Signature(signer: ValidatorId, message: seq<byte>)

  datatype Vote = Vote(
    voteType: VoteType,
    height: Height,
    round: Round,
    blockHash: Option<BlockHash>,
    validator: ValidatorId,
    signature: Signature)

  datatype Proposal = Proposal(
    height: Height,
    round: Round,
    blockHash: BlockHash,
    proposer: ValidatorId,
    signature: Signature,
    validRound: Option<Round>)

  /** A block; its header is opaque bytes and its hash is a parameter of the model. */
  datatype Block = Block(header: seq<byte>, transactions: seq<seq<byte>>)

  datatype TimeoutEvent = TimeoutEvent(height: Height, round: Round, step: TimeoutStep)

  datatype ConsensusMessage =
    | ProposeBlock(proposal: Proposal, block: Option<Block>)
    | CastVote(vote: Vote)
    | CommitBlock(height: Height, blockHash: BlockHash)
    | ScheduleTimeout(event: TimeoutEvent)

  // ---------- the bytes a vote signs ----------

  /** `Vote::sign_bytes`: one type byte, height and round little-endian, then the tagged hash. */
  function SignBytes(t: VoteType, h: Height, r: Round, b: Option<BlockHash>): seq<byte> {
    [if t.Prevote? then 0x01 else 0x02]
    + LittleEndian(h, 8)
    + LittleEndian(r, 4)
    + (match b
       case Some(hash) => [0x01] + hash
       case None => [0x00])
  }

  function VoteBytes(v: Vote): seq<byte> {
    SignBytes(v.voteType, v.height, v.round, v.blockHash)
  }

  predicate Verifies(v: Vote) {
    v.signature.signer == v.validator && v.signature.message == VoteBytes(v)
  }

  /** `Vote::new`: the vote signed with the key of `signer`. */
  function SignedVote(t: VoteType, h: Height, r: Round, b: Option<BlockHash>, signer: ValidatorId): (v: Vote)
    ensures Verifies(v)
  {
    Vote(t, h, r, b, signer, Signature(signer, SignBytes(t, h, r, b)))
  }

  lemma SignBytesParts(t: VoteType, h: Height, r: Round, b: Option<BlockHash>)
    ensures var s := SignBytes(t, h, r, b);
            && |s| >= 14
            && s[0] == (if t.Prevote? then 0x01 else 0x02)
            && s[1..9] == LittleEndian(h, 8)
            && s[9..13] == LittleEndian(r, 4)
            && s[13] == (if b.Some? then 0x01 else 0x00)
            && (b.Some? ==> s[14..] == b.value)
  {
  }

  /** The signed bytes determine every field of the vote. */
  lemma SignBytesInjective(
    t1: VoteType, h1: Height, r1: Round, b1: Option<BlockHash>,
    t2: VoteType, h2: Height, r2: Round, b2: Option<BlockHash>)
    requires SignBytes(t1, h1, r1, b1) == SignBytes(t2, h2, r2, b2)
    ensures t1 == t2 && h1 == h2 && r1 == r2 && b1 == b2
  {
    SignBytesParts(t1, h1, r1, b1);
    SignBytesParts(t2, h2, r2, b2);
    Pow256Widths();
    LittleEndianInjective(h1, h2, 8);
    LittleEndianInjective(r1, r2, 4);
  }

  /** A signature that verifies on one vote verifies on no vote that differs in what it says. */
  lemma TamperedVoteRejected(v: Vote, w: Vote)
    requires Verifies(v) && w.signature == v.signature
    ensures Verifies(w) <==> w == v
  {
    if Verifies(w) {
      SignBytesInjective(v.voteType, v.height, v.round, v.blockHash,
                         w.voteType, w.height, w.round, w.blockHash);
    }
  }
}
