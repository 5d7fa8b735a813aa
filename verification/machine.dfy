/** The BFT state machine (consensus/bft/src/state_machine.rs).

    `Machine` is the value of a machine and the functions on it are what each handler does;
    `BftStateMachine` is the object whose handlers update fields, proved to do exactly that. */
module Machines {
  import opened Words
  import opened BftTypes
  import opened VoteSets

  datatype Machine = Machine(
    height: Height,
    round: Round,
    step: RoundStep,
    validatorIndex: Option<nat>,
    validators: seq<ValidatorId>,
    proposal: Option<BlockHash>,
    prevotes: Tally,
    precommits: Tally,
    lockedValue: Option<BlockHash>,
    lockedRound: Option<Round>,
    validValue: Option<BlockHash>,
    validRound: Option<Round>,
    proposedBlocks: map<BlockHash, Block>)

  datatype Outcome = Outcome(machine: Machine, out: seq<ConsensusMessage>)

  function NewMachine(h: Height, validators: seq<ValidatorId>, index: Option<nat>): Machine {
    Machine(h, 0, RoundStep.NewRound, index, validators, None,
            EmptyTally(VoteType.Prevote, h, 0, |validators|),
            EmptyTally(VoteType.Precommit, h, 0, |validators|),
            None, None, None, None, map[])
  }

  function StartRound(m: Machine, r: Round): Outcome {
    Outcome(
      m.(round := r,
         step := RoundStep.Propose,
         proposal := None,
         prevotes := EmptyTally(VoteType.Prevote, m.height, r, |m.validators|),
         precommits := EmptyTally(VoteType.Precommit, m.height, r, |m.validators|)),
      [ScheduleTimeout(TimeoutEvent(m.height, r, TimeoutStep.Propose))])
  }

  /** `proposer_index`: plain rotation; the 64-bit sum wraps. */
  function ProposerIndex(validators: seq<ValidatorId>, h: Height, r: Round): nat {
    if |validators| == 0 then 0 else WrapAdd(h, r) % |validators|
  }

  /** The proposal is for this height and round, in the Propose step, from the proposer in
      turn, and any block that came with it has the announced hash. */
  predicate AcceptsProposal(m: Machine, hashOf: Block -> BlockHash, p: Proposal, block: Option<Block>) {
    && p.height == m.height && p.round == m.round
    && m.step == RoundStep.Propose
    && ProposerIndex(m.validators, m.height, m.round) < |m.validators|
    && p.proposer == m.validators[ProposerIndex(m.validators, m.height, m.round)]
    && (block.Some? ==> hashOf(block.value) == p.blockHash)
  }

  /** What a machine that accepts `p` prevotes: a locked machine follows only its lock, or a
      proposal whose valid round is no older than the lock. */
  function PrevoteFor(m: Machine, p: Proposal): Option<BlockHash> {
    if m.lockedValue.None? || m.lockedValue == Some(p.blockHash) then Some(p.blockHash)
    else if p.validRound.Some? && m.lockedRound.Some? && p.validRound.value >= m.lockedRound.value
    then Some(p.blockHash)
    else None
  }

  function OnProposal(m: Machine, hashOf: Block -> BlockHash, p: Proposal, block: Option<Block>): Outcome {
    if !AcceptsProposal(m, hashOf, p, block) then Outcome(m, [])
    else
      Outcome(
        m.(proposedBlocks := if block.Some? then m.proposedBlocks[p.blockHash := block.value] else m.proposedBlocks,
           proposal := Some(p.blockHash),
           step := RoundStep.Prevote),
        [CastVote(Vote(VoteType.Prevote, m.height, m.round, PrevoteFor(m, p), p.proposer, p.signature))])
  }

  /** The prevotes the machine holds once `v` has been offered to it. */
  function PrevotesWith(m: Machine, v: Vote): Tally { m.prevotes.Add(v) }

  function PrecommitsWith(m: Machine, v: Vote): Tally { m.precommits.Add(v) }

  function PrecommitTemplate(m: Machine, b: Option<BlockHash>, v: Vote): ConsensusMessage {
    CastVote(Vote(VoteType.Precommit, m.height, m.round, b, v.validator, v.signature))
  }

  /** The Prevote step of `on_prevote`, once the vote is counted: lock and precommit on a quorum. */
  function OnPrevoteCounted(m: Machine, v: Vote, q: Option<BlockHash>): Outcome {
    if q.Some? then
      Outcome(
        m.(validValue := q, validRound := Some(m.round),
           lockedValue := q, lockedRound := Some(m.round),
           step := RoundStep.Precommit),
        [PrecommitTemplate(m, q, v)])
    else if m.prevotes.HasQuorum(None) then
      Outcome(m.(step := RoundStep.Precommit), [PrecommitTemplate(m, None, v)])
    else if m.prevotes.TwoThirdsAny() then
      Outcome(m, [ScheduleTimeout(TimeoutEvent(m.height, m.round, TimeoutStep.Prevote))])
    else Outcome(m, [])
  }

  /** `on_prevote`, where `q` is the answer of `quorum_block`. */
  function OnPrevote(m: Machine, v: Vote, q: Option<BlockHash>): Outcome {
    if v.height != m.height || v.round != m.round || v.voteType != VoteType.Prevote then Outcome(m, [])
    else
      var m1 := m.(prevotes := PrevotesWith(m, v));
      if m.step == RoundStep.Prevote then OnPrevoteCounted(m1, v, q)
      else if m.step == RoundStep.Precommit && q.Some? then
        Outcome(m1.(validValue := q, validRound := Some(m.round)), [])
      else Outcome(m1, [])
  }

  /** `on_precommit`, where `q` is the answer of `quorum_block`. */
  function OnPrecommit(m: Machine, v: Vote, q: Option<BlockHash>): Outcome {
    if v.height != m.height || v.round != m.round || v.voteType != VoteType.Precommit then Outcome(m, [])
    else
      var m1 := m.(precommits := PrecommitsWith(m, v));
      if q.Some? then
        if m.step != RoundStep.Commit then
          Outcome(m1.(step := RoundStep.Commit), [CommitBlock(m.height, q.value)])
        else Outcome(m1, [])
      else if m1.precommits.TwoThirdsAny() && m.step == RoundStep.Precommit then
        Outcome(m1, [ScheduleTimeout(TimeoutEvent(m.height, m.round, TimeoutStep.Precommit))])
      else Outcome(m1, [])
  }

  const NO_SIGNATURE: seq<byte> := []

  /** The source indexes the first validator of an empty set: its one panic on a timeout. */
  predicate TimeoutPanics(m: Machine, e: TimeoutEvent) {
    && |m.validators| == 0 && m.step == RoundStep.Prevote
    && e == TimeoutEvent(m.height, m.round, TimeoutStep.Prevote)
  }

  /** `on_timeout`; the 32-bit round counter wraps. */
  function OnTimeout(m: Machine, e: TimeoutEvent): Outcome
    requires !TimeoutPanics(m, e)
  {
    if e.height != m.height || e.round != m.round then Outcome(m, [])
    else
      match e.step
      case Propose =>
        if m.step == RoundStep.Propose then
          Outcome(m.(step := RoundStep.Prevote),
                  [ScheduleTimeout(TimeoutEvent(m.height, m.round, TimeoutStep.Prevote))])
        else Outcome(m, [])
      case Prevote =>
        if m.step == RoundStep.Prevote then
          Outcome(m.(step := RoundStep.Precommit),
                  [CastVote(Vote(VoteType.Precommit, m.height, m.round, None, m.validators[0],
                                 Signature(m.validators[0], NO_SIGNATURE)))])
        else Outcome(m, [])
      case Precommit =>
        if m.step == RoundStep.Precommit then StartRound(m, (m.round + 1) % U32_SIZE)
        else Outcome(m, [])
  }

  function AdvanceHeight(m: Machine, h: Height): Outcome {
    StartRound(
      m.(height := h, lockedValue := None, lockedRound := None,
         validValue := None, validRound := None, proposedBlocks := map[]), 0)
  }

  // ---------- the object ----------

  class BftStateMachine {
    const hashOf: Block -> BlockHash
    const validatorIndex: Option<nat>
    const validators: seq<ValidatorId>
    var height: Height
    var round: Round
    var step: RoundStep
    var proposal: Option<BlockHash>
    var prevotes: VoteSet
    var precommits: VoteSet
    var lockedValue: Option<BlockHash>
    var lockedRound: Option<Round>
    var validValue: Option<BlockHash>
    var validRound: Option<Round>
    var proposedBlocks: map<BlockHash, Block>

    ghost predicate Valid()
      reads this, prevotes, precommits
    {
      && prevotes != precommits
      && prevotes.Value().Authentic()
      && precommits.Value().Authentic()
    }

    ghost function Value(): Machine
      reads this, prevotes, precommits
    {
      Machine(height, round, step, validatorIndex, validators, proposal,
              prevotes.Value(), precommits.Value(),
              lockedValue, lockedRound, validValue, validRound, proposedBlocks)
    }

    constructor (h: Height, validators: seq<ValidatorId>, index: Option<nat>, hashOf: Block -> BlockHash)
      ensures Valid() && fresh(prevotes) && fresh(precommits)
      ensures Value() == NewMachine(h, validators, index)
      ensures this.hashOf == hashOf
    {
      this.hashOf := hashOf;
      this.validators, validatorIndex := validators, index;
      height, round, step := h, 0, RoundStep.NewRound;
      proposal, lockedValue, lockedRound, validValue, validRound := None, None, None, None, None;
      proposedBlocks := map[];
      prevotes := new VoteSet(VoteType.Prevote, h, 0, |validators|);
      precommits := new VoteSet(VoteType.Precommit, h, 0, |validators|);
    }

    method StartNewRound(r: Round) returns (out: seq<ConsensusMessage>)
      requires Valid()
      modifies this
      ensures Valid() && fresh(prevotes) && fresh(precommits)
      ensures Outcome(Value(), out) == StartRound(old(Value()), r)
    {
      round := r;
      step := RoundStep.Propose;
      proposal := None;
      prevotes := new VoteSet(VoteType.Prevote, height, r, |validators|);
      precommits := new VoteSet(VoteType.Precommit, height, r, |validators|);
      out := [ScheduleTimeout(TimeoutEvent(height, round, TimeoutStep.Propose))];
    }

    method HandleProposal(p: Proposal, block: Option<Block>) returns (out: seq<ConsensusMessage>)
      requires Valid()
      modifies this
      ensures Valid() && prevotes == old(prevotes) && precommits == old(precommits)
      ensures Outcome(Value(), out) == OnProposal(old(Value()), hashOf, p, block)
    {
      out := [];
      if p.height != height || p.round != round {
        return;
      }
      if step != RoundStep.Propose {
        return;
      }
      var expected := ProposerIndex(validators, height, round);
      if expected >= |validators| {
        return;
      }
      if p.proposer != validators[expected] {
        return;
      }
      if block.Some? {
        if hashOf(block.value) != p.blockHash {
          return;
        }
        proposedBlocks := proposedBlocks[p.blockHash := block.value];
      }
      proposal := Some(p.blockHash);

      var prevoteHash;
      if lockedValue.Some? {
        if p.blockHash == lockedValue.value {
          prevoteHash := Some(p.blockHash);
        } else if p.validRound.Some? && lockedRound.Some? {
          if p.validRound.value >= lockedRound.value {
            prevoteHash := Some(p.blockHash);
          } else {
            prevoteHash := None;
          }
        } else {
          prevoteHash := None;
        }
      } else {
        prevoteHash := Some(p.blockHash);
      }
      step := RoundStep.Prevote;
      out := [CastVote(Vote(VoteType.Prevote, height, round, prevoteHash, p.proposer, p.signature))];
    }

    /** `choice` is what `quorum_block` answered. */
    method HandlePrevote(v: Vote) returns (out: seq<ConsensusMessage>, ghost choice: Option<BlockHash>)
      requires Valid()
      modifies this, prevotes
      ensures Valid() && prevotes == old(prevotes) && precommits == old(precommits)
      ensures PrevotesWith(old(Value()), v).IsQuorumBlock(choice)
      ensures Outcome(Value(), out) == OnPrevote(old(Value()), v, choice)
    {
      out := [];
      choice := SomeQuorumBlock(PrevotesWith(Value(), v));
      if v.height != height || v.round != round {
        return;
      }
      if v.voteType != VoteType.Prevote {
        return;
      }
      var _ := prevotes.AddVote(v);
      if step == RoundStep.Prevote {
        out, choice := DecidePrecommit(v);
      } else if step == RoundStep.Precommit {
        var q := prevotes.QuorumBlock();
        choice := q;
        if q.Some? {
          validValue, validRound := q, Some(round);
        }
      }
    }

    /** The Prevote branch of `on_prevote`, with the new vote already added. */
    method DecidePrecommit(v: Vote) returns (out: seq<ConsensusMessage>, ghost choice: Option<BlockHash>)
      requires Valid() && step == RoundStep.Prevote
      modifies this
      ensures Valid() && prevotes == old(prevotes) && precommits == old(precommits)
      ensures prevotes.Value().IsQuorumBlock(choice)
      ensures Outcome(Value(), out) == OnPrevoteCounted(old(Value()), v, choice)
    {
      out := [];
      var q := prevotes.QuorumBlock();
      choice := q;
      assert old(Value()).prevotes == prevotes.Value();
      if q.Some? {
        validValue, validRound := q, Some(round);
        lockedValue, lockedRound := q, Some(round);
        step := RoundStep.Precommit;
        out := [CastVote(Vote(VoteType.Precommit, height, round, q, v.validator, v.signature))];
        return;
      }
      var nil := prevotes.HasQuorumForNil();
      if nil {
        step := RoundStep.Precommit;
        out := [CastVote(Vote(VoteType.Precommit, height, round, None, v.validator, v.signature))];
        return;
      }
      var any := prevotes.HasTwoThirdsAny();
      if any {
        out := [ScheduleTimeout(TimeoutEvent(height, round, TimeoutStep.Prevote))];
      }
    }

    /** `choice` is what `quorum_block` answered. */
    method HandlePrecommit(v: Vote) returns (out: seq<ConsensusMessage>, ghost choice: Option<BlockHash>)
      requires Valid()
      modifies this, precommits
      ensures Valid() && prevotes == old(prevotes) && precommits == old(precommits)
      ensures PrecommitsWith(old(Value()), v).IsQuorumBlock(choice)
      ensures Outcome(Value(), out) == OnPrecommit(old(Value()), v, choice)
    {
      out := [];
      choice := SomeQuorumBlock(PrecommitsWith(Value(), v));
      if v.height != height || v.round != round {
        return;
      }
      if v.voteType != VoteType.Precommit {
        return;
      }
      var _ := precommits.AddVote(v);
      var q := precommits.QuorumBlock();
      choice := q;
      if q.Some? {
        if step != RoundStep.Commit {
          step := RoundStep.Commit;
          out := [CommitBlock(height, q.value)];
        }
      } else {
        var any := precommits.HasTwoThirdsAny();
        if any && step == RoundStep.Precommit {
          out := [ScheduleTimeout(TimeoutEvent(height, round, TimeoutStep.Precommit))];
        }
      }
    }

    method HandleTimeout(e: TimeoutEvent) returns (out: seq<ConsensusMessage>)
      requires Valid() && !TimeoutPanics(Value(), e)
      modifies this
      ensures Valid()
      ensures prevotes == old(prevotes) || fresh(prevotes)
      ensures precommits == old(precommits) || fresh(precommits)
      ensures Outcome(Value(), out) == OnTimeout(old(Value()), e)
    {
      out := [];
      if e.height != height || e.round != round {
        return;
      }
      match e.step
      case Propose =>
        if step == RoundStep.Propose {
          step := RoundStep.Prevote;
          out := [ScheduleTimeout(TimeoutEvent(height, round, TimeoutStep.Prevote))];
        }
      case Prevote =>
        if step == RoundStep.Prevote {
          step := RoundStep.Precommit;
          out := [CastVote(Vote(VoteType.Precommit, height, round, None, validators[0],
                                Signature(validators[0], NO_SIGNATURE)))];
        }
      case Precommit =>
        if step == RoundStep.Precommit {
          out := StartNewRound((round + 1) % U32_SIZE);
        }
    }

    method AdvanceToHeight(h: Height) returns (out: seq<ConsensusMessage>)
      requires Valid()
      modifies this
      ensures Valid() && fresh(prevotes) && fresh(precommits)
      ensures Outcome(Value(), out) == AdvanceHeight(old(Value()), h)
    {
      height := h;
      lockedValue, lockedRound, validValue, validRound := None, None, None, None;
      proposedBlocks := map[];
      out := StartNewRound(0);
    }
  }

  lemma SomeQuorumBlock(vs: Tally) returns (q: Option<BlockHash>)
    ensures vs.IsQuorumBlock(q)
  {
    if h: BlockHash :| vs.HasQuorum(Some(h)) {
      q := Some(h);
    } else {
      q := None;
    }
  }
}
