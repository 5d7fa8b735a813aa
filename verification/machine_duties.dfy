/** What a machine has to do: when it must vote, lock, commit, wait and move on, told by what it has said and
    counted before (consensus/bft/src/state_machine.rs). */
module MachineDuties {
  import opened Words
  import opened BftTypes
  import opened VoteSets
  import opened Machines
  import opened MachineRuns

  // ---------- answering a proposal ----------

  predicate NonNilPrecommit(e: Emission, h: Height) {
    e.phase == RoundStep.Precommit && e.hash.Some? && e.height == h
  }

  /** The latest of its non-nil precommits at this height. */
  ghost predicate LastPrecommit(said: seq<Emission>, h: Height, e: Emission) {
    e in said && NonNilPrecommit(e, h) && forall x :: x in said && NonNilPrecommit(x, h) ==> x.round <= e.round
  }

  /** The lock is where the latest non-nil precommit of this height put it. */
  ghost predicate LockTold(m: Machine, said: seq<Emission>) {
    && (m.lockedValue.Some? <==> m.lockedRound.Some?)
    && (m.lockedRound.Some? ==> LastPrecommit(said, m.height, Emission(RoundStep.Precommit, m.height, m.lockedRound.value, m.lockedValue)))
    && (m.lockedRound.None? ==> forall e :: e in said ==> !NonNilPrecommit(e, m.height))
  }

  lemma LockToldStep(h: History, n: Machine, said: seq<Emission>)
    requires Ordered(h) && LockTold(h.machine, h.said) && LockStep(h.machine, n, said)
    requires !Before(PositionOf(n), PositionOf(h.machine))
    ensures LockTold(n, h.said + said)
  {
    var m := h.machine;
    assert forall e :: e in h.said ==> Precedes(e, m);
    if said == [] {
      assert h.said + said == h.said;
    } else {
      assert forall e :: e in h.said + said <==> e in h.said || e == said[0];
    }
  }

  /** Over every run from an unlocked machine. */
  lemma {:induction false} LockIsTold(hashOf: Block -> BlockHash, m: Machine, events: seq<Event>)
    requires MachineInv(m, hashOf) && m.lockedValue.None? && Run(hashOf, m, events).Some?
    ensures var r := Run(hashOf, m, events).value; LockTold(r.machine, r.said)
    decreases |events|
  {
    if events != [] {
      var last := |events| - 1;
      LockIsTold(hashOf, m, events[..last]);
      RunOrdered(hashOf, m, events[..last]);
      var before := Run(hashOf, m, events[..last]).value;
      StepLock(hashOf, before.machine, events[last]);
      StepForward(hashOf, before.machine, events[last]);
      var o := Apply(hashOf, before.machine, events[last]);
      LockToldStep(before, o.machine, EmissionsOf(before.machine.round, o.out));
    }
  }

  /** The machine's latest non-nil precommit of this height stands against `p`: it is for another hash, and `p` does
      not claim a valid round as late. */
  ghost predicate Overruled(said: seq<Emission>, h: Height, p: Proposal) {
    exists e :: LastPrecommit(said, h, e) && e.hash != Some(p.blockHash)
                && (p.validRound.None? || p.validRound.value < e.round)
  }

  /** `p` is for this very round, in time, from the validator whose turn it is, and its block, if it came, is the
      one announced. */
  predicate InTurn(m: Machine, hashOf: Block -> BlockHash, p: Proposal, block: Option<Block>) {
    && p.height == m.height && p.round == m.round && m.step == RoundStep.Propose
    && |m.validators| > 0 && p.proposer == m.validators[(m.height + m.round) % U64_SIZE % |m.validators|]
    && (block.Some? ==> hashOf(block.value) == p.blockHash)
  }

  lemma InTurnIsAccepted(m: Machine, hashOf: Block -> BlockHash, p: Proposal, block: Option<Block>)
    ensures InTurn(m, hashOf, p, block) <==> AcceptsProposal(m, hashOf, p, block)
  {
  }

  lemma OverruledIff(hashOf: Block -> BlockHash, m: Machine, events: seq<Event>, p: Proposal)
    requires MachineInv(m, hashOf) && m.lockedValue.None? && Run(hashOf, m, events).Some?
    ensures var r := Run(hashOf, m, events).value;
            PrevoteFor(r.machine, p) == if Overruled(r.said, r.machine.height, p) then None else Some(p.blockHash)
  {
    LockIsTold(hashOf, m, events);
    var r := Run(hashOf, m, events).value;
    var n := r.machine;
    if n.lockedRound.Some? {
      var lock := Emission(RoundStep.Precommit, n.height, n.lockedRound.value, n.lockedValue);
      forall e | LastPrecommit(r.said, n.height, e) ensures e == lock {
        var i, j :| 0 <= i < |r.said| && r.said[i] == e && 0 <= j < |r.said| && r.said[j] == lock;
        SaidOnce(hashOf, m, events, i, j);
      }
    }
  }

  /** Over every run from an unlocked machine: a proposal in turn is answered with exactly one prevote, for its hash
      unless the machine's own latest precommit overrules it; any other proposal is ignored. */
  lemma ProposalAnswered(hashOf: Block -> BlockHash, m: Machine, events: seq<Event>, p: Proposal, block: Option<Block>)
    requires MachineInv(m, hashOf) && m.lockedValue.None? && Run(hashOf, m, events).Some?
    ensures var r := Run(hashOf, m, events).value;
            var n, o := r.machine, OnProposal(r.machine, hashOf, p, block);
            if InTurn(n, hashOf, p, block)
            then && EmissionsOf(n.round, o.out)
                    == [Emission(RoundStep.Prevote, n.height, n.round,
                                 if Overruled(r.said, n.height, p) then None else Some(p.blockHash))]
                 && o.machine.step == RoundStep.Prevote
                 && (block.Some? ==> p.blockHash in o.machine.proposedBlocks && o.machine.proposedBlocks[p.blockHash] == block.value)
            else o.out == [] && o.machine == n
  {
    var n := Run(hashOf, m, events).value.machine;
    InTurnIsAccepted(n, hashOf, p, block);
    OverruledIff(hashOf, m, events, p);
    if InTurn(n, hashOf, p, block) {
      assert OnProposal(n, hashOf, p, block).out[1..] == [];
    }
  }

  // ---------- counting votes ----------

  ghost predicate SomeBlockHas(vs: Tally) { exists b: BlockHash :: MoreThanTwoThirds(|vs.Supporters(Some(b))|, vs.total) }

  predicate IsFor(m: Machine, v: Vote, t: VoteType) { v.height == m.height && v.round == m.round && v.voteType == t }

  /** The answer to a prevote of this round while prevoting: with enough prevotes for a block, lock on such a block and
      precommit it; else with enough for nil, precommit nil and keep the lock; else with enough in all, start the
      prevote timeout; else wait. */
  lemma PrevoteAnswered(m: Machine, v: Vote, q: Option<BlockHash>)
    requires m.step == RoundStep.Prevote && IsFor(m, v, VoteType.Prevote) && PrevotesWith(m, v).IsQuorumBlock(q)
    ensures var vs, o := m.prevotes.Add(v), OnPrevote(m, v, q);
            var said, n := EmissionsOf(m.round, o.out), o.machine;
            && n.prevotes == vs
            && if SomeBlockHas(vs) then
                 && q.Some? && MoreThanTwoThirds(|vs.Supporters(q)|, vs.total)
                 && said == [Emission(RoundStep.Precommit, m.height, m.round, q)] && n.step == RoundStep.Precommit
                 && n.lockedValue == n.validValue == q && n.lockedRound == n.validRound == Some(m.round)
               else
                 && n.lockedValue == m.lockedValue && n.lockedRound == m.lockedRound
                 && n.validValue == m.validValue && n.validRound == m.validRound
                 && if MoreThanTwoThirds(|vs.Supporters(None)|, vs.total) then
                      said == [Emission(RoundStep.Precommit, m.height, m.round, None)] && n.step == RoundStep.Precommit
                    else if MoreThanTwoThirds(|vs.votes|, vs.total) then
                      o.out == [ScheduleTimeout(TimeoutEvent(m.height, m.round, TimeoutStep.Prevote))] && n.step == RoundStep.Prevote
                    else o.out == [] && n.step == RoundStep.Prevote
  {
    var o := OnPrevote(m, v, q);
    BlockAnswer(m.prevotes.Add(v), q);
    if |o.out| == 1 {
      assert o.out[1..] == [];
    }
  }

  lemma BlockAnswer(vs: Tally, q: Option<BlockHash>)
    requires vs.IsQuorumBlock(q)
    ensures q.Some? <==> SomeBlockHas(vs)
    ensures q.Some? ==> MoreThanTwoThirds(|vs.Supporters(q)|, vs.total)
  {
    if q.Some? {
      assert MoreThanTwoThirds(|vs.Supporters(Some(q.value))|, vs.total);
    }
    if SomeBlockHas(vs) {
      var b: BlockHash :| MoreThanTwoThirds(|vs.Supporters(Some(b))|, vs.total);
      assert vs.HasQuorum(Some(b));
    }
  }

  /** After precommitting, a late quorum of prevotes still moves the valid value, and nothing else. */
  lemma LatePrevoteAnswered(m: Machine, v: Vote, q: Option<BlockHash>)
    requires m.step != RoundStep.Prevote && IsFor(m, v, VoteType.Prevote) && PrevotesWith(m, v).IsQuorumBlock(q)
    ensures var vs, o := m.prevotes.Add(v), OnPrevote(m, v, q);
            && o.out == []
            && o.machine == if m.step == RoundStep.Precommit && SomeBlockHas(vs)
                            then m.(prevotes := vs, validValue := q, validRound := Some(m.round)) else m.(prevotes := vs)
  {
    BlockAnswer(m.prevotes.Add(v), q);
  }

  /** The answer to a precommit of this round: with enough precommits for a block, commit it, once; else, while
      precommitting and with enough in all, start the precommit timeout; else wait. */
  lemma PrecommitAnswered(m: Machine, v: Vote, q: Option<BlockHash>)
    requires IsFor(m, v, VoteType.Precommit) && PrecommitsWith(m, v).IsQuorumBlock(q)
    ensures var vs, o := m.precommits.Add(v), OnPrecommit(m, v, q);
            if SomeBlockHas(vs) then
              && q.Some? && MoreThanTwoThirds(|vs.Supporters(q)|, vs.total)
              && o.machine == m.(precommits := vs, step := RoundStep.Commit)
              && o.out == if m.step == RoundStep.Commit then [] else [CommitBlock(m.height, q.value)]
            else
              && o.machine == m.(precommits := vs)
              && o.out == if m.step == RoundStep.Precommit && MoreThanTwoThirds(|vs.votes|, vs.total)
                          then [ScheduleTimeout(TimeoutEvent(m.height, m.round, TimeoutStep.Precommit))] else []
  {
    BlockAnswer(m.precommits.Add(v), q);
  }

  /** A vote of another height, round or type is ignored. */
  lemma ForeignVoteIgnored(m: Machine, v: Vote, q: Option<BlockHash>)
    ensures !IsFor(m, v, VoteType.Prevote) ==> OnPrevote(m, v, q) == Outcome(m, [])
    ensures !IsFor(m, v, VoteType.Precommit) ==> OnPrecommit(m, v, q) == Outcome(m, [])
  {
  }

  // ---------- moving on ----------

  function TimeoutOf(m: Machine, step: TimeoutStep): Event { TimeoutIn(TimeoutEvent(m.height, m.round, step)) }

  lemma SilentSteps(hashOf: Block -> BlockHash, m: Machine)
    requires m.step == RoundStep.Propose && |m.validators| > 0 && m.round + 1 < U32_SIZE
    ensures var m1, m2 := m.(step := RoundStep.Prevote), m.(step := RoundStep.Precommit);
            && Steps(hashOf, m, TimeoutOf(m, TimeoutStep.Propose), m1, [])
            && Steps(hashOf, m1, TimeoutOf(m, TimeoutStep.Prevote), m2, [Emission(RoundStep.Precommit, m.height, m.round, None)])
            && Steps(hashOf, m2, TimeoutOf(m, TimeoutStep.Precommit), StartRound(m, m.round + 1).machine, [])
  {
  }

  /** A machine that hears nothing gets from one round to the next by its three timeouts, saying only a nil precommit. */
  lemma SilenceLeadsToNextRound(hashOf: Block -> BlockHash, m: Machine)
    requires m.step == RoundStep.Propose && |m.validators| > 0 && m.round + 1 < U32_SIZE
    ensures RunsTo(hashOf, m, [TimeoutOf(m, TimeoutStep.Propose)] + [TimeoutOf(m, TimeoutStep.Prevote)] + [TimeoutOf(m, TimeoutStep.Precommit)],
                   StartRound(m, m.round + 1).machine, [Emission(RoundStep.Precommit, m.height, m.round, None)])
  {
    var a, b, c := TimeoutOf(m, TimeoutStep.Propose), TimeoutOf(m, TimeoutStep.Prevote), TimeoutOf(m, TimeoutStep.Precommit);
    var m1, m2 := m.(step := RoundStep.Prevote), m.(step := RoundStep.Precommit);
    var nil := [Emission(RoundStep.Precommit, m.height, m.round, None)];
    SilentSteps(hashOf, m);
    assert RunsTo(hashOf, m, [], m, []);
    RunOneMore(hashOf, m, [], a, m, [], m1, []);
    assert [] + [a] == [a];
    RunOneMore(hashOf, m, [a], b, m1, [], m2, nil);
    assert [] + nil == nil;
    RunOneMore(hashOf, m, [a] + [b], c, m2, nil, StartRound(m, m.round + 1).machine, []);
    assert nil + [] == nil;
  }

  /** A round starts with empty tallies and no proposal, and takes lock, valid value and blocks along. */
  lemma RoundStartsEmpty(m: Machine, r: Round)
    ensures var n := StartRound(m, r).machine;
            && n.height == m.height && n.round == r && n.step == RoundStep.Propose && n.proposal.None?
            && n.validators == m.validators && n.validatorIndex == m.validatorIndex
            && n.lockedValue == m.lockedValue && n.lockedRound == m.lockedRound
            && n.validValue == m.validValue && n.validRound == m.validRound && n.proposedBlocks == m.proposedBlocks
            && n.prevotes.votes == map[] && n.precommits.votes == map[]
            && n.prevotes.total == n.precommits.total == |m.validators|
  {
  }

  /** The timeouts a machine asks for as it moves: one for the proposal on entering a round, one for the prevotes if no
      proposal came. */
  lemma TimeoutsAsked(hashOf: Block -> BlockHash, m: Machine, r: Round)
    ensures StartRound(m, r).out == [ScheduleTimeout(TimeoutEvent(m.height, r, TimeoutStep.Propose))]
    ensures m.step == RoundStep.Propose && |m.validators| > 0 ==>
      OnTimeout(m, TimeoutEvent(m.height, m.round, TimeoutStep.Propose)).out
      == [ScheduleTimeout(TimeoutEvent(m.height, m.round, TimeoutStep.Prevote))]
    ensures m.step == RoundStep.Precommit && m.round + 1 < U32_SIZE && |m.validators| > 0 ==>
      OnTimeout(m, TimeoutEvent(m.height, m.round, TimeoutStep.Precommit)).out
      == [ScheduleTimeout(TimeoutEvent(m.height, m.round + 1, TimeoutStep.Propose))]
  {
  }

  /** A timeout of another height or round, or of a step the machine is not in, is ignored. */
  lemma StaleTimeoutIgnored(m: Machine, e: TimeoutEvent)
    requires |m.validators| > 0
    requires e.height != m.height || e.round != m.round
             || (e.step.Propose? && m.step != RoundStep.Propose)
             || (e.step.Prevote? && m.step != RoundStep.Prevote)
             || (e.step.Precommit? && m.step != RoundStep.Precommit)
    ensures OnTimeout(m, e) == Outcome(m, [])
  {
  }

  /** A new height starts from nothing. */
  lemma AdvanceStartsFresh(m: Machine, h: Height)
    ensures AdvanceHeight(m, h).machine == StartRound(NewMachine(h, m.validators, m.validatorIndex), 0).machine
  {
  }

  /** A block that came with an accepted proposal can be had, by its hash, until the height advances. */
  lemma {:induction false} BlockIsKept(hashOf: Block -> BlockHash, m: Machine, events: seq<Event>, b: BlockHash)
    requires MachineInv(m, hashOf) && Run(hashOf, m, events).Some? && b in m.proposedBlocks
    requires Run(hashOf, m, events).value.machine.height == m.height
    ensures var n := Run(hashOf, m, events).value.machine;
            b in n.proposedBlocks && hashOf(n.proposedBlocks[b]) == b
    decreases |events|
  {
    RunOrdered(hashOf, m, events);
    if events != [] {
      var last := |events| - 1;
      RunOrdered(hashOf, m, events[..last]);
      var before := Run(hashOf, m, events[..last]).value;
      StepForward(hashOf, before.machine, events[last]);
      BlockIsKept(hashOf, m, events[..last], b);
      StepKeepsBlocks(hashOf, before.machine, events[last], b);
    }
  }

  lemma StepKeepsBlocks(hashOf: Block -> BlockHash, m: Machine, e: Event, b: BlockHash)
    requires Allowed(m, e) && !e.Advance? && b in m.proposedBlocks
    ensures b in Apply(hashOf, m, e).machine.proposedBlocks
  {
  }
}
