/** Every run of one machine: events in any order, nothing assumed about who sent them. */
module MachineRuns {
  import opened Words
  import opened BftTypes
  import opened VoteSets
  import opened Machines

  datatype Event =
    | Start
    | ProposalIn(p: Proposal, block: Option<Block>)
    | PrevoteIn(vote: Vote, q: Option<BlockHash>)
    | PrecommitIn(vote: Vote, q: Option<BlockHash>)
    | TimeoutIn(event: TimeoutEvent)
    | Advance

  /** How the caller drives the machine: round 0 is started once, quorum answers are genuine,
      and the height moves on by one, only after the machine's own commit. */
  ghost predicate Allowed(m: Machine, e: Event) {
    match e
    case Start => m.step == RoundStep.NewRound && m.round == 0
    case ProposalIn(_, _) => true
    case PrevoteIn(v, q) => PrevotesWith(m, v).IsQuorumBlock(q)
    case PrecommitIn(v, q) => PrecommitsWith(m, v).IsQuorumBlock(q)
    case TimeoutIn(event) => !TimeoutPanics(m, event)
    case Advance => m.step == RoundStep.Commit && m.height < U64_MAX
  }

  /** The event makes the 32-bit round counter wrap. */
  predicate WrapsRound(m: Machine, e: Event) {
    && e.TimeoutIn? && e.event == TimeoutEvent(m.height, m.round, TimeoutStep.Precommit)
    && m.step == RoundStep.Precommit && m.round == U32_SIZE - 1
  }

  ghost function Apply(hashOf: Block -> BlockHash, m: Machine, e: Event): Outcome
    requires Allowed(m, e)
  {
    match e
    case Start => StartRound(m, 0)
    case ProposalIn(p, block) => OnProposal(m, hashOf, p, block)
    case PrevoteIn(v, q) => OnPrevote(m, v, q)
    case PrecommitIn(v, q) => OnPrecommit(m, v, q)
    case TimeoutIn(event) => OnTimeout(m, event)
    case Advance => AdvanceHeight(m, m.height + 1)
  }

  // ---------- positions ----------

  function StepIndex(s: RoundStep): nat {
    match s
    case NewRound => 0
    case Propose => 1
    case Prevote => 2
    case Precommit => 3
    case Commit => 4
  }

  datatype Position = Position(height: nat, round: nat, step: nat)

  /** Lexicographic order on (height, round, step). */
  predicate Before(a: Position, b: Position) {
    || a.height < b.height
    || (a.height == b.height && a.round < b.round)
    || (a.height == b.height && a.round == b.round && a.step < b.step)
  }

  function PositionOf(m: Machine): Position { Position(m.height, m.round, StepIndex(m.step)) }

  /** Something the machine said that cannot be taken back: a prevote, a precommit or a commit. */
  datatype Emission = Emission(phase: RoundStep, height: Height, round: Round, hash: Option<BlockHash>)

  function At(e: Emission): Position { Position(e.height, e.round, StepIndex(e.phase)) }

  /** The emissions among the messages the machine returned while in round `r`. */
  function EmissionsOf(r: Round, out: seq<ConsensusMessage>): seq<Emission> {
    if out == [] then []
    else
      (match out[0]
       case CastVote(v) =>
         [Emission(if v.voteType.Prevote? then RoundStep.Prevote else RoundStep.Precommit, v.height, v.round, v.blockHash)]
       case CommitBlock(h, b) => [Emission(RoundStep.Commit, h, r, Some(b))]
       case _ => [])
      + EmissionsOf(r, out[1..])
  }

  /** Lock and valid value are set together with their rounds, never ahead of the round, and a
      value taken in the current round has its prevote quorum in hand. */
  ghost predicate LockInv(m: Machine) {
    && (m.lockedValue.Some? <==> m.lockedRound.Some?)
    && (m.validValue.Some? <==> m.validRound.Some?)
    && (m.lockedRound.Some? ==> m.validRound.Some? && m.lockedRound.value <= m.validRound.value)
    && (m.validRound.Some? ==> m.validRound.value <= m.round)
    && (m.validRound == Some(m.round) ==> StepIndex(m.step) >= 3 && m.prevotes.HasQuorum(m.validValue))
    && (m.lockedRound == Some(m.round) ==> m.prevotes.HasQuorum(m.lockedValue))
  }

  /** The tallies hold authentic votes of the current height and round, counted against N. */
  ghost predicate TallyInv(m: Machine) {
    && m.prevotes.Authentic() && m.precommits.Authentic()
    && Collects(m, m.prevotes, VoteType.Prevote) && Collects(m, m.precommits, VoteType.Precommit)
  }

  ghost predicate Collects(m: Machine, vs: Tally, t: VoteType) {
    vs.voteType == t && vs.height == m.height && vs.round == m.round && vs.total == |m.validators|
  }

  /** A cached block is filed under its own hash. */
  ghost predicate BlocksInv(m: Machine, hashOf: Block -> BlockHash) {
    forall h :: h in m.proposedBlocks ==> hashOf(m.proposedBlocks[h]) == h
  }

  /** What every step keeps true of the machine on its own. */
  ghost predicate MachineInv(m: Machine, hashOf: Block -> BlockHash) {
    LockInv(m) && TallyInv(m) && BlocksInv(m, hashOf)
  }

  // ---------- one step ----------

  /** The lock and what was said under it, across one step. */
  ghost predicate LockStep(m: Machine, n: Machine, said: seq<Emission>) {
    && |said| <= 1
    && (said == [] && n.height == m.height ==> n.lockedValue == m.lockedValue && n.lockedRound == m.lockedRound)
    && (said != [] ==>
          var s := said[0];
          && s.height == m.height == n.height && s.round == m.round == n.round
          && StepIndex(m.step) < StepIndex(s.phase) && s.phase == n.step
          && (s.phase == RoundStep.Precommit && s.hash.Some? ==>
                && n.lockedValue == s.hash && n.lockedRound == Some(s.round)
                && n.prevotes.HasQuorum(s.hash))
          && (!(s.phase == RoundStep.Precommit && s.hash.Some?) ==>
                n.lockedValue == m.lockedValue && n.lockedRound == m.lockedRound)
          && (s.phase == RoundStep.Commit ==> s.hash.Some? && n.precommits.HasQuorum(s.hash)))
    && (n.height != m.height ==> m.step == RoundStep.Commit && n.lockedValue == None && n.lockedRound == None)
    && (m.step == RoundStep.Commit && n.height == m.height ==> n.step == RoundStep.Commit)
    && n.validators == m.validators
  }

  lemma {:induction false} PrevoteStepLock(m: Machine, v: Vote, q: Option<BlockHash>)
    requires PrevotesWith(m, v).IsQuorumBlock(q)
    ensures var r := OnPrevote(m, v, q);
            LockStep(m, r.machine, EmissionsOf(m.round, r.out))
  {
    var r := OnPrevote(m, v, q);
    assert r.out == [] || r.out[1..] == [];
  }

  lemma {:induction false} StepLock(hashOf: Block -> BlockHash, m: Machine, e: Event)
    requires Allowed(m, e)
    ensures var r := Apply(hashOf, m, e);
            LockStep(m, r.machine, EmissionsOf(m.round, r.out))
  {
    match e
    case Start => var r := StartRound(m, 0); assert r.out[1..] == [];
    case ProposalIn(p, block) => var r := OnProposal(m, hashOf, p, block); assert r.out == [] || r.out[1..] == [];
    case PrevoteIn(v, q) => PrevoteStepLock(m, v, q);
    case PrecommitIn(v, q) => var r := OnPrecommit(m, v, q); assert r.out == [] || r.out[1..] == [];
    case TimeoutIn(event) => var r := OnTimeout(m, event); assert r.out == [] || r.out[1..] == [];
    case Advance => var r := AdvanceHeight(m, m.height + 1); assert r.out[1..] == [];
  }

  /** Votes never move the machine to another height or round, nor to an earlier step. */
  lemma VoteForward(m: Machine, v: Vote, q: Option<BlockHash>)
    ensures var n := OnPrevote(m, v, q).machine;
            n.height == m.height && n.round == m.round && StepIndex(n.step) >= StepIndex(m.step)
    ensures var n := OnPrecommit(m, v, q).machine;
            n.height == m.height && n.round == m.round && StepIndex(n.step) >= StepIndex(m.step)
  {
  }

  lemma TimeoutForward(m: Machine, event: TimeoutEvent)
    requires !TimeoutPanics(m, event)
    ensures var n := OnTimeout(m, event).machine;
            (PositionOf(n) == PositionOf(m) || Before(PositionOf(m), PositionOf(n))) <==> !WrapsRound(m, TimeoutIn(event))
  {
  }

  /** A step moves (height, round, step) forward or leaves it; the one exception is the
      precommit timeout of the last 32-bit round. */
  lemma StepForward(hashOf: Block -> BlockHash, m: Machine, e: Event)
    requires Allowed(m, e)
    ensures var n := Apply(hashOf, m, e).machine;
            (PositionOf(n) == PositionOf(m) || Before(PositionOf(m), PositionOf(n))) <==> !WrapsRound(m, e)
  {
    match e
    case PrevoteIn(v, q) => VoteForward(m, v, q);
    case PrecommitIn(v, q) => VoteForward(m, v, q);
    case TimeoutIn(event) => TimeoutForward(m, event);
    case _ =>
  }

  lemma AddKeepsQuorum(vs: Tally, v: Vote, b: Option<BlockHash>)
    requires vs.HasQuorum(b)
    ensures vs.Add(v).HasQuorum(b)
  {
    assert vs.Supporters(b) <= vs.Add(v).Supporters(b);
    SubsetSize(vs.Supporters(b), vs.Add(v).Supporters(b));
  }

  lemma PrevoteLockInv(m: Machine, v: Vote, q: Option<BlockHash>)
    requires LockInv(m) && PrevotesWith(m, v).IsQuorumBlock(q)
    ensures LockInv(OnPrevote(m, v, q).machine)
  {
    if m.lockedRound == Some(m.round) {
      AddKeepsQuorum(m.prevotes, v, m.lockedValue);
    }
    if m.validRound == Some(m.round) {
      AddKeepsQuorum(m.prevotes, v, m.validValue);
    }
  }

  lemma TimeoutLockInv(m: Machine, event: TimeoutEvent)
    requires LockInv(m) && !TimeoutPanics(m, event) && !WrapsRound(m, TimeoutIn(event))
    ensures LockInv(OnTimeout(m, event).machine)
  {
  }

  lemma StepLockInv(hashOf: Block -> BlockHash, m: Machine, e: Event)
    requires LockInv(m) && Allowed(m, e) && !WrapsRound(m, e)
    ensures LockInv(Apply(hashOf, m, e).machine)
  {
    match e
    case PrevoteIn(v, q) => PrevoteLockInv(m, v, q);
    case TimeoutIn(event) => TimeoutLockInv(m, event);
    case Start => assert LockInv(StartRound(m, 0).machine);
    case ProposalIn(p, block) => assert LockInv(OnProposal(m, hashOf, p, block).machine);
    case PrecommitIn(v, q) => assert LockInv(OnPrecommit(m, v, q).machine);
    case Advance => assert LockInv(AdvanceHeight(m, m.height + 1).machine);
  }

  lemma AddKeeps(m: Machine, vs: Tally, v: Vote)
    requires vs.Authentic() && Collects(m, vs, vs.voteType)
    ensures vs.Add(v).Authentic() && Collects(m, vs.Add(v), vs.voteType)
  {
  }

  /** The tallies after a step: as before, with the new vote offered, or emptied for a new round. */
  ghost predicate TalliesMoved(m: Machine, n: Machine, e: Event) {
    || (n.height == m.height && n.round == m.round
        && n.prevotes in {m.prevotes, if e.PrevoteIn? then m.prevotes.Add(e.vote) else m.prevotes}
        && n.precommits in {m.precommits, if e.PrecommitIn? then m.precommits.Add(e.vote) else m.precommits})
    || (n.prevotes == EmptyTally(VoteType.Prevote, n.height, n.round, |m.validators|)
        && n.precommits == EmptyTally(VoteType.Precommit, n.height, n.round, |m.validators|))
  }

  lemma PrevoteTallies(m: Machine, v: Vote, q: Option<BlockHash>)
    ensures TalliesMoved(m, OnPrevote(m, v, q).machine, PrevoteIn(v, q))
  {
  }

  lemma PrecommitTallies(m: Machine, v: Vote, q: Option<BlockHash>)
    ensures TalliesMoved(m, OnPrecommit(m, v, q).machine, PrecommitIn(v, q))
  {
  }

  lemma TimeoutTallies(m: Machine, event: TimeoutEvent)
    requires !TimeoutPanics(m, event)
    ensures TalliesMoved(m, OnTimeout(m, event).machine, TimeoutIn(event))
  {
  }

  lemma StepTallies(hashOf: Block -> BlockHash, m: Machine, e: Event)
    requires Allowed(m, e)
    ensures TalliesMoved(m, Apply(hashOf, m, e).machine, e)
  {
    match e
    case PrevoteIn(v, q) => PrevoteTallies(m, v, q);
    case PrecommitIn(v, q) => PrecommitTallies(m, v, q);
    case TimeoutIn(event) => TimeoutTallies(m, event);
    case _ =>
  }

  lemma TalliesKeepInv(m: Machine, n: Machine, e: Event)
    requires TallyInv(m) && n.validators == m.validators && TalliesMoved(m, n, e)
    ensures TallyInv(n)
  {
    if e.PrevoteIn? {
      AddKeeps(m, m.prevotes, e.vote);
    }
    if e.PrecommitIn? {
      AddKeeps(m, m.precommits, e.vote);
    }
  }

  lemma StepBlocks(hashOf: Block -> BlockHash, m: Machine, e: Event)
    requires BlocksInv(m, hashOf) && Allowed(m, e)
    ensures BlocksInv(Apply(hashOf, m, e).machine, hashOf)
  {
  }

  lemma StepInv(hashOf: Block -> BlockHash, m: Machine, e: Event)
    requires MachineInv(m, hashOf) && Allowed(m, e) && !WrapsRound(m, e)
    ensures MachineInv(Apply(hashOf, m, e).machine, hashOf)
  {
    var n := Apply(hashOf, m, e).machine;
    assert LockInv(n) by { StepLockInv(hashOf, m, e); }
    assert TallyInv(n) by {
      StepTallies(hashOf, m, e);
      StepLock(hashOf, m, e);
      TalliesKeepInv(m, n, e);
    }
    assert BlocksInv(n, hashOf) by { StepBlocks(hashOf, m, e); }
  }

  lemma NewMachineInv(hashOf: Block -> BlockHash, h: Height, validators: seq<ValidatorId>, index: Option<nat>)
    ensures MachineInv(NewMachine(h, validators, index), hashOf)
  {
  }

  // ---------- whole runs ----------

  datatype History = History(machine: Machine, said: seq<Emission>)

  /** The machine and everything it has said after `events`. */
  ghost function Run(hashOf: Block -> BlockHash, m: Machine, events: seq<Event>): (r: Option<History>) {
    if events == [] then Some(History(m, []))
    else
      var last := |events| - 1;
      var before := Run(hashOf, m, events[..last]);
      if before.None? || !Allowed(before.value.machine, events[last]) || WrapsRound(before.value.machine, events[last])
      then None
      else
        var o := Apply(hashOf, before.value.machine, events[last]);
        Some(History(o.machine, before.value.said + EmissionsOf(before.value.machine.round, o.out)))
  }

  /** The event is possible and leads to `n`, saying `said`. */
  ghost predicate Steps(hashOf: Block -> BlockHash, m: Machine, e: Event, n: Machine, said: seq<Emission>) {
    Allowed(m, e) && !WrapsRound(m, e) && Apply(hashOf, m, e).machine == n && EmissionsOf(m.round, Apply(hashOf, m, e).out) == said
  }

  ghost predicate RunsTo(hashOf: Block -> BlockHash, m: Machine, events: seq<Event>, n: Machine, said: seq<Emission>) {
    Run(hashOf, m, events) == Some(History(n, said))
  }

  lemma {:induction false} RunOneMore(
    hashOf: Block -> BlockHash, m: Machine, events: seq<Event>, e: Event,
    before: Machine, said: seq<Emission>, after: Machine, more: seq<Emission>)
    requires RunsTo(hashOf, m, events, before, said) && Steps(hashOf, before, e, after, more)
    ensures RunsTo(hashOf, m, events + [e], after, said + more)
  {
    assert (events + [e])[..|events|] == events;
  }

  /** `b` may be said after `a`: later, and not at a height that `a` closed. */
  predicate Follows(a: Emission, b: Emission) {
    Before(At(a), At(b)) && (a.phase == RoundStep.Commit ==> a.height < b.height)
  }

  /** `e` lies behind the machine; a commit leaves it in the Commit step until the height moves. */
  predicate Precedes(e: Emission, m: Machine) {
    && !Before(PositionOf(m), At(e))
    && (e.phase == RoundStep.Commit ==>
          e.height < m.height || (e.height == m.height && m.step == RoundStep.Commit))
  }

  ghost predicate Ordered(h: History) {
    && (forall i, j :: 0 <= i < j < |h.said| ==> Follows(h.said[i], h.said[j]))
    && (forall i :: 0 <= i < |h.said| ==> Precedes(h.said[i], h.machine))
  }

  lemma StepPrecedes(e: Emission, m: Machine, n: Machine, said: seq<Emission>)
    requires Precedes(e, m) && LockStep(m, n, said) && !Before(PositionOf(n), PositionOf(m))
    ensures Precedes(e, n)
    ensures said != [] ==> Follows(e, said[0]) && Precedes(said[0], n)
  {
  }

  lemma OrderedStep(h: History, n: Machine, said: seq<Emission>)
    requires Ordered(h) && LockStep(h.machine, n, said)
    requires !Before(PositionOf(n), PositionOf(h.machine))
    ensures Ordered(History(n, h.said + said))
  {
    forall i | 0 <= i < |h.said|
      ensures Precedes(h.said[i], n) && (said != [] ==> Follows(h.said[i], said[0]))
    {
      StepPrecedes(h.said[i], h.machine, n, said);
    }
    assert |said| <= 1;
    assert said != [] ==> Precedes(said[0], n);
  }

  /** Monotone progress and uniqueness: over any run the emissions are strictly increasing in
      (height, round, phase), and nothing at or below a height follows its commit. */
  lemma {:induction false} RunOrdered(hashOf: Block -> BlockHash, m: Machine, events: seq<Event>)
    requires MachineInv(m, hashOf) && Run(hashOf, m, events).Some?
    ensures var r := Run(hashOf, m, events).value;
            && Ordered(r)
            && MachineInv(r.machine, hashOf)
            && !Before(PositionOf(r.machine), PositionOf(m))
    decreases |events|
  {
    if events != [] {
      var last := |events| - 1;
      RunOrdered(hashOf, m, events[..last]);
      var before := Run(hashOf, m, events[..last]).value;
      StepLock(hashOf, before.machine, events[last]);
      StepForward(hashOf, before.machine, events[last]);
      StepInv(hashOf, before.machine, events[last]);
      var o := Apply(hashOf, before.machine, events[last]);
      OrderedStep(before, o.machine, EmissionsOf(before.machine.round, o.out));
    }
  }

  /** At most one prevote and one precommit per (height, round), and one commit per height. */
  lemma SaidOnce(hashOf: Block -> BlockHash, m: Machine, events: seq<Event>, i: nat, j: nat)
    requires MachineInv(m, hashOf) && Run(hashOf, m, events).Some?
    requires i < |Run(hashOf, m, events).value.said| && j < |Run(hashOf, m, events).value.said|
    ensures var said := Run(hashOf, m, events).value.said;
            && (At(said[i]) == At(said[j]) ==> i == j)
            && (said[i].phase == said[j].phase == RoundStep.Commit && said[i].height == said[j].height ==> i == j)
            && (said[i].phase == RoundStep.Commit && i < j ==> said[j].height > said[i].height)
  {
    RunOrdered(hashOf, m, events);
  }

  /** The lock is always one the machine precommitted in that very round. */
  lemma {:induction false} LockWasPrecommitted(hashOf: Block -> BlockHash, m: Machine, events: seq<Event>)
    requires MachineInv(m, hashOf) && m.lockedValue.None? && Run(hashOf, m, events).Some?
    ensures var r := Run(hashOf, m, events).value;
            r.machine.lockedValue.Some? ==>
              r.machine.lockedRound.Some?
              && Emission(RoundStep.Precommit, r.machine.height, r.machine.lockedRound.value, r.machine.lockedValue) in r.said
    decreases |events|
  {
    if events != [] {
      var last := |events| - 1;
      LockWasPrecommitted(hashOf, m, events[..last]);
      var before := Run(hashOf, m, events[..last]).value;
      StepLock(hashOf, before.machine, events[last]);
      RunOrdered(hashOf, m, events);
    }
  }
}
