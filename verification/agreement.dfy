/** N machines, an adversarial network and fewer than N/3 faulty validators: no two honest
    machines ever commit different blocks at one height. */
module Agreement {
  import opened Words
  import opened BftTypes
  import opened VoteSets
  import opened Machines
  import opened MachineRuns

  /** The validators of the height, and which of them follow the protocol. */
  datatype Config = Config(validators: seq<ValidatorId>, honest: set<ValidatorId>, start: Height) {
    function Members(): set<ValidatorId> { set v | v in validators }

    ghost predicate Valid() {
      && |Members()| == |validators|
      && honest <= Members()
      && 3 * |Members() - honest| < |validators|
    }
  }

  /** `who` signed (or, for a commit, announced) `what`. */
  datatype Said = Said(who: ValidatorId, what: Emission)

  /** The honest machines and everything honest validators have said; what faulty validators say
      is unconstrained and therefore not recorded. */
  datatype System = System(machines: map<ValidatorId, Machine>, said: set<Said>)

  function PhaseOf(t: VoteType): RoundStep { if t.Prevote? then RoundStep.Prevote else RoundStep.Precommit }

  function TypeOf(s: RoundStep): VoteType { if s.Prevote? then VoteType.Prevote else VoteType.Precommit }

  predicate IsVote(e: Emission) { e.phase.Prevote? || e.phase.Precommit? }

  function EmissionOfVote(v: Vote): Emission { Emission(PhaseOf(v.voteType), v.height, v.round, v.blockHash) }

  /** Everyone who may be counted behind `b`: the faulty, and the honest who signed it. */
  function Backers(c: Config, said: set<Said>, phase: RoundStep, h: Height, r: Round, b: BlockHash): set<ValidatorId> {
    set v | v in c.Members() && (v in c.honest ==> Said(v, Emission(phase, h, r, Some(b))) in said)
  }

  ghost predicate Quorum(c: Config, said: set<Said>, phase: RoundStep, h: Height, r: Round, b: BlockHash) {
    |Backers(c, said, phase, h, r, b)| * 3 > |c.Members()| * 2
  }

  // ---------- the network ----------

  /** Any vote may arrive, in any order, any number of times, or never. If its signature verifies
      then it is a validator's (a); and if that validator is honest, its machine emitted a vote
      with exactly the signed bytes (b). */
  ghost predicate Deliverable(c: Config, s: System, v: Vote) {
    Verifies(v) ==>
      && v.validator in c.Members()
      && (v.validator in c.honest ==>
            exists x :: x in s.said && x.who == v.validator && IsVote(x.what)
              && SignBytes(TypeOf(x.what.phase), x.what.height, x.what.round, x.what.hash) == v.signature.message)
  }

  /** A proposal's valid round, if any, is an earlier round with a prevote quorum for its hash (c).
      Nothing else about proposals is assumed: not even their signatures are checked. */
  ghost predicate HonestValidRound(c: Config, s: System, p: Proposal) {
    p.validRound.Some? ==>
      p.validRound.value < p.round
      && Quorum(c, s.said, RoundStep.Prevote, p.height, p.validRound.value, p.blockHash)
  }

  /** What the network may do if proposals may claim any valid round. */
  ghost predicate EnabledUnchecked(c: Config, s: System, i: ValidatorId, e: Event) {
    && i in s.machines
    && Allowed(s.machines[i], e) && !WrapsRound(s.machines[i], e)
    && (e.PrevoteIn? || e.PrecommitIn? ==> Deliverable(c, s, e.vote))
  }

  ghost predicate Enabled(c: Config, s: System, i: ValidatorId, e: Event) {
    EnabledUnchecked(c, s, i, e) && (e.ProposalIn? ==> HonestValidRound(c, s, e.p))
  }

  ghost function Next(c: Config, hashOf: Block -> BlockHash, s: System, i: ValidatorId, e: Event): System
    requires EnabledUnchecked(c, s, i, e)
  {
    var m := s.machines[i];
    var o := Apply(hashOf, m, e);
    System(s.machines[i := o.machine],
           s.said + set x | x in EmissionsOf(m.round, o.out) :: Said(i, x))
  }

  ghost function Initial(c: Config, index: map<ValidatorId, Option<nat>>): System
    requires index.Keys == c.honest
  {
    System(map i | i in c.honest :: NewMachine(c.start, c.validators, index[i]), {})
  }

  /** The system after a schedule of (machine, event) pairs, if every event was enabled. */
  ghost function Execute(c: Config, hashOf: Block -> BlockHash, s: System, schedule: seq<(ValidatorId, Event)>): Option<System> {
    if schedule == [] then Some(s)
    else
      var last := |schedule| - 1;
      var before := Execute(c, hashOf, s, schedule[..last]);
      if before.None? || !Enabled(c, before.value, schedule[last].0, schedule[last].1) then None
      else Some(Next(c, hashOf, before.value, schedule[last].0, schedule[last].1))
  }

  // ---------- the invariant ----------

  ghost predicate MachinesOk(c: Config, s: System) {
    && s.machines.Keys == c.honest
    && forall i :: i in s.machines ==>
         s.machines[i].validators == c.validators && LockInv(s.machines[i]) && TallyInv(s.machines[i])
  }

  /** Every counted vote is a member's, and an honest member's only if it was said. */
  ghost predicate TallyBacked(c: Config, said: set<Said>, vs: Tally) {
    forall k :: k in vs.votes ==>
      k in c.Members() && (k in c.honest ==> Said(k, EmissionOfVote(vs.votes[k])) in said)
  }

  ghost predicate TalliesBacked(c: Config, s: System) {
    forall i :: i in s.machines ==>
      TallyBacked(c, s.said, s.machines[i].prevotes) && TallyBacked(c, s.said, s.machines[i].precommits)
  }

  /** Nothing was said from a position the speaker has not reached. */
  ghost predicate SaidBehind(s: System) {
    forall x :: x in s.said ==> x.who in s.machines && !Before(PositionOf(s.machines[x.who]), At(x.what))
  }

  /** One honest validator says one thing per position. */
  ghost predicate SaidOncePerPosition(said: set<Said>) {
    forall x, y :: x in said && y in said && x.who == y.who && At(x.what) == At(y.what) ==> x == y
  }

  predicate IsPrecommit(x: Said) { x.what.phase == RoundStep.Precommit && x.what.hash.Some? }

  predicate IsPrevote(x: Said) { x.what.phase == RoundStep.Prevote && x.what.hash.Some? }

  ghost predicate Polka(c: Config, said: set<Said>, h: Height, r: Round, b: BlockHash) {
    Quorum(c, said, RoundStep.Prevote, h, r, b)
  }

  ghost predicate PrecommitsBacked(c: Config, said: set<Said>) {
    forall x :: x in said && IsPrecommit(x) ==> Polka(c, said, x.what.height, x.what.round, x.what.hash.value)
  }

  ghost predicate CommitsBacked(c: Config, said: set<Said>) {
    forall x :: x in said && x.what.phase == RoundStep.Commit ==>
      x.what.hash.Some?
      && Quorum(c, said, RoundStep.Precommit, x.what.height, x.what.round, x.what.hash.value)
  }

  /** A lock stands behind every precommit of the current height, and was itself precommitted. */
  ghost predicate LocksCover(s: System) {
    && (forall x :: x in s.said && IsPrecommit(x) && x.who in s.machines ==> LockCovers(s.machines[x.who], x.what))
    && (forall i :: i in s.machines && s.machines[i].lockedRound.Some? ==> Said(i, LockOf(s.machines[i])) in s.said)
  }

  ghost predicate LockCovers(m: Machine, e: Emission) {
    m.height == e.height ==>
      && m.lockedRound.Some? && e.round <= m.lockedRound.value
      && (e.round == m.lockedRound.value ==> m.lockedValue == e.hash)
  }

  function LockOf(m: Machine): Emission
    requires m.lockedRound.Some?
  {
    Emission(RoundStep.Precommit, m.height, m.lockedRound.value, m.lockedValue)
  }

  /** Who precommitted `b` and later prevotes another hash has seen a polka for it in between. */
  ghost predicate SwitchesJustified(c: Config, said: set<Said>) {
    forall x, y :: x in said && y in said && Switches(x, y) ==>
      Justified(c, said, x.what.height, x.what.round, y.what.round, y.what.hash.value)
  }

  predicate Switches(x: Said, y: Said) {
    && IsPrecommit(x) && IsPrevote(y)
    && x.who == y.who && x.what.height == y.what.height && x.what.round < y.what.round
    && x.what.hash != y.what.hash
  }

  ghost predicate Justified(c: Config, said: set<Said>, h: Height, lo: Round, hi: Round, b: BlockHash) {
    exists r: Round :: lo <= r < hi && Polka(c, said, h, r, b)
  }

  ghost predicate SaidInv(c: Config, said: set<Said>) {
    && SaidOncePerPosition(said)
    && PrecommitsBacked(c, said)
    && CommitsBacked(c, said)
    && SwitchesJustified(c, said)
  }

  ghost predicate Inv(c: Config, s: System) {
    && MachinesOk(c, s)
    && TalliesBacked(c, s)
    && SaidBehind(s)
    && LocksCover(s)
    && SaidInv(c, s.said)
  }

  // ---------- agreement from the invariant ----------

  /** Two quorums have an honest member in common. */
  lemma HonestIntersection(c: Config, a: set<ValidatorId>, b: set<ValidatorId>) returns (v: ValidatorId)
    requires c.Valid() && a <= c.Members() && b <= c.Members()
    requires |a| * 3 > |c.Members()| * 2 && |b| * 3 > |c.Members()| * 2
    ensures v in a && v in b && v in c.honest
  {
    QuorumsIntersect(a, b, c.Members());
    if a * b <= c.Members() - c.honest {
      SubsetSize(a * b, c.Members() - c.honest);
      assert false;
    }
    v :| v in a * b && v !in c.Members() - c.honest;
  }

  /** The honest validators alone are a quorum, so the faulty cannot hold up a count by keeping silent. */
  lemma HonestAreQuorum(c: Config, vs: Tally)
    requires c.Valid() && vs.total == |c.validators|
    ensures vs.IsQuorum(|c.honest|)
  {
    assert c.honest == c.Members() - (c.Members() - c.honest);
    QuorumWithAbsentIff(vs, |c.Members() - c.honest|);
  }

  /** Two prevote quorums in one round are for the same hash. */
  lemma OnePolkaPerRound(c: Config, said: set<Said>, h: Height, r: Round, b1: BlockHash, b2: BlockHash)
    requires c.Valid() && SaidOncePerPosition(said)
    requires Polka(c, said, h, r, b1) && Polka(c, said, h, r, b2)
    ensures b1 == b2
  {
    var v := HonestIntersection(c,
      Backers(c, said, RoundStep.Prevote, h, r, b1), Backers(c, said, RoundStep.Prevote, h, r, b2));
    var x, y := Said(v, Emission(RoundStep.Prevote, h, r, Some(b1))), Said(v, Emission(RoundStep.Prevote, h, r, Some(b2)));
    assert x in said && y in said && At(x.what) == At(y.what);
  }

  /** A precommit quorum has an honest member, so its round had a prevote quorum. */
  lemma CommitHasPolka(c: Config, said: set<Said>, h: Height, r: Round, b: BlockHash)
    requires c.Valid() && PrecommitsBacked(c, said)
    requires Quorum(c, said, RoundStep.Precommit, h, r, b)
    ensures Polka(c, said, h, r, b)
  {
    var q := Backers(c, said, RoundStep.Precommit, h, r, b);
    var v := HonestIntersection(c, q, q);
    var x := Said(v, Emission(RoundStep.Precommit, h, r, Some(b)));
    assert x in said && IsPrecommit(x);
  }

  /** Once `b` has a precommit quorum in round `r`, no later round has a prevote quorum for
      anything else. */
  lemma NoOtherPolka(c: Config, said: set<Said>, h: Height, r: Round, b: BlockHash, r': Round, b': BlockHash)
    requires c.Valid() && SaidInv(c, said)
    requires Quorum(c, said, RoundStep.Precommit, h, r, b)
    requires r <= r' && Polka(c, said, h, r', b')
    ensures b == b'
    decreases r'
  {
    if r == r' {
      CommitHasPolka(c, said, h, r, b);
      OnePolkaPerRound(c, said, h, r, b, b');
    } else if b != b' {
      var v := HonestIntersection(c,
        Backers(c, said, RoundStep.Precommit, h, r, b), Backers(c, said, RoundStep.Prevote, h, r', b'));
      var x, y := Said(v, Emission(RoundStep.Precommit, h, r, Some(b))), Said(v, Emission(RoundStep.Prevote, h, r', Some(b')));
      assert x in said && y in said && Switches(x, y);
      var k: Round :| r <= k < r' && Polka(c, said, h, k, b');
      NoOtherPolka(c, said, h, r, b, k, b');
    }
  }

  lemma QuorumsAgree(c: Config, said: set<Said>, h: Height, r1: Round, b1: BlockHash, r2: Round, b2: BlockHash)
    requires c.Valid() && SaidInv(c, said)
    requires Quorum(c, said, RoundStep.Precommit, h, r1, b1) && Quorum(c, said, RoundStep.Precommit, h, r2, b2)
    ensures b1 == b2
  {
    if r1 <= r2 {
      CommitHasPolka(c, said, h, r2, b2);
      NoOtherPolka(c, said, h, r1, b1, r2, b2);
    } else {
      CommitHasPolka(c, said, h, r1, b1);
      NoOtherPolka(c, said, h, r2, b2, r1, b1);
    }
  }

  // ---------- the invariant is kept ----------

  lemma QuorumGrows(c: Config, said: set<Said>, more: set<Said>, phase: RoundStep, h: Height, r: Round, b: BlockHash)
    requires said <= more && Quorum(c, said, phase, h, r, b)
    ensures Quorum(c, more, phase, h, r, b)
  {
    SubsetSize(Backers(c, said, phase, h, r, b), Backers(c, more, phase, h, r, b));
  }

  /** A quorum counted by an honest machine is a real one. */
  lemma CountedQuorumIsReal(c: Config, said: set<Said>, m: Machine, vs: Tally, t: VoteType, b: BlockHash)
    requires c.Valid() && m.validators == c.validators
    requires TallyBacked(c, said, vs) && vs.Authentic() && Collects(m, vs, t) && vs.HasQuorum(Some(b))
    ensures Quorum(c, said, PhaseOf(t), m.height, m.round, b)
  {
    SubsetSize(vs.Supporters(Some(b)), Backers(c, said, PhaseOf(t), m.height, m.round, b));
  }

  /** The unforgeable bytes of a deliverable honest vote pin down what was said. */
  lemma DeliveredWasSaid(c: Config, s: System, v: Vote)
    requires Deliverable(c, s, v) && Verifies(v)
    ensures v.validator in c.Members()
    ensures v.validator in c.honest ==> Said(v.validator, EmissionOfVote(v)) in s.said
  {
    if v.validator in c.honest {
      var x :| x in s.said && x.who == v.validator && IsVote(x.what)
        && SignBytes(TypeOf(x.what.phase), x.what.height, x.what.round, x.what.hash) == v.signature.message;
      SignBytesInjective(TypeOf(x.what.phase), x.what.height, x.what.round, x.what.hash,
                         v.voteType, v.height, v.round, v.blockHash);
      assert x == Said(v.validator, EmissionOfVote(v));
    }
  }

  /** What one step adds to the record, as the rest of the proof uses it. */
  ghost predicate Adds(c: Config, s: System, i: ValidatorId, n: Machine, added: seq<Emission>) {
    && i in s.machines
    && LockStep(s.machines[i], n, added)
    && !Before(PositionOf(n), PositionOf(s.machines[i]))
    && TallyBacked(c, s.said, n.prevotes) && TallyBacked(c, s.said, n.precommits)
    && LockInv(n) && TallyInv(n)
    && (added != [] && added[0].phase == RoundStep.Prevote && added[0].hash.Some? ==>
          FollowsLock(c, s, s.machines[i], added[0].hash.value))
  }

  /** The machine is free to prevote `b`: not locked, locked on `b`, or shown a polka for `b` at
      least as recent as its lock. */
  ghost predicate FollowsLock(c: Config, s: System, m: Machine, b: BlockHash) {
    || m.lockedRound.None?
    || m.lockedValue == Some(b)
    || (m.lockedRound.value < m.round && Justified(c, s.said, m.height, m.lockedRound.value, m.round, b))
  }

  function Extended(said: set<Said>, i: ValidatorId, added: seq<Emission>): set<Said> {
    said + set x | x in added :: Said(i, x)
  }

  lemma ExtendedBy(said: set<Said>, i: ValidatorId, added: seq<Emission>)
    requires |added| <= 1
    ensures Extended(said, i, added) == if added == [] then said else said + {Said(i, added[0])}
  {
  }

  lemma KeepsOncePerPosition(c: Config, s: System, i: ValidatorId, n: Machine, added: seq<Emission>)
    requires SaidBehind(s) && SaidOncePerPosition(s.said) && Adds(c, s, i, n, added)
    ensures SaidOncePerPosition(Extended(s.said, i, added))
  {
    ExtendedBy(s.said, i, added);
    if added != [] {
      forall x | x in s.said && x.who == i
        ensures At(x.what) != At(added[0])
      {
        assert Before(PositionOf(s.machines[i]), At(added[0]));
      }
    }
  }

  lemma KeepsBacked(c: Config, s: System, i: ValidatorId, n: Machine, added: seq<Emission>)
    requires c.Valid() && MachinesOk(c, s) && PrecommitsBacked(c, s.said) && CommitsBacked(c, s.said) && Adds(c, s, i, n, added)
    ensures PrecommitsBacked(c, Extended(s.said, i, added)) && CommitsBacked(c, Extended(s.said, i, added))
  {
    var more := Extended(s.said, i, added);
    ExtendedBy(s.said, i, added);
    forall x | x in more && IsPrecommit(x)
      ensures Polka(c, more, x.what.height, x.what.round, x.what.hash.value)
    {
      if x !in s.said {
        CountedQuorumIsReal(c, s.said, n, n.prevotes, VoteType.Prevote, x.what.hash.value);
      }
      QuorumGrows(c, s.said, more, RoundStep.Prevote, x.what.height, x.what.round, x.what.hash.value);
    }
    forall x | x in more && x.what.phase == RoundStep.Commit
      ensures x.what.hash.Some? && Quorum(c, more, RoundStep.Precommit, x.what.height, x.what.round, x.what.hash.value)
    {
      if x !in s.said {
        CountedQuorumIsReal(c, s.said, n, n.precommits, VoteType.Precommit, x.what.hash.value);
      }
      QuorumGrows(c, s.said, more, RoundStep.Precommit, x.what.height, x.what.round, x.what.hash.value);
    }
  }

  lemma KeepsLocksCover(c: Config, s: System, i: ValidatorId, n: Machine, added: seq<Emission>)
    requires MachinesOk(c, s) && SaidBehind(s) && LocksCover(s) && Adds(c, s, i, n, added)
    ensures LocksCover(System(s.machines[i := n], Extended(s.said, i, added)))
  {
    ExtendedBy(s.said, i, added);
    var m := s.machines[i];
    forall x | x in Extended(s.said, i, added) && IsPrecommit(x) && x.who == i
      ensures LockCovers(n, x.what)
    {
      if x in s.said {
        assert LockCovers(m, x.what) && !Before(PositionOf(m), At(x.what));
      }
    }
  }

  lemma KeepsBehind(c: Config, s: System, i: ValidatorId, n: Machine, added: seq<Emission>)
    requires SaidBehind(s) && Adds(c, s, i, n, added)
    ensures SaidBehind(System(s.machines[i := n], Extended(s.said, i, added)))
  {
    ExtendedBy(s.said, i, added);
  }

  lemma JustificationGrows(c: Config, said: set<Said>, more: set<Said>, h: Height, lo: Round, hi: Round, b: BlockHash)
    requires said <= more && Justified(c, said, h, lo, hi, b)
    ensures Justified(c, more, h, lo, hi, b)
  {
    var r: Round :| lo <= r < hi && Polka(c, said, h, r, b);
    QuorumGrows(c, said, more, RoundStep.Prevote, h, r, b);
    assert Polka(c, more, h, r, b);
  }

  /** A fresh prevote against an earlier precommit is justified by the lock rule. */
  lemma NewSwitchJustified(c: Config, s: System, i: ValidatorId, n: Machine, added: seq<Emission>, x: Said)
    requires SaidBehind(s) && LocksCover(s) && PrecommitsBacked(c, s.said)
    requires Adds(c, s, i, n, added) && added != []
    requires x in s.said && Switches(x, Said(i, added[0]))
    ensures Justified(c, s.said, x.what.height, x.what.round, added[0].round, added[0].hash.value)
  {
    var m, b := s.machines[i], added[0].hash.value;
    assert LockCovers(m, x.what);
    var lock := Said(i, LockOf(m));
    assert lock in s.said && IsPrecommit(lock) && !Before(PositionOf(m), At(lock.what));
    if m.lockedValue == Some(b) {
      assert Polka(c, s.said, m.height, m.lockedRound.value, b);
      assert x.what.round <= m.lockedRound.value < added[0].round;
    } else {
      var r: Round :| m.lockedRound.value <= r < m.round && Polka(c, s.said, m.height, r, b);
    }
  }

  /** Nothing said earlier lies after what is being said now. */
  lemma NewPrecommitIsLatest(c: Config, s: System, i: ValidatorId, n: Machine, added: seq<Emission>, y: Said)
    requires SaidBehind(s) && Adds(c, s, i, n, added) && added != []
    requires y in s.said || y == Said(i, added[0])
    ensures !Switches(Said(i, added[0]), y)
  {
    if y in s.said && y.who == i {
      assert !Before(PositionOf(s.machines[i]), At(y.what));
      assert Before(PositionOf(s.machines[i]), At(added[0]));
    }
  }

  lemma SwitchKept(c: Config, s: System, i: ValidatorId, n: Machine, added: seq<Emission>, x: Said, y: Said)
    requires c.Valid() && Inv(c, s) && Adds(c, s, i, n, added)
    requires x in s.said && Switches(x, y) && (y in s.said || (added != [] && y == Said(i, added[0])))
    ensures Justified(c, s.said, x.what.height, x.what.round, y.what.round, y.what.hash.value)
  {
    if y !in s.said {
      NewSwitchJustified(c, s, i, n, added, x);
    }
  }

  lemma SwitchStillJustified(c: Config, s: System, i: ValidatorId, n: Machine, added: seq<Emission>, more: set<Said>, x: Said, y: Said)
    requires c.Valid() && Inv(c, s) && Adds(c, s, i, n, added) && more == Extended(s.said, i, added)
    requires x in more && y in more && Switches(x, y)
    ensures Justified(c, more, x.what.height, x.what.round, y.what.round, y.what.hash.value)
  {
    ExtendedBy(s.said, i, added);
    if x !in s.said {
      NewPrecommitIsLatest(c, s, i, n, added, y);
    } else {
      SwitchKept(c, s, i, n, added, x, y);
      JustificationGrows(c, s.said, more, x.what.height, x.what.round, y.what.round, y.what.hash.value);
    }
  }

  lemma KeepsSwitches(c: Config, s: System, i: ValidatorId, n: Machine, added: seq<Emission>)
    requires c.Valid() && Inv(c, s) && Adds(c, s, i, n, added)
    ensures SwitchesJustified(c, Extended(s.said, i, added))
  {
    var more := Extended(s.said, i, added);
    forall x, y | x in more && y in more && Switches(x, y)
      ensures Justified(c, more, x.what.height, x.what.round, y.what.round, y.what.hash.value)
    {
      SwitchStillJustified(c, s, i, n, added, more, x, y);
    }
  }

  lemma KeepsTallies(c: Config, s: System, i: ValidatorId, n: Machine, added: seq<Emission>)
    requires MachinesOk(c, s) && TalliesBacked(c, s) && Adds(c, s, i, n, added)
    ensures var s' := System(s.machines[i := n], Extended(s.said, i, added));
            MachinesOk(c, s') && TalliesBacked(c, s')
  {
    ExtendedBy(s.said, i, added);
  }

  lemma KeepsSaidInv(c: Config, s: System, i: ValidatorId, n: Machine, added: seq<Emission>)
    requires c.Valid() && Inv(c, s) && Adds(c, s, i, n, added)
    ensures SaidInv(c, Extended(s.said, i, added))
  {
    KeepsOncePerPosition(c, s, i, n, added);
    KeepsBacked(c, s, i, n, added);
    KeepsSwitches(c, s, i, n, added);
  }

  lemma KeepsInv(c: Config, s: System, i: ValidatorId, n: Machine, added: seq<Emission>)
    requires c.Valid() && Inv(c, s) && Adds(c, s, i, n, added)
    ensures Inv(c, System(s.machines[i := n], Extended(s.said, i, added)))
  {
    var s' := System(s.machines[i := n], Extended(s.said, i, added));
    assert SaidInv(c, s'.said) by { KeepsSaidInv(c, s, i, n, added); }
    assert SaidBehind(s') by { KeepsBehind(c, s, i, n, added); }
    assert LocksCover(s') by { KeepsLocksCover(c, s, i, n, added); }
    assert MachinesOk(c, s') && TalliesBacked(c, s') by { KeepsTallies(c, s, i, n, added); }
  }

  // ---------- enabled events ----------

  lemma AddKeepsBacked(c: Config, s: System, vs: Tally, v: Vote)
    requires TallyBacked(c, s.said, vs) && Deliverable(c, s, v)
    ensures TallyBacked(c, s.said, vs.Add(v))
  {
    if vs.Accepts(v) {
      DeliveredWasSaid(c, s, v);
    }
  }

  lemma EventTallies(c: Config, hashOf: Block -> BlockHash, s: System, i: ValidatorId, e: Event)
    requires MachinesOk(c, s) && TalliesBacked(c, s) && Enabled(c, s, i, e)
    ensures var n := Apply(hashOf, s.machines[i], e).machine;
            TallyInv(n) && TallyBacked(c, s.said, n.prevotes) && TallyBacked(c, s.said, n.precommits)
  {
    var m := s.machines[i];
    var n := Apply(hashOf, m, e).machine;
    StepTallies(hashOf, m, e);
    StepLock(hashOf, m, e);
    TalliesKeepInv(m, n, e);
    if e.PrevoteIn? {
      AddKeepsBacked(c, s, m.prevotes, e.vote);
    }
    if e.PrecommitIn? {
      AddKeepsBacked(c, s, m.precommits, e.vote);
    }
  }

  /** Only an accepted proposal makes a machine prevote, and then by the lock rule. */
  lemma PrevoteSource(hashOf: Block -> BlockHash, m: Machine, e: Event)
    requires Allowed(m, e)
    ensures var said := EmissionsOf(m.round, Apply(hashOf, m, e).out);
            said != [] && said[0].phase == RoundStep.Prevote ==>
              e.ProposalIn? && e.p.height == m.height && e.p.round == m.round && said[0].hash == PrevoteFor(m, e.p)
  {
    match e
    case PrevoteIn(v, q) => PrevoteStepLock(m, v, q);
    case _ =>
  }

  lemma EventFollowsLock(c: Config, hashOf: Block -> BlockHash, s: System, i: ValidatorId, e: Event)
    requires MachinesOk(c, s) && Enabled(c, s, i, e)
    ensures var m := s.machines[i];
            var said := EmissionsOf(m.round, Apply(hashOf, m, e).out);
            said != [] && said[0].phase == RoundStep.Prevote && said[0].hash.Some? ==>
              FollowsLock(c, s, m, said[0].hash.value)
  {
    var m := s.machines[i];
    PrevoteSource(hashOf, m, e);
    var said := EmissionsOf(m.round, Apply(hashOf, m, e).out);
    if said != [] && said[0].phase == RoundStep.Prevote && said[0].hash.Some? && m.lockedRound.Some? {
      var p := e.p;
      if m.lockedValue != Some(p.blockHash) {
        assert Polka(c, s.said, m.height, p.validRound.value, p.blockHash);
      }
    }
  }

  lemma EventAdds(c: Config, hashOf: Block -> BlockHash, s: System, i: ValidatorId, e: Event)
    requires c.Valid() && Inv(c, s) && Enabled(c, s, i, e)
    ensures var o := Apply(hashOf, s.machines[i], e);
            Adds(c, s, i, o.machine, EmissionsOf(s.machines[i].round, o.out))
  {
    var m := s.machines[i];
    StepLock(hashOf, m, e);
    StepForward(hashOf, m, e);
    StepLockInv(hashOf, m, e);
    EventTallies(c, hashOf, s, i, e);
    EventFollowsLock(c, hashOf, s, i, e);
  }

  lemma NextInv(c: Config, hashOf: Block -> BlockHash, s: System, i: ValidatorId, e: Event)
    requires c.Valid() && Inv(c, s) && Enabled(c, s, i, e)
    ensures Inv(c, Next(c, hashOf, s, i, e))
  {
    EventAdds(c, hashOf, s, i, e);
    var o := Apply(hashOf, s.machines[i], e);
    KeepsInv(c, s, i, o.machine, EmissionsOf(s.machines[i].round, o.out));
  }

  // ---------- main theorems ----------

  lemma InitialInv(c: Config, index: map<ValidatorId, Option<nat>>)
    requires c.Valid() && index.Keys == c.honest
    ensures Inv(c, Initial(c, index))
  {
    forall i | i in c.honest
      ensures var m := NewMachine(c.start, c.validators, index[i]); LockInv(m) && TallyInv(m)
    {
      NewMachineInv(_ => c.validators[0], c.start, c.validators, index[i]);
    }
    assert MachinesOk(c, Initial(c, index));
  }

  /** The invariant holds after every schedule. */
  lemma {:induction false} ExecuteInv(
    c: Config, hashOf: Block -> BlockHash, index: map<ValidatorId, Option<nat>>, schedule: seq<(ValidatorId, Event)>)
    requires c.Valid() && index.Keys == c.honest
    requires Execute(c, hashOf, Initial(c, index), schedule).Some?
    ensures Inv(c, Execute(c, hashOf, Initial(c, index), schedule).value)
    decreases |schedule|
  {
    if schedule == [] {
      InitialInv(c, index);
    } else {
      var last := |schedule| - 1;
      ExecuteInv(c, hashOf, index, schedule[..last]);
      NextInv(c, hashOf, Execute(c, hashOf, Initial(c, index), schedule[..last]).value, schedule[last].0, schedule[last].1);
    }
  }

  /** Agreement: whatever the schedule, the rounds and the faulty validators do, two honest
      machines that emit CommitBlock at one height emit the same hash. */
  lemma AgreementAcrossRounds(
    c: Config, hashOf: Block -> BlockHash, index: map<ValidatorId, Option<nat>>, schedule: seq<(ValidatorId, Event)>,
    x: Said, y: Said)
    requires c.Valid() && index.Keys == c.honest
    requires Execute(c, hashOf, Initial(c, index), schedule).Some?
    requires x in Execute(c, hashOf, Initial(c, index), schedule).value.said
    requires y in Execute(c, hashOf, Initial(c, index), schedule).value.said
    requires x.what.phase == y.what.phase == RoundStep.Commit && x.what.height == y.what.height
    ensures x.what.hash == y.what.hash && x.what.hash.Some?
  {
    ExecuteInv(c, hashOf, index, schedule);
    var said := Execute(c, hashOf, Initial(c, index), schedule).value.said;
    QuorumsAgree(c, said, x.what.height, x.what.round, x.what.hash.value, y.what.round, y.what.hash.value);
  }

  /** Lock soundness: in every reachable state a lock is on a hash with a prevote quorum in the
      locked round, no later than the valid round, itself no later than the current round; and
      every non-nil precommit ever sent had such a quorum. */
  lemma LockSoundness(
    c: Config, hashOf: Block -> BlockHash, index: map<ValidatorId, Option<nat>>, schedule: seq<(ValidatorId, Event)>,
    i: ValidatorId)
    requires c.Valid() && index.Keys == c.honest && i in c.honest
    requires Execute(c, hashOf, Initial(c, index), schedule).Some?
    ensures var s := Execute(c, hashOf, Initial(c, index), schedule).value;
            && i in s.machines
            && var m := s.machines[i];
               && (m.lockedValue.Some? <==> m.lockedRound.Some?)
               && (m.lockedRound.Some? ==>
                     && m.validRound.Some? && m.lockedRound.value <= m.validRound.value <= m.round
                     && Polka(c, s.said, m.height, m.lockedRound.value, m.lockedValue.value)
                     && Said(i, LockOf(m)) in s.said)
               && (forall x :: x in s.said && IsPrecommit(x) ==>
                     && Polka(c, s.said, x.what.height, x.what.round, x.what.hash.value)
                     && (x.who == i ==> LockCovers(m, x.what)))
  {
    ExecuteInv(c, hashOf, index, schedule);
    var s := Execute(c, hashOf, Initial(c, index), schedule).value;
    var m := s.machines[i];
    if m.lockedRound.Some? {
      assert IsPrecommit(Said(i, LockOf(m)));
    }
  }
}
