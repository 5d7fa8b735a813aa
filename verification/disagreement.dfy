/** What the hypotheses of agreement are for: what happens where the code does not enforce them
    (consensus/bft/src/state_machine.rs, vote.rs). */
module Disagreement {
  import opened Words
  import opened BftTypes
  import opened VoteSets
  import opened Machines
  import opened MachineRuns
  import opened Agreement

  // ---------- a tally filling up with votes for one hash ----------

  ghost predicate Distinct(keys: seq<ValidatorId>) {
    forall i, j :: 0 <= i < j < |keys| ==> keys[i] != keys[j]
  }

  /** The tally of signed votes of `keys` for `b`. */
  function Ballots(t: VoteType, h: Height, r: Round, total: nat, keys: seq<ValidatorId>, b: BlockHash): Tally {
    Tally(t, h, r, total, map k | k in keys :: SignedVote(t, h, r, Some(b), k))
  }

  /** What `quorum_block` answers once `n` votes for `b` are in. */
  function Answer(total: nat, n: nat, b: BlockHash): Option<BlockHash> { if MoreThanTwoThirds(n, total) then Some(b) else None }

  lemma {:induction false} KeysCount(keys: seq<ValidatorId>)
    requires Distinct(keys)
    ensures |set k | k in keys| == |keys|
  {
    if keys != [] {
      var last := |keys| - 1;
      KeysCount(keys[..last]);
      assert (set k | k in keys) == (set k | k in keys[..last]) + {keys[last]};
    }
  }

  lemma BallotsAdd(t: VoteType, h: Height, r: Round, total: nat, keys: seq<ValidatorId>, k: ValidatorId, b: BlockHash)
    requires k !in keys
    ensures Ballots(t, h, r, total, keys, b).Add(SignedVote(t, h, r, Some(b), k)) == Ballots(t, h, r, total, keys + [k], b)
  {
  }

  lemma BallotsCounted(t: VoteType, h: Height, r: Round, total: nat, keys: seq<ValidatorId>, b: BlockHash)
    requires Distinct(keys)
    ensures var vs := Ballots(t, h, r, total, keys, b);
            && vs.IsQuorumBlock(Answer(total, |keys|, b))
            && !vs.HasQuorum(None)
            && (vs.TwoThirdsAny() <==> MoreThanTwoThirds(|keys|, total))
  {
    var vs := Ballots(t, h, r, total, keys, b);
    KeysCount(keys);
    assert vs.votes.Keys == set k | k in keys;
    assert vs.Supporters(Some(b)) == vs.votes.Keys;
    assert vs.Supporters(None) == {};
    forall h': BlockHash | h' != b ensures !vs.HasQuorum(Some(h')) {
      assert vs.Supporters(Some(h')) == {};
    }
  }

  // ---------- without (a) ----------

  /** The precommit of `keys[n]` for `b`, with the answer that follows it. */
  function PrecommitEvent(m: Machine, keys: seq<ValidatorId>, b: BlockHash, n: nat): Event
    requires n < |keys|
  {
    PrecommitIn(SignedVote(VoteType.Precommit, m.height, m.round, Some(b), keys[n]), Answer(|m.validators|, n + 1, b))
  }

  /** The first `n` of them. */
  function PrecommitEvents(m: Machine, keys: seq<ValidatorId>, b: BlockHash, n: nat): seq<Event>
    requires n <= |keys|
  {
    if n == 0 then [] else PrecommitEvents(m, keys, b, n - 1) + [PrecommitEvent(m, keys, b, n - 1)]
  }

  /** `m` with the precommits of the first `n` keys for `b`, and committed once they are enough. */
  function Precommitted(m: Machine, keys: seq<ValidatorId>, b: BlockHash, n: nat): Machine
    requires n <= |keys|
  {
    m.(precommits := Ballots(VoteType.Precommit, m.height, m.round, |m.validators|, keys[..n], b),
       step := if MoreThanTwoThirds(n, |m.validators|) then RoundStep.Commit else m.step)
  }

  function Committed(m: Machine, keys: seq<ValidatorId>, b: BlockHash, n: nat): seq<Emission> {
    if n == |keys| then [Emission(RoundStep.Commit, m.height, m.round, Some(b))] else []
  }

  /** `keys` are just enough for a quorum. */
  ghost predicate JustEnough(total: nat, keys: seq<ValidatorId>) {
    Distinct(keys) && MoreThanTwoThirds(|keys|, total) && forall n :: 0 <= n < |keys| ==> !MoreThanTwoThirds(n, total)
  }

  /** One more precommit, once it is known what the tally then holds. */
  lemma PrecommitStep(hashOf: Block -> BlockHash, m: Machine, v: Vote, q: Option<BlockHash>, vs: Tally)
    requires v.height == m.height && v.round == m.round && v.voteType == VoteType.Precommit && m.step != RoundStep.Commit
    requires PrecommitsWith(m, v) == vs && vs.IsQuorumBlock(q) && (vs.TwoThirdsAny() ==> q.Some?)
    ensures Steps(hashOf, m, PrecommitIn(v, q), m.(precommits := vs, step := if q.Some? then RoundStep.Commit else m.step),
                  if q.Some? then [Emission(RoundStep.Commit, m.height, m.round, q)] else [])
  {
    assert q.Some? ==> [CommitBlock(m.height, q.value)][1..] == [];
  }

  lemma PrecommitOne(hashOf: Block -> BlockHash, m: Machine, keys: seq<ValidatorId>, b: BlockHash, n: nat)
    requires n < |keys| && JustEnough(|m.validators|, keys) && m.step != RoundStep.Commit
    ensures Steps(hashOf, Precommitted(m, keys, b, n), PrecommitEvent(m, keys, b, n),
                  Precommitted(m, keys, b, n + 1), Committed(m, keys, b, n + 1))
  {
    assert keys[..n + 1] == keys[..n] + [keys[n]];
    BallotsAdd(VoteType.Precommit, m.height, m.round, |m.validators|, keys[..n], keys[n], b);
    BallotsCounted(VoteType.Precommit, m.height, m.round, |m.validators|, keys[..n + 1], b);
    PrecommitStep(hashOf, Precommitted(m, keys, b, n), PrecommitEvent(m, keys, b, n).vote, Answer(|m.validators|, n + 1, b),
                  Ballots(VoteType.Precommit, m.height, m.round, |m.validators|, keys[..n + 1], b));
  }

  lemma PrecommitsNone(m: Machine, keys: seq<ValidatorId>, b: BlockHash)
    requires m.precommits == EmptyTally(VoteType.Precommit, m.height, m.round, |m.validators|)
    ensures Precommitted(m, keys, b, 0) == m
  {
    assert Ballots(VoteType.Precommit, m.height, m.round, |m.validators|, keys[..0], b) == m.precommits;
  }

  /** One more event after a silent run. */
  lemma {:induction false} FirstWords(
    hashOf: Block -> BlockHash, m: Machine, events: seq<Event>, e: Event, before: Machine, after: Machine, said: seq<Emission>)
    requires RunsTo(hashOf, m, events, before, []) && Steps(hashOf, before, e, after, said)
    ensures RunsTo(hashOf, m, events + [e], after, said)
  {
    RunOneMore(hashOf, m, events, e, before, [], after, said);
    assert [] + said == said;
  }

  lemma {:induction false} PrecommitSome(hashOf: Block -> BlockHash, m: Machine, keys: seq<ValidatorId>, b: BlockHash, n: nat)
    requires n <= |keys| && JustEnough(|m.validators|, keys) && m.step != RoundStep.Commit
    requires m.precommits == EmptyTally(VoteType.Precommit, m.height, m.round, |m.validators|)
    ensures RunsTo(hashOf, m, PrecommitEvents(m, keys, b, n), Precommitted(m, keys, b, n), Committed(m, keys, b, n))
  {
    if n == 0 {
      PrecommitsNone(m, keys, b);
    } else {
      PrecommitSome(hashOf, m, keys, b, n - 1);
      PrecommitOne(hashOf, m, keys, b, n - 1);
      FirstWords(hashOf, m, PrecommitEvents(m, keys, b, n - 1), PrecommitEvent(m, keys, b, n - 1),
                 Precommitted(m, keys, b, n - 1), Precommitted(m, keys, b, n), Committed(m, keys, b, n));
    }
  }

  /** Without (a): votes of keys outside the validator set are counted, so in any round of a set of any size
      as many outsiders as make a quorum commit any hash they like. */
  lemma OutsidersCommit(hashOf: Block -> BlockHash, m: Machine, outsiders: seq<ValidatorId>, b: BlockHash)
    requires JustEnough(|m.validators|, outsiders) && m.step != RoundStep.Commit
    requires forall k :: k in outsiders ==> k !in m.validators
    requires m.precommits == EmptyTally(VoteType.Precommit, m.height, m.round, |m.validators|)
    ensures var r := Run(hashOf, m, PrecommitEvents(m, outsiders, b, |outsiders|));
            r.Some? && r.value.said == [Emission(RoundStep.Commit, m.height, m.round, Some(b))]
  {
    PrecommitSome(hashOf, m, outsiders, b, |outsiders|);
  }

  // ---------- without (c) ----------

  /** As `Execute`, but proposals may claim any valid round. */
  ghost function ExecuteUnchecked(c: Config, hashOf: Block -> BlockHash, s: System, schedule: seq<(ValidatorId, Event)>): Option<System> {
    if schedule == [] then Some(s)
    else
      var last := |schedule| - 1;
      var before := ExecuteUnchecked(c, hashOf, s, schedule[..last]);
      if before.None? || !EnabledUnchecked(c, before.value, schedule[last].0, schedule[last].1) then None
      else Some(Next(c, hashOf, before.value, schedule[last].0, schedule[last].1))
  }

  ghost predicate Reaches(c: Config, hashOf: Block -> BlockHash, s: System, t: System) {
    exists schedule :: ExecuteUnchecked(c, hashOf, s, schedule) == Some(t)
  }

  lemma {:induction false} ExecuteConcat(
    c: Config, hashOf: Block -> BlockHash, s: System, a: seq<(ValidatorId, Event)>, t: System, b: seq<(ValidatorId, Event)>)
    requires ExecuteUnchecked(c, hashOf, s, a) == Some(t)
    ensures ExecuteUnchecked(c, hashOf, s, a + b) == ExecuteUnchecked(c, hashOf, t, b)
    decreases |b|
  {
    if b == [] {
      assert a + b == a;
    } else {
      var last := |b| - 1;
      ExecuteConcat(c, hashOf, s, a, t, b[..last]);
      assert (a + b)[..|a + b| - 1] == a + b[..last];
    }
  }

  lemma ReachesThrough(c: Config, hashOf: Block -> BlockHash, s: System, t: System, u: System)
    requires Reaches(c, hashOf, s, t) && Reaches(c, hashOf, t, u)
    ensures Reaches(c, hashOf, s, u)
  {
    var a :| ExecuteUnchecked(c, hashOf, s, a) == Some(t);
    var b :| ExecuteUnchecked(c, hashOf, t, b) == Some(u);
    ExecuteConcat(c, hashOf, s, a, t, b);
  }

  /** Machine `i` becomes `n`, having said `said`. */
  function Update(s: System, i: ValidatorId, n: Machine, said: seq<Emission>): System {
    System(s.machines[i := n], Extended(s.said, i, said))
  }

  lemma UpdateTwice(s: System, i: ValidatorId, m: Machine, n: Machine, said: seq<Emission>)
    ensures Update(Update(s, i, m, []), i, n, said) == Update(s, i, n, said)
  {
    assert Extended(s.said, i, []) == s.said;
  }

  lemma ReachStep(c: Config, hashOf: Block -> BlockHash, s: System, i: ValidatorId, e: Event, n: Machine, said: seq<Emission>)
    requires i in s.machines && Steps(hashOf, s.machines[i], e, n, said)
    requires e.PrevoteIn? || e.PrecommitIn? ==> Deliverable(c, s, e.vote)
    ensures Reaches(c, hashOf, s, Update(s, i, n, said))
  {
    var schedule := [(i, e)];
    assert schedule[..0] == [];
    assert ExecuteUnchecked(c, hashOf, s, schedule) == Some(Update(s, i, n, said));
  }

  /** A machine that has got to `m` without a word takes one step more. */
  lemma ReachOneMore(
    c: Config, hashOf: Block -> BlockHash, s: System, i: ValidatorId, m: Machine, e: Event, n: Machine, said: seq<Emission>)
    requires Reaches(c, hashOf, s, Update(s, i, m, [])) && Steps(hashOf, m, e, n, said)
    requires e.PrevoteIn? || e.PrecommitIn? ==> Deliverable(c, s, e.vote)
    ensures Reaches(c, hashOf, s, Update(s, i, n, said))
  {
    var mid := Update(s, i, m, []);
    assert mid.said == s.said;
    UpdateTwice(s, i, m, n, said);
    ReachStep(c, hashOf, mid, i, e, n, said);
    ReachesThrough(c, hashOf, s, mid, Update(s, i, n, said));
  }

  /** A vote of `k` for `b` may arrive: `k` is faulty, or has said it. */
  ghost predicate Backs(c: Config, said: set<Said>, k: ValidatorId, t: VoteType, h: Height, r: Round, b: BlockHash) {
    k in c.Members() && (k in c.honest ==> Said(k, Emission(PhaseOf(t), h, r, Some(b))) in said)
  }

  lemma BackedIsDeliverable(c: Config, s: System, k: ValidatorId, t: VoteType, h: Height, r: Round, b: BlockHash)
    requires Backs(c, s.said, k, t, h, r, b)
    ensures Deliverable(c, s, SignedVote(t, h, r, Some(b), k))
  {
    if k in c.honest {
      var x := Said(k, Emission(PhaseOf(t), h, r, Some(b)));
      assert SignBytes(TypeOf(x.what.phase), x.what.height, x.what.round, x.what.hash) == SignBytes(t, h, r, Some(b));
    }
  }

  lemma {:induction false} CollectPrecommits(
    c: Config, hashOf: Block -> BlockHash, s: System, i: ValidatorId, keys: seq<ValidatorId>, b: BlockHash, n: nat)
    requires i in s.machines && n <= |keys| && JustEnough(|s.machines[i].validators|, keys)
    requires var m := s.machines[i];
             && m.step != RoundStep.Commit
             && m.precommits == EmptyTally(VoteType.Precommit, m.height, m.round, |m.validators|)
             && forall k :: k in keys ==> Backs(c, s.said, k, VoteType.Precommit, m.height, m.round, b)
    ensures var m := s.machines[i];
            Reaches(c, hashOf, s, Update(s, i, Precommitted(m, keys, b, n), Committed(m, keys, b, n)))
  {
    var m := s.machines[i];
    if n == 0 {
      PrecommitsNone(m, keys, b);
      ReachesSame(c, hashOf, s, i);
    } else {
      CollectPrecommits(c, hashOf, s, i, keys, b, n - 1);
      PrecommitOne(hashOf, m, keys, b, n - 1);
      BackedIsDeliverable(c, s, keys[n - 1], VoteType.Precommit, m.height, m.round, b);
      ReachOneMore(c, hashOf, s, i, Precommitted(m, keys, b, n - 1), PrecommitEvent(m, keys, b, n - 1),
                   Precommitted(m, keys, b, n), Committed(m, keys, b, n));
    }
  }

  lemma ReachesSame(c: Config, hashOf: Block -> BlockHash, s: System, i: ValidatorId)
    requires i in s.machines
    ensures Reaches(c, hashOf, s, Update(s, i, s.machines[i], []))
  {
    assert Extended(s.said, i, []) == s.said;
    assert s.machines[i := s.machines[i]] == s.machines;
    assert ExecuteUnchecked(c, hashOf, s, []) == Some(Update(s, i, s.machines[i], []));
  }

  function PrevoteEvent(m: Machine, keys: seq<ValidatorId>, b: BlockHash, n: nat): Event
    requires n < |keys|
  {
    PrevoteIn(SignedVote(VoteType.Prevote, m.height, m.round, Some(b), keys[n]), Answer(|m.validators|, n + 1, b))
  }

  /** `m` locked on `b`, with its prevotes. */
  function Locked(m: Machine, vs: Tally, b: BlockHash): Machine {
    m.(prevotes := vs, validValue := Some(b), validRound := Some(m.round),
       lockedValue := Some(b), lockedRound := Some(m.round), step := RoundStep.Precommit)
  }

  /** `m` with the prevotes of the first `n` keys for `b`, and locked once they are enough. */
  function Prevoted(m: Machine, keys: seq<ValidatorId>, b: BlockHash, n: nat): Machine
    requires n <= |keys|
  {
    var vs := Ballots(VoteType.Prevote, m.height, m.round, |m.validators|, keys[..n], b);
    if MoreThanTwoThirds(n, |m.validators|) then Locked(m, vs, b) else m.(prevotes := vs)
  }

  function LockSaid(m: Machine, keys: seq<ValidatorId>, b: BlockHash, n: nat): seq<Emission> {
    if n == |keys| then [Emission(RoundStep.Precommit, m.height, m.round, Some(b))] else []
  }

  lemma PrevoteStep(hashOf: Block -> BlockHash, m: Machine, v: Vote, q: Option<BlockHash>, vs: Tally)
    requires v.height == m.height && v.round == m.round && v.voteType == VoteType.Prevote && m.step == RoundStep.Prevote
    requires PrevotesWith(m, v) == vs && vs.IsQuorumBlock(q) && (vs.TwoThirdsAny() ==> q.Some?) && !vs.HasQuorum(None)
    ensures Steps(hashOf, m, PrevoteIn(v, q), if q.Some? then Locked(m, vs, q.value) else m.(prevotes := vs),
                  if q.Some? then [Emission(RoundStep.Precommit, m.height, m.round, q)] else [])
  {
    assert [PrecommitTemplate(m, q, v)][1..] == [];
  }

  lemma PrevoteOne(hashOf: Block -> BlockHash, m: Machine, keys: seq<ValidatorId>, b: BlockHash, n: nat)
    requires n < |keys| && JustEnough(|m.validators|, keys) && m.step == RoundStep.Prevote
    ensures Steps(hashOf, Prevoted(m, keys, b, n), PrevoteEvent(m, keys, b, n),
                  Prevoted(m, keys, b, n + 1), LockSaid(m, keys, b, n + 1))
  {
    assert keys[..n + 1] == keys[..n] + [keys[n]];
    BallotsAdd(VoteType.Prevote, m.height, m.round, |m.validators|, keys[..n], keys[n], b);
    BallotsCounted(VoteType.Prevote, m.height, m.round, |m.validators|, keys[..n + 1], b);
    PrevoteStep(hashOf, Prevoted(m, keys, b, n), PrevoteEvent(m, keys, b, n).vote, Answer(|m.validators|, n + 1, b),
                Ballots(VoteType.Prevote, m.height, m.round, |m.validators|, keys[..n + 1], b));
  }

  lemma PrevotesNone(m: Machine, keys: seq<ValidatorId>, b: BlockHash)
    requires m.prevotes == EmptyTally(VoteType.Prevote, m.height, m.round, |m.validators|)
    ensures Prevoted(m, keys, b, 0) == m
  {
    assert Ballots(VoteType.Prevote, m.height, m.round, |m.validators|, keys[..0], b) == m.prevotes;
  }

  lemma {:induction false} CollectPrevotes(
    c: Config, hashOf: Block -> BlockHash, s: System, i: ValidatorId, keys: seq<ValidatorId>, b: BlockHash, n: nat)
    requires i in s.machines && n <= |keys| && JustEnough(|s.machines[i].validators|, keys)
    requires var m := s.machines[i];
             && m.step == RoundStep.Prevote
             && m.prevotes == EmptyTally(VoteType.Prevote, m.height, m.round, |m.validators|)
             && forall k :: k in keys ==> Backs(c, s.said, k, VoteType.Prevote, m.height, m.round, b)
    ensures var m := s.machines[i];
            Reaches(c, hashOf, s, Update(s, i, Prevoted(m, keys, b, n), LockSaid(m, keys, b, n)))
  {
    var m := s.machines[i];
    if n == 0 {
      PrevotesNone(m, keys, b);
      ReachesSame(c, hashOf, s, i);
    } else {
      CollectPrevotes(c, hashOf, s, i, keys, b, n - 1);
      PrevoteOne(hashOf, m, keys, b, n - 1);
      BackedIsDeliverable(c, s, keys[n - 1], VoteType.Prevote, m.height, m.round, b);
      ReachOneMore(c, hashOf, s, i, Prevoted(m, keys, b, n - 1), PrevoteEvent(m, keys, b, n - 1),
                   Prevoted(m, keys, b, n), LockSaid(m, keys, b, n));
    }
  }

  // ---------- everyone moves ----------

  /** Wherever machine `i` is `m` and at least `said` has been said, it can become `n`, saying `what`. */
  ghost predicate CanMove(c: Config, hashOf: Block -> BlockHash, i: ValidatorId, m: Machine, said: set<Said>, n: Machine, what: Emission) {
    forall t: System :: i in t.machines && t.machines[i] == m && said <= t.said ==> Reaches(c, hashOf, t, Update(t, i, n, [what]))
  }

  /** The machines of `who` moved by `f`, each saying `what`. */
  ghost function Everyone(s: System, who: set<ValidatorId>, f: Machine -> Machine, what: Emission): System {
    System(map i | i in s.machines :: if i in who then f(s.machines[i]) else s.machines[i],
           s.said + set i | i in who :: Said(i, what))
  }

  lemma EveryoneButOne(s: System, who: set<ValidatorId>, i: ValidatorId, f: Machine -> Machine, what: Emission)
    requires i in who && i in s.machines
    ensures var t := Everyone(s, who - {i}, f, what);
            && i in t.machines && t.machines[i] == s.machines[i] && s.said <= t.said
            && Update(t, i, f(s.machines[i]), [what]) == Everyone(s, who, f, what)
  {
    var t := Everyone(s, who - {i}, f, what);
    assert Extended(t.said, i, [what]) == t.said + {Said(i, what)};
    assert t.said + {Said(i, what)} == Everyone(s, who, f, what).said;
  }

  /** `i` can move in `s`, so it still can after others have moved. */
  lemma MoveOne(c: Config, hashOf: Block -> BlockHash, s: System, i: ValidatorId, n: Machine, what: Emission, t: System)
    requires i in s.machines && CanMove(c, hashOf, i, s.machines[i], s.said, n, what)
    requires i in t.machines && t.machines[i] == s.machines[i] && s.said <= t.said
    ensures Reaches(c, hashOf, t, Update(t, i, n, [what]))
  {
  }

  ghost predicate AllCanMove(
    c: Config, hashOf: Block -> BlockHash, s: System, who: set<ValidatorId>, f: Machine -> Machine, what: Emission)
  {
    forall i :: i in who ==> i in s.machines && CanMove(c, hashOf, i, s.machines[i], s.said, f(s.machines[i]), what)
  }

  lemma {:induction false} EveryoneMoves(
    c: Config, hashOf: Block -> BlockHash, s: System, who: set<ValidatorId>, f: Machine -> Machine, what: Emission)
    requires AllCanMove(c, hashOf, s, who, f, what)
    ensures Reaches(c, hashOf, s, Everyone(s, who, f, what))
    decreases |who|
  {
    if who == {} {
      assert Everyone(s, who, f, what) == s;
      assert ExecuteUnchecked(c, hashOf, s, []) == Some(s);
    } else {
      var i :| i in who;
      var t := Everyone(s, who - {i}, f, what);
      EveryoneMoves(c, hashOf, s, who - {i}, f, what);
      EveryoneButOne(s, who, i, f, what);
      MoveOne(c, hashOf, s, i, f(s.machines[i]), what, t);
      ReachesThrough(c, hashOf, s, t, Everyone(s, who, f, what));
    }
  }

  /** A machine with an empty prevote tally locks on `b` once enough back it. */
  lemma MovesToLock(c: Config, hashOf: Block -> BlockHash, i: ValidatorId, m: Machine, said: set<Said>, keys: seq<ValidatorId>, b: BlockHash)
    requires m.step == RoundStep.Prevote && JustEnough(|m.validators|, keys)
    requires m.prevotes == EmptyTally(VoteType.Prevote, m.height, m.round, |m.validators|)
    requires forall k :: k in keys ==> Backs(c, said, k, VoteType.Prevote, m.height, m.round, b)
    ensures CanMove(c, hashOf, i, m, said, Prevoted(m, keys, b, |keys|), Emission(RoundStep.Precommit, m.height, m.round, Some(b)))
  {
    forall t: System | i in t.machines && t.machines[i] == m && said <= t.said
      ensures Reaches(c, hashOf, t, Update(t, i, Prevoted(m, keys, b, |keys|), [Emission(RoundStep.Precommit, m.height, m.round, Some(b))]))
    {
      CollectPrevotes(c, hashOf, t, i, keys, b, |keys|);
    }
  }

  lemma MovesToCommit(c: Config, hashOf: Block -> BlockHash, i: ValidatorId, m: Machine, said: set<Said>, keys: seq<ValidatorId>, b: BlockHash)
    requires m.step != RoundStep.Commit && JustEnough(|m.validators|, keys)
    requires m.precommits == EmptyTally(VoteType.Precommit, m.height, m.round, |m.validators|)
    requires forall k :: k in keys ==> Backs(c, said, k, VoteType.Precommit, m.height, m.round, b)
    ensures CanMove(c, hashOf, i, m, said, Precommitted(m, keys, b, |keys|), Emission(RoundStep.Commit, m.height, m.round, Some(b)))
  {
    forall t: System | i in t.machines && t.machines[i] == m && said <= t.said
      ensures Reaches(c, hashOf, t, Update(t, i, Precommitted(m, keys, b, |keys|), [Emission(RoundStep.Commit, m.height, m.round, Some(b))]))
    {
      CollectPrecommits(c, hashOf, t, i, keys, b, |keys|);
    }
  }

  /** `m` having accepted a proposal for `b`. */
  function Proposed(m: Machine, b: BlockHash): Machine { m.(proposal := Some(b), step := RoundStep.Prevote) }

  lemma ProposalStep(hashOf: Block -> BlockHash, m: Machine, p: Proposal)
    requires AcceptsProposal(m, hashOf, p, None) && PrevoteFor(m, p) == Some(p.blockHash)
    ensures Steps(hashOf, m, ProposalIn(p, None), Proposed(m, p.blockHash),
                  [Emission(RoundStep.Prevote, m.height, m.round, Some(p.blockHash))])
  {
    assert OnProposal(m, hashOf, p, None).out[1..] == [];
  }

  /** An event that starts a round, and then an acceptable proposal. */
  lemma MovesToPrevote(c: Config, hashOf: Block -> BlockHash, i: ValidatorId, m: Machine, said: set<Said>, e: Event, n: Machine, p: Proposal)
    requires !e.PrevoteIn? && !e.PrecommitIn? && Steps(hashOf, m, e, n, [])
    requires AcceptsProposal(n, hashOf, p, None) && PrevoteFor(n, p) == Some(p.blockHash)
    ensures CanMove(c, hashOf, i, m, said, Proposed(n, p.blockHash), Emission(RoundStep.Prevote, n.height, n.round, Some(p.blockHash)))
  {
    var what := Emission(RoundStep.Prevote, n.height, n.round, Some(p.blockHash));
    ProposalStep(hashOf, n, p);
    forall t: System | i in t.machines && t.machines[i] == m && said <= t.said
      ensures Reaches(c, hashOf, t, Update(t, i, Proposed(n, p.blockHash), [what]))
    {
      ReachStep(c, hashOf, t, i, e, n, []);
      ReachOneMore(c, hashOf, t, i, n, ProposalIn(p, None), Proposed(n, p.blockHash), [what]);
    }
  }

  // ---------- the run ----------

  // Four validators, the last of them faulty, at height 2: `v[2]` proposes in round 0 and `v[3]` in round 1.

  const HEIGHT: Height := 2

  function Four(v: seq<ValidatorId>): Config
    requires |v| == 4
  {
    Config(v, {v[0], v[1], v[2]}, HEIGHT)
  }

  lemma FourValid(v: seq<ValidatorId>)
    requires |v| == 4 && Distinct(v)
    ensures Four(v).Valid()
    ensures JustEnough(4, v[..3]) && JustEnough(4, v[1..])
  {
    KeysCount(v);
    assert Four(v).Members() == set k | k in v;
    assert Four(v).Members() - Four(v).honest == {v[3]};
  }

  function Saying(phase: RoundStep, r: Round, b: BlockHash): Emission { Emission(phase, HEIGHT, r, Some(b)) }

  /** The machine is in round `r`, before it counts the votes of step `step`; from Precommit on it is locked
      there. */
  ghost predicate In(m: Machine, v: seq<ValidatorId>, r: Round, step: RoundStep) {
    && m.validators == v && m.height == HEIGHT && m.round == r && m.step == step
    && m.precommits == EmptyTally(VoteType.Precommit, HEIGHT, r, |v|)
    && (step == RoundStep.Prevote ==> m.prevotes == EmptyTally(VoteType.Prevote, HEIGHT, r, |v|))
    && (step == RoundStep.Precommit ==> m.lockedRound == Some(r))
  }

  ghost predicate AllIn(s: System, who: set<ValidatorId>, v: seq<ValidatorId>, r: Round, step: RoundStep) {
    forall i :: i in who ==> i in s.machines && In(s.machines[i], v, r, step)
  }

  /** From `s` to `t` only the machines of `who` changed, and each said `what`. */
  ghost predicate Went(s: System, t: System, who: set<ValidatorId>, what: Emission) {
    && t.machines.Keys == s.machines.Keys && s.said <= t.said
    && (forall i :: i in s.machines && i !in who ==> t.machines[i] == s.machines[i])
    && (forall i :: i in who ==> Said(i, what) in t.said)
  }

  lemma EveryoneWent(s: System, who: set<ValidatorId>, f: Machine -> Machine, what: Emission)
    ensures Went(s, Everyone(s, who, f, what), who, what)
    ensures forall i :: i in who && i in s.machines ==> Everyone(s, who, f, what).machines[i] == f(s.machines[i])
  {
  }

  /** Everyone in `who` locks on `b` and precommits it. */
  lemma LockPhase(c: Config, hashOf: Block -> BlockHash, s: System, who: set<ValidatorId>, v: seq<ValidatorId>, r: Round, keys: seq<ValidatorId>, b: BlockHash)
    returns (t: System)
    requires AllIn(s, who, v, r, RoundStep.Prevote) && JustEnough(|v|, keys)
    requires forall k :: k in keys ==> Backs(c, s.said, k, VoteType.Prevote, HEIGHT, r, b)
    ensures Reaches(c, hashOf, s, t) && Went(s, t, who, Saying(RoundStep.Precommit, r, b))
    ensures AllIn(t, who, v, r, RoundStep.Precommit)
  {
    var f, what := (m: Machine) => Prevoted(m, keys, b, |keys|), Saying(RoundStep.Precommit, r, b);
    forall i | i in who ensures i in s.machines && CanMove(c, hashOf, i, s.machines[i], s.said, f(s.machines[i]), what) {
      MovesToLock(c, hashOf, i, s.machines[i], s.said, keys, b);
    }
    EveryoneMoves(c, hashOf, s, who, f, what);
    EveryoneWent(s, who, f, what);
    t := Everyone(s, who, f, what);
  }

  /** Machine `i` commits `b`. */
  lemma CommitPhase(c: Config, hashOf: Block -> BlockHash, s: System, i: ValidatorId, v: seq<ValidatorId>, r: Round, keys: seq<ValidatorId>, b: BlockHash)
    returns (t: System)
    requires i in s.machines && In(s.machines[i], v, r, RoundStep.Precommit) && JustEnough(|v|, keys)
    requires forall k :: k in keys ==> Backs(c, s.said, k, VoteType.Precommit, HEIGHT, r, b)
    ensures Reaches(c, hashOf, s, t) && Went(s, t, {i}, Saying(RoundStep.Commit, r, b))
  {
    var f, what := (m: Machine) => Precommitted(m, keys, b, |keys|), Saying(RoundStep.Commit, r, b);
    MovesToCommit(c, hashOf, i, s.machines[i], s.said, keys, b);
    EveryoneMoves(c, hashOf, s, {i}, f, what);
    EveryoneWent(s, {i}, f, what);
    t := Everyone(s, {i}, f, what);
  }

  /** Round 0 starts, and everyone prevotes the proposal `b`. */
  lemma OpeningPhase(hashOf: Block -> BlockHash, v: seq<ValidatorId>, index: map<ValidatorId, Option<nat>>, b: BlockHash) returns (t: System)
    requires |v| == 4 && index.Keys == Four(v).honest
    ensures Reaches(Four(v), hashOf, Initial(Four(v), index), t)
    ensures Went(Initial(Four(v), index), t, Four(v).honest, Saying(RoundStep.Prevote, 0, b))
    ensures AllIn(t, Four(v).honest, v, 0, RoundStep.Prevote)
  {
    var c := Four(v);
    var s := Initial(c, index);
    var p := Proposal(HEIGHT, 0, b, v[2], Signature(v[2], []), None);
    var f, what := (m: Machine) => Proposed(StartRound(m, 0).machine, b), Saying(RoundStep.Prevote, 0, b);
    forall i | i in c.honest ensures i in s.machines && CanMove(c, hashOf, i, s.machines[i], s.said, f(s.machines[i]), what) {
      MovesToPrevote(c, hashOf, i, s.machines[i], s.said, Start, StartRound(s.machines[i], 0).machine, p);
    }
    EveryoneMoves(c, hashOf, s, c.honest, f, what);
    EveryoneWent(s, c.honest, f, what);
    t := Everyone(s, c.honest, f, what);
  }

  /** A machine locked in round 0 leaves it and prevotes another hash, because the proposal claims round 0. */
  lemma ClaimMoves(c: Config, hashOf: Block -> BlockHash, v: seq<ValidatorId>, i: ValidatorId, m: Machine, said: set<Said>, b: BlockHash)
    requires |v| == 4 && In(m, v, 0, RoundStep.Precommit)
    ensures CanMove(c, hashOf, i, m, said, Proposed(StartRound(m, 1).machine, b), Saying(RoundStep.Prevote, 1, b))
  {
    var p := Proposal(HEIGHT, 1, b, v[3], Signature(v[3], []), Some(0));
    var e := TimeoutIn(TimeoutEvent(HEIGHT, 0, TimeoutStep.Precommit));
    assert StartRound(m, 1).out[1..] == [];
    MovesToPrevote(c, hashOf, i, m, said, e, StartRound(m, 1).machine, p);
  }

  /** Round 1: the machines of `who` time out and follow the claim of the faulty proposer. */
  lemma ClaimPhase(c: Config, hashOf: Block -> BlockHash, s: System, who: set<ValidatorId>, v: seq<ValidatorId>, b: BlockHash) returns (t: System)
    requires |v| == 4 && AllIn(s, who, v, 0, RoundStep.Precommit)
    ensures Reaches(c, hashOf, s, t) && Went(s, t, who, Saying(RoundStep.Prevote, 1, b))
    ensures AllIn(t, who, v, 1, RoundStep.Prevote)
  {
    var f, what := (m: Machine) => Proposed(StartRound(m, 1).machine, b), Saying(RoundStep.Prevote, 1, b);
    forall i | i in who ensures i in s.machines && CanMove(c, hashOf, i, s.machines[i], s.said, f(s.machines[i]), what) {
      ClaimMoves(c, hashOf, v, i, s.machines[i], s.said, b);
    }
    EveryoneMoves(c, hashOf, s, who, f, what);
    EveryoneWent(s, who, f, what);
    t := Everyone(s, who, f, what);
  }

  lemma SpeakersBack(
    c: Config, said: set<Said>, who: set<ValidatorId>, keys: seq<ValidatorId>, t: VoteType, r: Round, b: BlockHash)
    requires forall k :: k in keys ==> k in c.Members() && (k in c.honest ==> k in who)
    requires forall i :: i in who ==> Said(i, Saying(PhaseOf(t), r, b)) in said
    ensures forall k :: k in keys ==> Backs(c, said, k, t, HEIGHT, r, b)
  {
  }

  /** The rest of a round whose prevotes are cast: everyone in `who` locks on `b`, and `first` commits it. */
  lemma RestOfRound(
    c: Config, hashOf: Block -> BlockHash, s: System, who: set<ValidatorId>, first: ValidatorId, v: seq<ValidatorId>, r: Round,
    keys: seq<ValidatorId>, b: BlockHash)
    returns (t: System)
    requires AllIn(s, who, v, r, RoundStep.Prevote) && JustEnough(|v|, keys) && first in who
    requires forall k :: k in keys ==> k in c.Members() && (k in c.honest ==> k in who)
    requires forall i :: i in who ==> Said(i, Saying(RoundStep.Prevote, r, b)) in s.said
    ensures Reaches(c, hashOf, s, t) && t.machines.Keys == s.machines.Keys && s.said <= t.said
    ensures Said(first, Saying(RoundStep.Commit, r, b)) in t.said
    ensures AllIn(t, who - {first}, v, r, RoundStep.Precommit)
  {
    SpeakersBack(c, s.said, who, keys, VoteType.Prevote, r, b);
    var mid := LockPhase(c, hashOf, s, who, v, r, keys, b);
    SpeakersBack(c, mid.said, who, keys, VoteType.Precommit, r, b);
    t := CommitPhase(c, hashOf, mid, first, v, r, keys, b);
    ReachesThrough(c, hashOf, s, mid, t);
  }

  lemma RoundZero(hashOf: Block -> BlockHash, v: seq<ValidatorId>, index: map<ValidatorId, Option<nat>>, b: BlockHash) returns (t: System)
    requires |v| == 4 && Distinct(v) && index.Keys == Four(v).honest
    ensures Reaches(Four(v), hashOf, Initial(Four(v), index), t)
    ensures Said(v[0], Saying(RoundStep.Commit, 0, b)) in t.said
    ensures AllIn(t, {v[1], v[2]}, v, 0, RoundStep.Precommit)
  {
    FourValid(v);
    var s := OpeningPhase(hashOf, v, index, b);
    t := RestOfRound(Four(v), hashOf, s, Four(v).honest, v[0], v, 0, v[..3], b);
    ReachesThrough(Four(v), hashOf, Initial(Four(v), index), s, t);
  }

  lemma RoundOne(hashOf: Block -> BlockHash, v: seq<ValidatorId>, s: System, b: BlockHash) returns (t: System)
    requires |v| == 4 && Distinct(v) && AllIn(s, {v[1], v[2]}, v, 0, RoundStep.Precommit)
    ensures Reaches(Four(v), hashOf, s, t) && s.said <= t.said
    ensures Said(v[1], Saying(RoundStep.Commit, 1, b)) in t.said
  {
    FourValid(v);
    var mid := ClaimPhase(Four(v), hashOf, s, {v[1], v[2]}, v, b);
    t := RestOfRound(Four(v), hashOf, mid, {v[1], v[2]}, v[1], v, 1, v[1..], b);
    ReachesThrough(Four(v), hashOf, s, mid, t);
  }

  /** Without (c) agreement fails: one faulty validator of four, claiming a valid round it never had, makes
      two honest machines commit any two hashes at one height. Every event of the schedule is otherwise
      enabled. */
  lemma ClaimBreaksAgreement(
    hashOf: Block -> BlockHash, v: seq<ValidatorId>, index: map<ValidatorId, Option<nat>>, b: BlockHash, b': BlockHash)
    returns (schedule: seq<(ValidatorId, Event)>)
    requires |v| == 4 && Distinct(v) && index.Keys == Four(v).honest && b != b'
    ensures Four(v).Valid()
    ensures var s := ExecuteUnchecked(Four(v), hashOf, Initial(Four(v), index), schedule);
            && s.Some?
            && Said(v[0], Emission(RoundStep.Commit, HEIGHT, 0, Some(b))) in s.value.said
            && Said(v[1], Emission(RoundStep.Commit, HEIGHT, 1, Some(b'))) in s.value.said
  {
    var c := Four(v);
    FourValid(v);
    var s := RoundZero(hashOf, v, index, b);
    var t := RoundOne(hashOf, v, s, b');
    ReachesThrough(c, hashOf, Initial(c, index), s, t);
    schedule :| ExecuteUnchecked(c, hashOf, Initial(c, index), schedule) == Some(t);
  }
}
