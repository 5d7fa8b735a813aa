/** Collecting votes and counting quorums (consensus/bft/src/vote.rs). */
module VoteSets {
  import opened Words
  import opened BftTypes

  /** `count` is strictly more than two thirds of `total`. */
  predicate MoreThanTwoThirds(count: nat, total: nat) { count * 3 > total * 2 }

  /** The value of a vote set: what it collects, and one vote per public key. */
  datatype Tally = Tally(
    voteType: VoteType,
    height: Height,
    round: Round,
    total: nat,
    votes: map<ValidatorId, Vote>)
  {
    predicate Accepts(v: Vote) {
      && v.voteType == voteType && v.height == height && v.round == round
      && Verifies(v)
      && v.validator !in votes
    }

    function Add(v: Vote): Tally {
      if Accepts(v) then this.(votes := votes[v.validator := v]) else this
    }

    function Supporters(b: Option<BlockHash>): set<ValidatorId> {
      set k | k in votes && votes[k].blockHash == b
    }

    predicate IsQuorum(count: nat) { MoreThanTwoThirds(count, total) }

    /** More than two thirds of the validators voted `b`; `None` is the nil vote. */
    predicate HasQuorum(b: Option<BlockHash>) { IsQuorum(|Supporters(b)|) }

    /** `q` is an answer `quorum_block` may give; when several hashes have a quorum, any of them. */
    ghost predicate IsQuorumBlock(q: Option<BlockHash>) {
      && (q.Some? ==> HasQuorum(q))
      && (q.None? ==> forall h: BlockHash :: !HasQuorum(Some(h)))
    }

    /** Supporters of `b` among the votes outside `todo`. */
    ghost function Walked(b: Option<BlockHash>, todo: set<ValidatorId>): set<ValidatorId> {
      Supporters(b) - todo
    }

    predicate TwoThirdsAny() { IsQuorum(|votes|) }

    /** The fewest votes that make a quorum. */
    function Threshold(): (q: nat)
      ensures forall n: nat :: IsQuorum(n) <==> n >= q
    {
      total * 2 / 3 + 1
    }

    /** Every stored vote is authentic, under its own key, and for this height, round and type. */
    ghost predicate Authentic() {
      forall k :: k in votes ==>
        && votes[k].validator == k && Verifies(votes[k])
        && votes[k].voteType == voteType && votes[k].height == height && votes[k].round == round
    }
  }

  function EmptyTally(t: VoteType, h: Height, r: Round, total: nat): Tally {
    Tally(t, h, r, total, map[])
  }

  // ---------- sets of voters ----------

  lemma UnionSize<T>(a: set<T>, b: set<T>)
    ensures |a + b| + |a * b| == |a| + |b|
  {
    assert a + b == (a - b) + b;
    assert a == (a - b) + (a * b);
  }

  lemma SubsetSize<T>(a: set<T>, b: set<T>)
    requires a <= b
    ensures |a| <= |b|
  {
    assert b == a + (b - a);
  }

  /** The votes of all but `absent` validators are a quorum exactly when fewer than a third are absent. */
  lemma QuorumWithAbsentIff(vs: Tally, absent: nat)
    requires absent <= vs.total
    ensures vs.IsQuorum(vs.total - absent) <==> 3 * absent < vs.total
  {
  }

  /** Two quorums drawn from the same `n` validators share more than a third of them. */
  lemma QuorumsIntersect<T>(a: set<T>, b: set<T>, all: set<T>)
    requires a <= all && b <= all
    requires |a| * 3 > |all| * 2 && |b| * 3 > |all| * 2
    ensures |a * b| * 3 > |all|
  {
    UnionSize(a, b);
    SubsetSize(a + b, all);
  }

  // ---------- quorum uniqueness ----------

  /** At most one value, nil included, has a quorum as long as fewer than two
      thresholds' worth of keys voted; `total` voters are always few enough. */
  lemma QuorumUnique(vs: Tally, b1: Option<BlockHash>, b2: Option<BlockHash>)
    requires |vs.votes| < 2 * vs.Threshold() || |vs.votes| <= vs.total
    requires vs.HasQuorum(b1) && vs.HasQuorum(b2)
    ensures b1 == b2
  {
    if b1 != b2 {
      var s1, s2 := vs.Supporters(b1), vs.Supporters(b2);
      UnionSize(s1, s2);
      assert s1 * s2 == {};
      assert s1 + s2 <= vs.votes.Keys;
      SubsetSize(s1 + s2, vs.votes.Keys);
      assert false;
    }
  }

  /** With that many voters at most, `quorum_block` has exactly one possible answer,
      whatever order the map is walked in. */
  lemma QuorumBlockExact(vs: Tally, q: Option<BlockHash>, h: BlockHash)
    requires |vs.votes| < 2 * vs.Threshold() || |vs.votes| <= vs.total
    requires vs.IsQuorumBlock(q)
    ensures q == Some(h) <==> vs.HasQuorum(Some(h))
  {
    if vs.HasQuorum(Some(h)) {
      QuorumUnique(vs, q, Some(h));
    }
  }

  lemma SubsetOfSize<T>(s: set<T>, n: nat) returns (t: set<T>)
    requires n <= |s|
    ensures t <= s && |t| == n
  {
    if n == 0 {
      t := {};
    } else {
      var x :| x in s;
      t := SubsetOfSize(s - {x}, n - 1);
      t := t + {x};
    }
  }

  /** The bound is sharp: any set of keys with two thresholds' worth of members can
      give two different hashes a quorum, because `add_vote` does not check membership. */
  lemma TooManyVotersSplit(
    t: VoteType, h: Height, r: Round, total: nat, voters: set<ValidatorId>, b1: BlockHash, b2: BlockHash)
    returns (vs: Tally)
    requires b1 != b2
    requires |voters| >= 2 * EmptyTally(t, h, r, total).Threshold()
    ensures vs.total == total && vs.votes.Keys == voters && vs.Authentic()
    ensures vs.HasQuorum(Some(b1)) && vs.HasQuorum(Some(b2))
    ensures vs.IsQuorumBlock(Some(b1)) && vs.IsQuorumBlock(Some(b2))
  {
    var q := EmptyTally(t, h, r, total).Threshold();
    var first := SubsetOfSize(voters, q);
    vs := Tally(t, h, r, total,
      map k | k in voters :: SignedVote(t, h, r, Some(if k in first then b1 else b2), k));
    assert vs.Supporters(Some(b1)) == first;
    assert vs.Supporters(Some(b2)) == voters - first;
    assert |voters - first| == |voters| - q;
  }

  function CountOf(counts: map<BlockHash, nat>, h: BlockHash): nat {
    if h in counts then counts[h] else 0
  }

  // ---------- what a tally holds after any sequence of votes ----------

  /** The tally once every vote has been offered in turn. */
  function AddAll(vs: Tally, votes: seq<Vote>): Tally {
    if votes == [] then vs else AddAll(vs, votes[..|votes| - 1]).Add(votes[|votes| - 1])
  }

  /** `v` is signed by its own validator, over its own bytes, and is what the tally collects. */
  predicate Counts(vs: Tally, v: Vote) {
    && v.voteType == vs.voteType && v.height == vs.height && v.round == vs.round
    && v.signature == Signature(v.validator, SignBytes(v.voteType, v.height, v.round, v.blockHash))
  }

  /** The first vote of `k` that counts is number `i`. */
  ghost predicate FirstVote(vs: Tally, votes: seq<Vote>, k: ValidatorId, i: nat) {
    && i < |votes| && votes[i].validator == k && Counts(vs, votes[i])
    && forall j :: 0 <= j < i ==> votes[j].validator != k || !Counts(vs, votes[j])
  }

  lemma {:induction false} AddAllSettings(vs: Tally, votes: seq<Vote>)
    ensures var t := AddAll(vs, votes);
            t.voteType == vs.voteType && t.height == vs.height && t.round == vs.round && t.total == vs.total
    decreases |votes|
  {
    if votes != [] {
      AddAllSettings(vs, votes[..|votes| - 1]);
    }
  }

  lemma FirstVoteLonger(vs: Tally, votes: seq<Vote>, k: ValidatorId, i: nat)
    requires votes != [] && i < |votes| - 1
    ensures FirstVote(vs, votes[..|votes| - 1], k, i) <==> FirstVote(vs, votes, k, i)
  {
    var init := votes[..|votes| - 1];
    assert forall j :: 0 <= j <= i ==> init[j] == votes[j];
  }

  lemma AddOne(vs: Tally, t: Tally, v: Vote, k: ValidatorId)
    requires t.voteType == vs.voteType && t.height == vs.height && t.round == vs.round
    ensures k in t.votes ==> k in t.Add(v).votes && t.Add(v).votes[k] == t.votes[k]
    ensures k !in t.votes ==> (k in t.Add(v).votes <==> v.validator == k && Counts(vs, v))
    ensures k !in t.votes && k in t.Add(v).votes ==> t.Add(v).votes[k] == v
  {
  }

  ghost predicate HoldsFirst(vs: Tally, votes: seq<Vote>, k: ValidatorId, t: Tally) {
    && (k in t.votes <==> exists i: nat :: FirstVote(vs, votes, k, i))
    && (forall i: nat :: FirstVote(vs, votes, k, i) ==> k in t.votes && t.votes[k] == votes[i])
  }

  /** Once a key has its vote, later ones are not the first. */
  lemma StillFirst(vs: Tally, votes: seq<Vote>, k: ValidatorId, t: Tally, u: Tally)
    requires votes != [] && HoldsFirst(vs, votes[..|votes| - 1], k, t) && k in t.votes && k in u.votes && u.votes[k] == t.votes[k]
    ensures HoldsFirst(vs, votes, k, u)
  {
    var last := |votes| - 1;
    var i: nat :| FirstVote(vs, votes[..last], k, i);
    FirstVoteLonger(vs, votes, k, i);
    forall j: nat | FirstVote(vs, votes, k, j) ensures j == i {
    }
  }

  lemma NowFirst(vs: Tally, votes: seq<Vote>, k: ValidatorId, t: Tally, u: Tally)
    requires votes != [] && HoldsFirst(vs, votes[..|votes| - 1], k, t) && k !in t.votes
    requires var v := votes[|votes| - 1];
             && (k in u.votes <==> v.validator == k && Counts(vs, v))
             && (k in u.votes ==> u.votes[k] == v)
    ensures HoldsFirst(vs, votes, k, u)
  {
    var last := |votes| - 1;
    NoneCounted(vs, votes[..last], k);
    assert forall j :: 0 <= j < last ==> votes[..last][j] == votes[j];
    forall j: nat | FirstVote(vs, votes, k, j) ensures j == last {
    }
    assert k in u.votes ==> FirstVote(vs, votes, k, last);
  }

  /** An empty tally that has been offered `votes` holds exactly the first vote of each key that counts, whoever
      the key belongs to, nil votes included. */
  lemma {:induction false} HoldsFirstVotes(vs: Tally, votes: seq<Vote>, k: ValidatorId)
    requires vs.votes == map[]
    ensures HoldsFirst(vs, votes, k, AddAll(vs, votes))
    decreases |votes|
  {
    if votes != [] {
      var init, v := votes[..|votes| - 1], votes[|votes| - 1];
      var t := AddAll(vs, init);
      HoldsFirstVotes(vs, init, k);
      AddAllSettings(vs, init);
      AddOne(vs, t, v, k);
      if k in t.votes {
        StillFirst(vs, votes, k, t, t.Add(v));
      } else {
        NowFirst(vs, votes, k, t, t.Add(v));
      }
    }
  }

  /** If no vote is the first, none counts. */
  lemma {:induction false} NoneCounted(vs: Tally, votes: seq<Vote>, k: ValidatorId)
    requires forall i: nat :: !FirstVote(vs, votes, k, i)
    ensures forall j :: 0 <= j < |votes| ==> votes[j].validator != k || !Counts(vs, votes[j])
    decreases |votes|
  {
    if votes != [] {
      var last := |votes| - 1;
      forall i: nat ensures !FirstVote(vs, votes[..last], k, i) {
        if i < last {
          FirstVoteLonger(vs, votes, k, i);
        }
      }
      NoneCounted(vs, votes[..last], k);
      assert forall j :: 0 <= j < last ==> votes[..last][j] == votes[j];
      assert !FirstVote(vs, votes, k, last);
    }
  }

  lemma WalkOne(vs: Tally, todo: set<ValidatorId>, k: ValidatorId, b: Option<BlockHash>)
    requires k in todo && todo <= vs.votes.Keys
    ensures |vs.Walked(b, todo - {k})| == |vs.Walked(b, todo)| + (if vs.votes[k].blockHash == b then 1 else 0)
  {
    if vs.votes[k].blockHash == b {
      assert vs.Walked(b, todo - {k}) == vs.Walked(b, todo) + {k};
    } else {
      assert vs.Walked(b, todo - {k}) == vs.Walked(b, todo);
    }
  }

  /** One more vote for a hash; nil votes are skipped. */
  function Bump(counts: map<BlockHash, nat>, b: Option<BlockHash>): map<BlockHash, nat> {
    if b.Some? then counts[b.value := CountOf(counts, b.value) + 1] else counts
  }

  /** `counts` has counted every vote outside `todo`. */
  ghost predicate CountedAllBut(vs: Tally, counts: map<BlockHash, nat>, todo: set<ValidatorId>) {
    forall h: BlockHash :: CountOf(counts, h) == |vs.Walked(Some(h), todo)|
  }

  lemma CountOne(vs: Tally, counts: map<BlockHash, nat>, todo: set<ValidatorId>, k: ValidatorId)
    requires k in todo && todo <= vs.votes.Keys && CountedAllBut(vs, counts, todo)
    ensures CountedAllBut(vs, Bump(counts, vs.votes[k].blockHash), todo - {k})
  {
    forall h: BlockHash
      ensures CountOf(Bump(counts, vs.votes[k].blockHash), h) == |vs.Walked(Some(h), todo - {k})|
    {
      WalkOne(vs, todo, k, Some(h));
    }
  }

  lemma CountEnds(vs: Tally, counts: map<BlockHash, nat>)
    ensures CountedAllBut(vs, map[], vs.votes.Keys)
    ensures CountedAllBut(vs, counts, {}) ==>
      forall h: BlockHash :: CountOf(counts, h) == |vs.Supporters(Some(h))|
  {
    assert forall h: BlockHash :: vs.Walked(Some(h), vs.votes.Keys) == {};
    assert forall h: BlockHash :: vs.Walked(Some(h), {}) == vs.Supporters(Some(h));
  }

  // ---------- the vote set itself ----------

  class VoteSet {
    const voteType: VoteType
    const height: Height
    const round: Round
    const totalValidators: nat
    var votes: map<ValidatorId, Vote>

    ghost function Value(): Tally
      reads this
    {
      Tally(voteType, height, round, totalValidators, votes)
    }

    constructor (t: VoteType, h: Height, r: Round, total: nat)
      ensures Value() == EmptyTally(t, h, r, total)
      ensures Value().Authentic()
    {
      voteType, height, round, totalValidators := t, h, r, total;
      votes := map[];
    }

    /** `add_vote`: keeps the first authentic vote of each key. */
    method AddVote(v: Vote) returns (added: bool)
      requires Value().Authentic()
      modifies this
      ensures Value().Authentic()
      ensures Value() == old(Value()).Add(v)
      ensures added <==> old(Value()).Accepts(v)
      ensures added <==> |votes| == |old(votes)| + 1
      ensures !added ==> votes == old(votes)
    {
      if v.voteType != voteType || v.height != height || v.round != round {
        return false;
      }
      if !Verifies(v) {
        return false;
      }
      if v.validator in votes {
        return false;
      }
      votes := votes[v.validator := v];
      return true;
    }

    method IsQuorum(count: nat) returns (r: bool)
      ensures r <==> Value().IsQuorum(count)
    {
      r := count * 3 > totalValidators * 2;
    }

    /** Counts the stored votes for `b`, walking the map in any order. */
    method CountFor(b: Option<BlockHash>) returns (n: nat)
      ensures n == |Value().Supporters(b)|
    {
      n := 0;
      var todo := votes.Keys;
      assert Value().Walked(b, todo) == {};
      while todo != {}
        invariant todo <= votes.Keys
        invariant n == |Value().Walked(b, todo)|
        decreases |todo|
      {
        var k :| k in todo;
        WalkOne(Value(), todo, k, b);
        todo := todo - {k};
        if votes[k].blockHash == b {
          n := n + 1;
        }
      }
      assert Value().Walked(b, {}) == Value().Supporters(b);
    }

    method HasQuorumFor(hash: BlockHash) returns (r: bool)
      ensures r <==> Value().HasQuorum(Some(hash))
    {
      var n := CountFor(Some(hash));
      r := IsQuorum(n);
    }

    method HasQuorumForNil() returns (r: bool)
      ensures r <==> Value().HasQuorum(None)
    {
      var n := CountFor(None);
      r := IsQuorum(n);
    }

    method HasTwoThirdsAny() returns (r: bool)
      ensures r <==> Value().TwoThirdsAny()
    {
      r := IsQuorum(|votes|);
    }

    /** `quorum_block`, first loop: tally the votes per hash. */
    method Counts() returns (counts: map<BlockHash, nat>)
      ensures forall h: BlockHash :: CountOf(counts, h) == |Value().Supporters(Some(h))|
    {
      counts := map[];
      var todo := votes.Keys;
      CountEnds(Value(), counts);
      while todo != {}
        invariant todo <= votes.Keys && CountedAllBut(Value(), counts, todo)
        decreases |todo|
      {
        var k :| k in todo;
        CountOne(Value(), counts, todo, k);
        todo := todo - {k};
        counts := Bump(counts, votes[k].blockHash);
      }
      CountEnds(Value(), counts);
    }

    /** `quorum_block`: some hash with a quorum, if there is one. */
    method QuorumBlock() returns (q: Option<BlockHash>)
      ensures Value().IsQuorumBlock(q)
    {
      var counts := Counts();
      var todo := counts.Keys;
      while todo != {}
        invariant todo <= counts.Keys
        invariant forall h: BlockHash :: h in counts && h !in todo ==> !Value().HasQuorum(Some(h))
        decreases |todo|
      {
        var h :| h in todo;
        todo := todo - {h};
        var enough := IsQuorum(counts[h]);
        if enough {
          return Some(h);
        }
      }
      forall h: BlockHash
        ensures !Value().HasQuorum(Some(h))
      {
        assert h !in counts ==> |Value().Supporters(Some(h))| == 0;
      }
      return None;
    }
  }
}
