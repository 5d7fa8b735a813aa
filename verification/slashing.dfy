/** Evidence and slashing (runtime/slashing/src/engine.rs, evidence.rs, types.rs).

    The evidence hash is a parameter; as in the source it does not look at the processed flag. */
module Slashing {
  import opened Words
  import opened Arith
  import opened MapSums
  import opened Staking
  import opened ValidatorSets
  import opened ValidatorManagers

  datatype Offense = DoubleSign | Downtime | InvalidBlock

  datatype Charge = Charge(offense: Offense, offender: PublicKey, height: u64, data: seq<byte>)

  datatype Evidence = Evidence(charge: Charge, processed: bool)

  datatype SlashEvent = SlashEvent(offender: PublicKey, offense: Offense, amount: u64, height: u64, evidenceHash: Bytes32)

  datatype SlashingError = InvalidEvidence | DuplicateEvidence | ValidatorNotFound(pubkey: PublicKey)

  /** Slash ratios in basis points. */
  datatype Config = Config(doubleSign: u64, downtime: u64, invalidBlock: u64) {
    function Bps(o: Offense): u64 {
      match o
      case DoubleSign => doubleSign
      case Downtime => downtime
      case InvalidBlock => invalidBlock
    }

    /** No offence costs more than the whole stake. */
    predicate AtMostAll() { doubleSign <= 10_000 && downtime <= 10_000 && invalidBlock <= 10_000 }
  }

  type History = map<PublicKey, seq<SlashEvent>>

  /** Everything slashing touches. */
  datatype World = World(treasury: u64, history: History, validators: Validators, pool: Pool)

  /** The share of a stake, cast back to 64 bits. */
  function SlashAmount(stake: u64, bps: u64): u64 { (stake * bps / 10_000) % U64_SIZE }

  function EventsOf(history: History, k: PublicKey): seq<SlashEvent> { if k in history then history[k] else [] }

  /** The event `process_single_evidence` produces, if the offender is known and loses anything. */
  function Verdict(cfg: Config, w: World, c: Charge, hashOf: Charge -> Bytes32): Option<SlashEvent> {
    if c.offender !in w.validators then None
    else
      var amount := SlashAmount(w.validators[c.offender].stake, cfg.Bps(c.offense));
      if amount == 0 then None else Some(SlashEvent(c.offender, c.offense, amount, c.height, hashOf(c)))
  }

  function Slashed(v: ValidatorInfo, amount: u64): ValidatorInfo {
    v.(stake := SaturatingSub(v.stake, amount), status := Jailed)
  }

  function Apply(w: World, e: SlashEvent): World
    requires e.offender in w.validators
  {
    World(SaturatingAdd(w.treasury, e.amount),
          w.history[e.offender := EventsOf(w.history, e.offender) + [e]],
          w.validators[e.offender := Slashed(w.validators[e.offender], e.amount)],
          Unstake(w.pool, e.offender, e.amount).pool)
  }

  function ProcessOne(cfg: Config, w: World, c: Charge, hashOf: Charge -> Bytes32): World {
    match Verdict(cfg, w, c, hashOf)
    case Some(e) => Apply(w, e)
    case None => w
  }

  function ProcessAll(cfg: Config, w: World, cs: seq<Charge>, hashOf: Charge -> Bytes32): World {
    if cs == [] then w else ProcessOne(cfg, ProcessAll(cfg, w, cs[..|cs| - 1], hashOf), cs[|cs| - 1], hashOf)
  }

  /** The events of a whole batch, in order. */
  function EventsFrom(cfg: Config, w: World, cs: seq<Charge>, hashOf: Charge -> Bytes32): seq<SlashEvent> {
    if cs == [] then []
    else
      var init := cs[..|cs| - 1];
      var v := Verdict(cfg, ProcessAll(cfg, w, init, hashOf), cs[|cs| - 1], hashOf);
      EventsFrom(cfg, w, init, hashOf) + if v.Some? then [v.value] else []
  }

  // ---------- conservation ----------

  function StakeOf(v: ValidatorInfo): nat { v.stake }

  function SlashTotal(es: seq<SlashEvent>): nat { if es == [] then 0 else es[|es| - 1].amount + SlashTotal(es[..|es| - 1]) }

  /** Treasury plus all validator stakes. */
  ghost function Wealth(w: World): nat { w.treasury + SumBy(w.validators, StakeOf) }

  /** The treasury is what the recorded events took. */
  ghost predicate Booked(w: World) { w.treasury == SumBy(w.history, SlashTotal) }

  /** A slash never exceeds the stake, whatever the stake, exactly when the ratio is at most all
      of it. */
  lemma SlashWithinStakeIff(bps: u64)
    ensures (forall stake: u64 :: SlashAmount(stake, bps) <= stake) <==> bps <= 10_000
  {
    if bps <= 10_000 {
      forall stake: u64
        ensures SlashAmount(stake, bps) <= stake
      {
        SlashWithinStake(stake, bps);
      }
    } else {
      assert SlashAmount(10_000, bps) == bps > 10_000;
    }
  }

  lemma SlashWithinStake(stake: u64, bps: u64)
    requires bps <= 10_000
    ensures SlashAmount(stake, bps) <= stake && SlashAmount(stake, bps) == stake * bps / 10_000
  {
    MulMonotone(stake, bps, 10_000);
    DivMonotone(stake * bps, stake * 10_000, 10_000);
    DivModUnique(stake * 10_000, 10_000, stake, 0);
    DivModUnique(stake * bps / 10_000, U64_SIZE, 0, stake * bps / 10_000);
  }

  /** What an event really takes from its offender. */
  function Taken(w: World, e: SlashEvent): nat
    requires e.offender in w.validators
  {
    Min(e.amount, w.validators[e.offender].stake)
  }

  /** What the treasury has room for. */
  function Banked(w: World, e: SlashEvent): nat { Min(e.amount, U64_MAX - w.treasury) }

  lemma StakeMoves(vs: Validators, k: PublicKey, amount: u64)
    requires k in vs
    ensures SumBy(vs[k := Slashed(vs[k], amount)], StakeOf) + Min(amount, vs[k].stake) == SumBy(vs, StakeOf)
  {
    SumUpdate(vs, StakeOf, k, Slashed(vs[k], amount));
  }

  lemma BooksGrow(history: History, e: SlashEvent)
    ensures SumBy(history[e.offender := EventsOf(history, e.offender) + [e]], SlashTotal)
            == SumBy(history, SlashTotal) + e.amount
  {
    var es := EventsOf(history, e.offender);
    assert (es + [e])[..|es|] == es;
    SumUpdate(history, SlashTotal, e.offender, es + [e]);
  }

  /** Any event, in any state: what leaves the stake, what reaches the treasury, and what is booked. So wealth
      is kept exactly when the two are equal, and the books exactly when the treasury has room. */
  lemma ApplyConservesIff(w: World, e: SlashEvent)
    requires e.offender in w.validators
    ensures Wealth(Apply(w, e)) + Taken(w, e) == Wealth(w) + Banked(w, e)
    ensures Wealth(Apply(w, e)) == Wealth(w) <==> Taken(w, e) == Banked(w, e)
    ensures Booked(w) ==> (Booked(Apply(w, e)) <==> w.treasury + e.amount <= U64_MAX)
  {
    StakeMoves(w.validators, e.offender, e.amount);
    BooksGrow(w.history, e);
  }

  /** A slash of twice the stake makes money: 10,000 are lost and 20,000 reach the treasury. */
  lemma OverslashingCreates(cfg: Config, v: ValidatorInfo, c: Charge, hashOf: Charge -> Bytes32)
    requires cfg.Bps(c.offense) == 20_000 && v.stake == 10_000
    ensures var w := World(0, map[], map[c.offender := v], EMPTY_POOL);
            Wealth(ProcessOne(cfg, w, c, hashOf)) == Wealth(w) + 10_000
  {
    var w := World(0, map[], map[c.offender := v], EMPTY_POOL);
    assert SlashAmount(10_000, 20_000) == 20_000;
    ApplyConservesIff(w, Verdict(cfg, w, c, hashOf).value);
  }

  /** As long as the event takes no more than the stake and the treasury holds it, both are kept. */
  lemma ApplyConserves(w: World, e: SlashEvent)
    requires e.offender in w.validators && e.amount <= w.validators[e.offender].stake && Wealth(w) <= U64_MAX
    ensures Wealth(Apply(w, e)) == Wealth(w)
    ensures Booked(w) ==> Booked(Apply(w, e))
  {
    SumAtLeast(w.validators, StakeOf, e.offender);
    ApplyConservesIff(w, e);
  }

  /** What a batch makes (or, if negative, destroys). */
  ghost function Made(cfg: Config, w: World, cs: seq<Charge>, hashOf: Charge -> Bytes32): int {
    if cs == [] then 0
    else
      var init := cs[..|cs| - 1];
      var mid := ProcessAll(cfg, w, init, hashOf);
      var v := Verdict(cfg, mid, cs[|cs| - 1], hashOf);
      Made(cfg, w, init, hashOf) + if v.Some? then Banked(mid, v.value) - Taken(mid, v.value) else 0
  }

  /** Any batch, with any ratios, from any state: wealth moves by exactly that. */
  lemma {:induction false} ProcessAllMakes(cfg: Config, w: World, cs: seq<Charge>, hashOf: Charge -> Bytes32)
    ensures Wealth(ProcessAll(cfg, w, cs, hashOf)) == Wealth(w) + Made(cfg, w, cs, hashOf)
    decreases |cs|
  {
    if cs != [] {
      var init, c := cs[..|cs| - 1], cs[|cs| - 1];
      ProcessAllMakes(cfg, w, init, hashOf);
      var mid := ProcessAll(cfg, w, init, hashOf);
      if Verdict(cfg, mid, c, hashOf).Some? {
        ApplyConservesIff(mid, Verdict(cfg, mid, c, hashOf).value);
      }
    }
  }

  /** What an event takes from the pool: if the offender has that much unlocked, exactly the amount leaves their
      entries and the total; otherwise the pool is left alone. */
  lemma SlashFromPool(w: World, e: SlashEvent)
    requires e.offender in w.validators && e.amount > 0
    ensures var r, k, p := Apply(w, e).pool, e.offender, w.pool;
            if k in p.stakes && e.amount <= UnlockedOf(p.stakes[k], p.epoch) % U64_SIZE
            then && TotalOf(EntriesOf(r.stakes, k)) + e.amount == TotalOf(p.stakes[k])
                 && UnlockedOf(EntriesOf(r.stakes, k), p.epoch) + e.amount == UnlockedOf(p.stakes[k], p.epoch)
                 && (e.amount <= p.total ==> r.total == p.total - e.amount)
            else r == p
  {
    var k, p := e.offender, w.pool;
    UnstakeOutcome(p, k, e.amount);
    if k in p.stakes && e.amount <= UnlockedOf(p.stakes[k], p.epoch) % U64_SIZE {
      ModSubtract(UnlockedOf(p.stakes[k], p.epoch), e.amount);
      WithdrawTakes(p.stakes[k], e.amount, p.epoch);
      if e.amount <= p.total {
        DivModUnique(p.total - e.amount, U64_SIZE, 0, p.total - e.amount);
      }
    }
  }

  lemma ApplyEffect(w: World, e: SlashEvent)
    requires e.offender in w.validators && e.amount <= w.validators[e.offender].stake && w.treasury + e.amount <= U64_MAX
    ensures var r, v := Apply(w, e), w.validators[e.offender];
            && r.validators[e.offender] == v.(stake := v.stake - e.amount, status := Jailed)
            && r.treasury == w.treasury + e.amount
            && EventsOf(r.history, e.offender) == EventsOf(w.history, e.offender) + [e]
  {
  }

  /** Basis points by offence. */
  function Ratio(cfg: Config, o: Offense): u64 {
    if o == DoubleSign then cfg.doubleSign else if o == Downtime then cfg.downtime else cfg.invalidBlock
  }

  /** What each offence costs, with ratios of at most all: its own ratio of the recorded stake, rounded down. Nothing
      happens when that comes to nothing; otherwise the stake moves to the treasury and the offender goes to jail. */
  lemma OffenceCosts(cfg: Config, w: World, c: Charge, hashOf: Charge -> Bytes32)
    requires cfg.AtMostAll() && c.offender in w.validators && Wealth(w) <= U64_MAX
    ensures var v := w.validators[c.offender];
            var amount, r := v.stake * Ratio(cfg, c.offense) / 10_000, ProcessOne(cfg, w, c, hashOf);
            if amount == 0 then r == w
            else
              && 0 <= amount <= v.stake
              && r.validators[c.offender] == v.(stake := v.stake - amount, status := Jailed)
              && r.treasury == w.treasury + amount
              && EventsOf(r.history, c.offender)
                 == EventsOf(w.history, c.offender) + [SlashEvent(c.offender, c.offense, amount, c.height, hashOf(c))]
  {
    var v := w.validators[c.offender];
    SumAtLeast(w.validators, StakeOf, c.offender);
    SlashWithinStake(v.stake, Ratio(cfg, c.offense));
    var amount := SlashAmount(v.stake, Ratio(cfg, c.offense));
    if amount > 0 {
      ApplyEffect(w, SlashEvent(c.offender, c.offense, amount, c.height, hashOf(c)));
    }
  }

  lemma StrangerUntouched(cfg: Config, w: World, c: Charge, hashOf: Charge -> Bytes32)
    requires c.offender !in w.validators
    ensures ProcessOne(cfg, w, c, hashOf) == w
  {
  }

  /** Who is not the offender is not touched: neither validator record, nor own stake entries, nor
      any delegation at all. */
  ghost predicate OnlyOffender(w: World, x: World, k: PublicKey) {
    && x.pool.delegations == w.pool.delegations && x.pool.epoch == w.pool.epoch
    && x.validators.Keys == w.validators.Keys
    && (forall j :: j in w.validators && j != k ==> x.validators[j] == w.validators[j])
    && (forall j :: j != k ==> EntriesOf(x.pool.stakes, j) == EntriesOf(w.pool.stakes, j))
    && (forall j :: j != k ==> EventsOf(x.history, j) == EventsOf(w.history, j))
  }

  lemma ProcessOneLocal(cfg: Config, w: World, c: Charge, hashOf: Charge -> Bytes32)
    ensures OnlyOffender(w, ProcessOne(cfg, w, c, hashOf), c.offender)
    ensures Verdict(cfg, w, c, hashOf).Some? ==> ProcessOne(cfg, w, c, hashOf).validators[c.offender].status == Jailed
  {
  }

  lemma ProcessOneConserves(cfg: Config, w: World, c: Charge, hashOf: Charge -> Bytes32)
    requires cfg.AtMostAll() && Wealth(w) <= U64_MAX
    ensures Wealth(ProcessOne(cfg, w, c, hashOf)) == Wealth(w)
    ensures Booked(w) ==> Booked(ProcessOne(cfg, w, c, hashOf))
  {
    var v := Verdict(cfg, w, c, hashOf);
    if v.Some? {
      SlashWithinStake(w.validators[c.offender].stake, cfg.Bps(c.offense));
      ApplyConserves(w, v.value);
    }
  }

  /** Slashing conservation over any batch of evidence in any order: treasury plus validator stakes
      is constant, the treasury is the sum of the recorded events, delegations are untouched, and
      so is every validator that no evidence names. */
  lemma {:induction false} ProcessAllConserves(cfg: Config, w: World, cs: seq<Charge>, hashOf: Charge -> Bytes32)
    requires cfg.AtMostAll() && Wealth(w) <= U64_MAX && Booked(w)
    ensures var x := ProcessAll(cfg, w, cs, hashOf);
            && Wealth(x) == Wealth(w) && Booked(x)
            && x.pool.delegations == w.pool.delegations
            && x.validators.Keys == w.validators.Keys
            && (forall k :: k in w.validators && (forall i :: 0 <= i < |cs| ==> cs[i].offender != k) ==>
                  x.validators[k] == w.validators[k] && EntriesOf(x.pool.stakes, k) == EntriesOf(w.pool.stakes, k))
    decreases |cs|
  {
    if cs != [] {
      var init, c := cs[..|cs| - 1], cs[|cs| - 1];
      ProcessAllConserves(cfg, w, init, hashOf);
      var mid := ProcessAll(cfg, w, init, hashOf);
      ProcessOneConserves(cfg, mid, c, hashOf);
      ProcessOneLocal(cfg, mid, c, hashOf);
      forall k | k in w.validators && forall i :: 0 <= i < |cs| ==> cs[i].offender != k
        ensures ProcessOne(cfg, mid, c, hashOf).validators[k] == w.validators[k]
        ensures EntriesOf(ProcessOne(cfg, mid, c, hashOf).pool.stakes, k) == EntriesOf(w.pool.stakes, k)
      {
        assert forall i :: 0 <= i < |init| ==> init[i] == cs[i];
        assert c.offender != k;
      }
    }
  }

  lemma {:induction false} ProcessAllKeepsWealth(cfg: Config, w: World, cs: seq<Charge>, hashOf: Charge -> Bytes32)
    requires cfg.AtMostAll() && Wealth(w) <= U64_MAX
    ensures Wealth(ProcessAll(cfg, w, cs, hashOf)) == Wealth(w)
    decreases |cs|
  {
    if cs != [] {
      ProcessAllKeepsWealth(cfg, w, cs[..|cs| - 1], hashOf);
      ProcessOneConserves(cfg, ProcessAll(cfg, w, cs[..|cs| - 1], hashOf), cs[|cs| - 1], hashOf);
    }
  }

  /** The world in which a too high ratio shows: one validator, with a stake of 10,000. */
  function LoneValidator(k: PublicKey): World {
    World(0, map[], map[k := ValidatorInfo(k, 10_000, 0, Active, 10_000, 0)], EMPTY_POOL)
  }

  lemma LoneWealth(k: PublicKey)
    ensures Wealth(LoneValidator(k)) == 10_000
  {
    var w := LoneValidator(k);
    SumRemove(w.validators, StakeOf, k);
    assert w.validators - {k} == map[];
  }

  lemma TooHighRatioCreates(cfg: Config, c: Charge, hashOf: Charge -> Bytes32)
    requires cfg.Bps(c.offense) > 10_000
    ensures Wealth(ProcessAll(cfg, LoneValidator(c.offender), [c], hashOf)) > 10_000
  {
    var w := LoneValidator(c.offender);
    LoneWealth(c.offender);
    SlashOfTenThousand(cfg.Bps(c.offense));
    ApplyConservesIff(w, Verdict(cfg, w, c, hashOf).value);
    assert [c][..0] == [];
    assert ProcessAll(cfg, w, [], hashOf) == w;
  }

  lemma SlashOfTenThousand(bps: u64)
    ensures SlashAmount(10_000, bps) == bps
  {
    DivModUnique(10_000 * bps, 10_000, bps, 0);
    DivModUnique(bps, U64_SIZE, 0, bps);
  }

  /** Every batch on every world that fits 64 bits keeps treasury plus stakes. */
  ghost predicate KeepsWealth(cfg: Config, hashOf: Charge -> Bytes32) {
    forall w, cs :: Wealth(w) <= U64_MAX ==> Wealth(ProcessAll(cfg, w, cs, hashOf)) == Wealth(w)
  }

  /** It does, if and only if no ratio exceeds 10,000 basis points. */
  lemma KeepsWealthIff(cfg: Config, hashOf: Charge -> Bytes32)
    ensures KeepsWealth(cfg, hashOf) <==> cfg.AtMostAll()
  {
    if cfg.AtMostAll() {
      forall w, cs | Wealth(w) <= U64_MAX ensures Wealth(ProcessAll(cfg, w, cs, hashOf)) == Wealth(w) {
        ProcessAllKeepsWealth(cfg, w, cs, hashOf);
      }
    } else {
      var o := if cfg.doubleSign > 10_000 then DoubleSign else if cfg.downtime > 10_000 then Downtime else InvalidBlock;
      var c := Charge(o, 0, 0, []);
      LoneWealth(0);
      TooHighRatioCreates(cfg, c, hashOf);
    }
  }

  /** Slashing only ever takes: no validator's recorded stake grows. */
  lemma {:induction false} StakesOnlyShrink(cfg: Config, w: World, cs: seq<Charge>, hashOf: Charge -> Bytes32, k: PublicKey)
    requires k in w.validators
    ensures k in ProcessAll(cfg, w, cs, hashOf).validators
    ensures ProcessAll(cfg, w, cs, hashOf).validators[k].stake <= w.validators[k].stake
    decreases |cs|
  {
    if cs != [] {
      StakesOnlyShrink(cfg, w, cs[..|cs| - 1], hashOf, k);
    }
  }

  // ---------- the evidence pool ----------

  /** The bytes of "direct_slash". */
  const DIRECT_SLASH: seq<byte> := [100, 105, 114, 101, 99, 116, 95, 115, 108, 97, 115, 104]

  type Records = map<Bytes32, Evidence>

  function Pending(records: Records): set<Bytes32> { set h | h in records && !records[h].processed }

  function Marked(records: Records, h: Bytes32): Records {
    if h in records then records[h := records[h].(processed := true)] else records
  }

  /** Each record is filed under the hash of its charge. */
  ghost predicate Filed(records: Records, hashOf: Charge -> Bytes32) {
    forall h :: h in records ==> hashOf(records[h].charge) == h
  }

  /** Why a submission is refused. */
  function Objection(records: Records, e: Evidence, hashOf: Charge -> Bytes32): Option<SlashingError> {
    if e.charge.data == [] then Some(InvalidEvidence)
    else if hashOf(e.charge) in records then Some(DuplicateEvidence)
    else None
  }

  class EvidencePool {
    const hashOf: Charge -> Bytes32
    var records: Records

    constructor (hashOf: Charge -> Bytes32)
      ensures this.hashOf == hashOf && records == map[]
    {
      this.hashOf := hashOf;
      records := map[];
    }

    /** A record that is empty, or already known (processed or not), is refused; otherwise its hash is returned. */
    method SubmitEvidence(e: Evidence) returns (hash: Option<Bytes32>, error: Option<SlashingError>)
      requires Filed(records, hashOf)
      modifies this
      ensures Filed(records, hashOf)
      ensures error == Objection(old(records), e, hashOf)
      ensures hash == if error.None? then Some(hashOf(e.charge)) else None
      ensures records == if error.None? then old(records)[hashOf(e.charge) := e] else old(records)
    {
      if e.charge.data == [] {
        return None, Some(InvalidEvidence);
      }
      var h := hashOf(e.charge);
      if h in records {
        return None, Some(DuplicateEvidence);
      }
      records := records[h := e];
      return Some(h), None;
    }

    method MarkProcessed(h: Bytes32) returns (found: bool)
      requires Filed(records, hashOf)
      modifies this
      ensures Filed(records, hashOf)
      ensures records == Marked(old(records), h) && (found <==> h in old(records))
    {
      if h in records {
        records := records[h := records[h].(processed := true)];
        return true;
      }
      return false;
    }
  }

  // ---------- the engine ----------

  class SlashingEngine {
    const config: Config
    const evidence: EvidencePool
    var history: History
    var treasury: u64
    /** The hashes of the pooled records acted on so far, in order. */
    ghost var acted: seq<Bytes32>

    /** Nothing has been acted on twice, and whatever was is marked. */
    ghost predicate Valid()
      reads this, evidence
    {
      && Filed(evidence.records, evidence.hashOf)
      && (forall i, j :: 0 <= i < j < |acted| ==> acted[i] != acted[j])
      && (forall i :: 0 <= i < |acted| ==> acted[i] in evidence.records && evidence.records[acted[i]].processed)
    }

    ghost function Value(vset: ValidatorSetManager, pool: StakingPool): World
      reads this, vset, pool
    {
      World(treasury, history, vset.validators, pool.Value())
    }

    constructor (config: Config, hashOf: Charge -> Bytes32)
      ensures Valid() && fresh(evidence) && evidence.records == map[]
      ensures this.config == config && evidence.hashOf == hashOf
      ensures treasury == 0 && history == map[] && acted == []
    {
      this.config := config;
      evidence := new EvidencePool(hashOf);
      history, treasury, acted := map[], 0, [];
    }

    method Submit(e: Evidence) returns (hash: Option<Bytes32>, error: Option<SlashingError>)
      requires Valid()
      modifies evidence
      ensures Valid()
      ensures error == Objection(old(evidence.records), e, evidence.hashOf)
      ensures hash == if error.None? then Some(evidence.hashOf(e.charge)) else None
      ensures evidence.records ==
        if error.None? then old(evidence.records)[evidence.hashOf(e.charge) := e] else old(evidence.records)
    {
      hash, error := evidence.SubmitEvidence(e);
    }

    /** `process_single_evidence`. */
    method ProcessSingle(c: Charge, vset: ValidatorSetManager, pool: StakingPool) returns (event: Option<SlashEvent>)
      requires vset.Valid()
      modifies this`history, this`treasury, vset`validators, pool
      ensures vset.Valid()
      ensures event == Verdict(config, old(Value(vset, pool)), c, evidence.hashOf)
      ensures Value(vset, pool) == ProcessOne(config, old(Value(vset, pool)), c, evidence.hashOf)
    {
      if c.offender !in vset.validators {
        return None;
      }
      var own := vset.validators[c.offender].stake;
      var amount := SlashAmount(own, config.Bps(c.offense));
      if amount == 0 {
        return None;
      }
      var _ := vset.UpdateStake(c.offender, SaturatingSub(own, amount));
      var _ := pool.UnstakeTokens(c.offender, amount);
      treasury := SaturatingAdd(treasury, amount);
      var _ := vset.JailValidator(c.offender);
      var e := SlashEvent(c.offender, c.offense, amount, c.height, evidence.hashOf(c));
      history := history[c.offender := EventsOf(history, c.offender) + [e]];
      return Some(e);
    }

    /** `slash_validator`: the same penalty without pooled evidence; no penalty is reported as an
        unknown validator, also when the amount rounds to zero. */
    method SlashValidator(k: PublicKey, offense: Offense, height: u64, vset: ValidatorSetManager, pool: StakingPool)
      returns (event: Option<SlashEvent>, error: Option<SlashingError>)
      requires vset.Valid()
      modifies this`history, this`treasury, vset`validators, pool
      ensures vset.Valid()
      ensures var c := Charge(offense, k, height, DIRECT_SLASH);
              && event == Verdict(config, old(Value(vset, pool)), c, evidence.hashOf)
              && Value(vset, pool) == ProcessOne(config, old(Value(vset, pool)), c, evidence.hashOf)
      ensures error == if event.None? then Some(ValidatorNotFound(k)) else None
    {
      event := ProcessSingle(Charge(offense, k, height, DIRECT_SLASH), vset, pool);
      error := if event.None? then Some(ValidatorNotFound(k)) else None;
    }

    /** One turn of the loop in `process_all_evidence`: slash, then mark the record. */
    method ActOn(ghost h: Bytes32, c: Charge, vset: ValidatorSetManager, pool: StakingPool) returns (event: Option<SlashEvent>)
      requires Valid() && vset.Valid()
      requires h in evidence.records && !evidence.records[h].processed && evidence.records[h].charge == c
      modifies this, evidence, vset`validators, pool
      ensures Valid() && vset.Valid()
      ensures event == Verdict(config, old(Value(vset, pool)), c, evidence.hashOf)
      ensures Value(vset, pool) == ProcessOne(config, old(Value(vset, pool)), c, evidence.hashOf)
      ensures evidence.records == Marked(old(evidence.records), h) && acted == old(acted) + [h]
    {
      ActOnce(acted, evidence.records, h);
      event := ProcessSingle(c, vset, pool);
      var _ := evidence.MarkProcessed(evidence.hashOf(c));
      acted := acted + [h];
    }

    /** One turn of the loop in `process_all_evidence`, with what it has done so far. */
    method TakeTurn(h: Bytes32, c: Charge, vset: ValidatorSetManager, pool: StakingPool, events: seq<SlashEvent>,
                    ghost r0: Records, ghost w: World, ghost todo: set<Bytes32>, ghost order: seq<Bytes32>, ghost charges: seq<Charge>)
      returns (more: seq<SlashEvent>)
      requires Valid() && vset.Valid() && h in todo && todo <= Pending(r0) && r0[h].charge == c
      requires Progress(r0, evidence.records, todo, order, charges)
      requires BatchDone(config, w, charges, evidence.hashOf, Value(vset, pool), events)
      modifies this, evidence, vset`validators, pool
      ensures Valid() && vset.Valid()
      ensures Progress(r0, evidence.records, todo - {h}, order + [h], charges + [c])
      ensures BatchDone(config, w, charges + [c], evidence.hashOf, Value(vset, pool), more)
      ensures acted == old(acted) + [h]
    {
      ProgressStep(r0, evidence.records, todo, order, charges, h);
      BatchStep(config, w, charges, c, evidence.hashOf, Value(vset, pool), events);
      var event := ActOn(h, c, vset, pool);
      more := if event.Some? then events + [event.value] else events;
    }

    /** The loop of `process_all_evidence`, over a snapshot of the records. */
    method ActOnPending(snapshot: Records, vset: ValidatorSetManager, pool: StakingPool, ghost w: World)
      returns (events: seq<SlashEvent>, ghost order: seq<Bytes32>, ghost charges: seq<Charge>)
      requires Valid() && vset.Valid() && evidence.records == snapshot && Value(vset, pool) == w
      modifies this, evidence, vset`validators, pool
      ensures Valid() && vset.Valid()
      ensures Progress(snapshot, evidence.records, {}, order, charges)
      ensures BatchDone(config, w, charges, evidence.hashOf, Value(vset, pool), events)
      ensures acted == old(acted) + order
    {
      events, order, charges := [], [], [];
      ghost var before := acted;
      var todo := Pending(snapshot);
      ProgressStart(snapshot);
      while todo != {}
        invariant Valid() && vset.Valid()
        invariant todo <= Pending(snapshot) && acted == before + order
        invariant Progress(snapshot, evidence.records, todo, order, charges)
        invariant BatchDone(config, w, charges, evidence.hashOf, Value(vset, pool), events)
        decreases |todo|
      {
        var h :| h in todo;
        var c := snapshot[h].charge;
        assert before + (order + [h]) == before + order + [h];
        events := TakeTurn(h, c, vset, pool, events, snapshot, w, todo, order, charges);
        order, charges := order + [h], charges + [c];
        todo := todo - {h};
      }
    }

    /** `process_all_evidence`: every pending record is acted on once, in some order, and none is
        pending afterwards. */
    method ProcessAllEvidence(vset: ValidatorSetManager, pool: StakingPool)
      returns (events: seq<SlashEvent>, ghost order: seq<Bytes32>, ghost charges: seq<Charge>)
      requires Valid() && vset.Valid()
      modifies this, evidence, vset`validators, pool
      ensures Valid() && vset.Valid()
      ensures IsBatch(old(evidence.records), order, charges)
      ensures Value(vset, pool) == ProcessAll(config, old(Value(vset, pool)), charges, evidence.hashOf)
      ensures events == EventsFrom(config, old(Value(vset, pool)), charges, evidence.hashOf)
      ensures acted == old(acted) + order
      ensures evidence.records == MarkedAll(old(evidence.records))
    {
      var snapshot := evidence.records;
      events, order, charges := ActOnPending(snapshot, vset, pool, Value(vset, pool));
      ProgressDone(snapshot, evidence.records, order, charges);
    }
  }

  function MarkedAll(records: Records): Records { map h | h in records :: records[h].(processed := true) }

  /** `order` lists the pending records once each, and `charges` what they say. */
  ghost predicate IsBatch(records: Records, order: seq<Bytes32>, charges: seq<Charge>) {
    && |order| == |charges|
    && (forall i, j :: 0 <= i < j < |order| ==> order[i] != order[j])
    && (forall h :: h in order <==> h in Pending(records))
    && (forall i :: 0 <= i < |order| ==> order[i] in records && records[order[i]].charge == charges[i])
  }

  /** Part of the way through: `todo` is still to be done and everything else is. */
  ghost predicate Progress(r0: Records, r: Records, todo: set<Bytes32>, order: seq<Bytes32>, charges: seq<Charge>) {
    && |order| == |charges|
    && (forall i, j :: 0 <= i < j < |order| ==> order[i] != order[j])
    && (forall h :: h in order <==> h in Pending(r0) && h !in todo)
    && (forall i :: 0 <= i < |order| ==> order[i] in r0 && r0[order[i]].charge == charges[i])
    && r.Keys == r0.Keys
    && (forall h :: h in r0 ==> r[h] == r0[h].(processed := h !in todo))
  }

  lemma ProgressStart(r0: Records)
    ensures Progress(r0, r0, Pending(r0), [], [])
  {
  }

  lemma ProgressStep(r0: Records, r: Records, todo: set<Bytes32>, order: seq<Bytes32>, charges: seq<Charge>, h: Bytes32)
    requires Progress(r0, r, todo, order, charges) && h in todo && todo <= Pending(r0)
    ensures h in r && !r[h].processed
    ensures Progress(r0, Marked(r, h), todo - {h}, order + [h], charges + [r0[h].charge])
  {
    var more := order + [h];
    assert forall x :: x in more <==> x in order || x == h;
  }

  lemma ProgressDone(r0: Records, r: Records, order: seq<Bytes32>, charges: seq<Charge>)
    requires Progress(r0, r, {}, order, charges)
    ensures IsBatch(r0, order, charges) && r == MarkedAll(r0)
  {
  }

  /** A record still pending has not been acted on. */
  lemma ActOnce(acted: seq<Bytes32>, r: Records, h: Bytes32)
    requires h in r && !r[h].processed
    requires forall i :: 0 <= i < |acted| ==> acted[i] in r && r[acted[i]].processed
    requires forall i, j :: 0 <= i < j < |acted| ==> acted[i] != acted[j]
    ensures forall i, j :: 0 <= i < j < |acted + [h]| ==> (acted + [h])[i] != (acted + [h])[j]
    ensures forall i :: 0 <= i < |acted + [h]| ==> (acted + [h])[i] in Marked(r, h) && Marked(r, h)[(acted + [h])[i]].processed
  {
  }

  /** The charges `cs`, processed in order from `w`, led to `x` and produced `events`. */
  ghost predicate BatchDone(cfg: Config, w: World, cs: seq<Charge>, hashOf: Charge -> Bytes32, x: World, events: seq<SlashEvent>) {
    x == ProcessAll(cfg, w, cs, hashOf) && events == EventsFrom(cfg, w, cs, hashOf)
  }

  lemma {:induction false} BatchStep(
    cfg: Config, w: World, cs: seq<Charge>, c: Charge, hashOf: Charge -> Bytes32, x: World, events: seq<SlashEvent>)
    requires BatchDone(cfg, w, cs, hashOf, x, events)
    ensures var v := Verdict(cfg, x, c, hashOf);
            BatchDone(cfg, w, cs + [c], hashOf, ProcessOne(cfg, x, c, hashOf), if v.Some? then events + [v.value] else events)
  {
    assert (cs + [c])[..|cs|] == cs;
  }
}
