/** The seigniorage configuration, the mint formula and the counter-cyclical network adjustment,
    with the 64-bit and 128-bit unsigned arithmetic of the engine written out. */
module MonetaryPolicy {

  const TWO_64: int := 0x1_0000_0000_0000_0000
  const TWO_128: int := 0x1_0000_0000_0000_0000_0000_0000_0000_0000

  type Uint8 = x: int | 0 <= x < 256
  type Uint64 = x: int | 0 <= x < 0x1_0000_0000_0000_0000

  /** A 32-byte hash; only equality matters. */
  type Hash = string

  function Wrap64(x: nat): Uint64 { x % 0x1_0000_0000_0000_0000 }
  function Wrap128(x: nat): nat { x % 0x1_0000_0000_0000_0000_0000_0000_0000_0000 }
  function Min(a: int, b: int): int { if a < b then a else b }

  datatype ProofStatus = Pending | Verified | Rejected

  datatype Attestation = Attestation(verifier: string, attestationHash: Hash, timestamp: int, signatureValid: bool)

  datatype CapacityProof = CapacityProof(
    prover: string, proofId: Hash, collateralLock: string, collateralTier: Uint8,
    inputCommitment: Hash, outputCommitment: Hash, circuit: string,
    difficulty: Uint64, computeUnits: Uint64, epoch: Uint64,
    attestations: seq<Attestation>, attestationCount: Uint8, status: ProofStatus,
    mintAmount: Uint64, mintedAt: int, nullifier: Hash)

  datatype Config = Config(
    baseReward: Uint64, maxPerProof: Uint64, targetRatioBps: Uint64, minVerifiers: Uint8,
    tier2Threshold: Uint64, tier3Threshold: Uint64, tier4Threshold: Uint64, tier5Threshold: Uint64,
    provenCapacity: Uint64, tokensMinted: Uint64, currentEpoch: Uint64, lastEpochTimestamp: int)

  const DEFAULT_CONFIG: Config := Config(
    1_000_000, 100_000_000_000, 10_000, 2,
    10_000_000, 100_000_000, 1_000_000_000, 10_000_000_000,
    0, 0, 1, 0)

  const SECONDS_PER_EPOCH: int := 86400

  function TierMultiplier(tier: Uint8): Uint64 {
    match tier
    case 2 => 5000
    case 3 => 10000
    case 4 => 15000
    case 5 => 25000
    case _ => 2500
  }

  function DeriveCollateralTier(c: Config, lockedValue: Uint64): Uint8 {
    if lockedValue >= c.tier5Threshold then 5
    else if lockedValue >= c.tier4Threshold then 4
    else if lockedValue >= c.tier3Threshold then 3
    else if lockedValue >= c.tier2Threshold then 2
    else 1
  }

  function VerifierBonus(c: Config, p: CapacityProof): Uint64 {
    var extra := if p.attestationCount > c.minVerifiers then p.attestationCount - c.minVerifiers else 0;
    Min(10000 + extra * 1000, 15000)
  }

  function NetworkAdjustment(c: Config): Uint64 {
    if c.provenCapacity == 0 then 10000
    else
      var ratio := Wrap128(c.tokensMinted * 10000) / c.provenCapacity;
      if ratio == 0 then 10000
      else Min(Wrap64(Wrap128(c.targetRatioBps * 10000) / ratio), 10000)
  }

  function MintAmount(c: Config, p: CapacityProof): Uint64 {
    if p.status != Verified then 0
    else
      var tiered := Wrap128(c.baseReward * TierMultiplier(p.collateralTier));
      var scaled := Wrap128(tiered * Min(p.difficulty, 10000));
      var boosted := Wrap128(scaled * VerifierBonus(c, p));
      var adjusted := Wrap128(boosted * NetworkAdjustment(c));
      Min(Wrap64(adjusted / 10_000_000_000_000_000), c.maxPerProof)
  }

  function RecordMint(c: Config, p: CapacityProof, amount: Uint64): Config {
    c.(provenCapacity := Wrap64(c.provenCapacity + p.difficulty), tokensMinted := Wrap64(c.tokensMinted + amount))
  }

  function EpochRollover(c: Config, now: int): Config {
    if now >= c.lastEpochTimestamp + SECONDS_PER_EPOCH
    then c.(currentEpoch := Wrap64(c.currentEpoch + 1), lastEpochTimestamp := now)
    else c
  }

  // ---- The formula over unbounded integers ----

  function Times(a: nat, b: nat): nat { a * b }

  function IdealProduct(c: Config, p: CapacityProof): nat {
    var scaled := Times(Times(c.baseReward, TierMultiplier(p.collateralTier)), Min(p.difficulty, 10000));
    Times(Times(scaled, VerifierBonus(c, p)), NetworkAdjustment(c))
  }

  function IdealMint(c: Config, p: CapacityProof): nat { IdealProduct(c, p) / 10_000_000_000_000_000 }

  lemma ProductLe(a: nat, b: nat, x: nat, y: nat)
    requires a <= b && x <= y
    ensures a * x <= b * y
  {
    assert a * x <= b * x by { assert (b - a) * x >= 0; }
    assert b * x <= b * y by { assert b * (y - x) >= 0; }
  }

  /** The 128-bit product never wraps, whatever 64-bit reward the configuration holds. */
  lemma ProductNeverWraps(c: Config, p: CapacityProof)
    ensures IdealProduct(c, p) < TWO_128
    ensures p.status == Verified ==> MintAmount(c, p) == Min(Wrap64(IdealMint(c, p)), c.maxPerProof)
  {
    var a1 := c.baseReward * TierMultiplier(p.collateralTier);
    ProductLe(c.baseReward, TWO_64, TierMultiplier(p.collateralTier), 25000);
    var a2 := a1 * Min(p.difficulty, 10000);
    ProductLe(a1, TWO_64 * 25000, Min(p.difficulty, 10000), 10000);
    var a3 := a2 * VerifierBonus(c, p);
    ProductLe(a2, TWO_64 * 25000 * 10000, VerifierBonus(c, p), 15000);
    var a4 := a3 * NetworkAdjustment(c);
    ProductLe(a3, TWO_64 * 25000 * 10000 * 15000, NetworkAdjustment(c), 10000);
    assert IdealProduct(c, p) == a4;
    assert Wrap128(a1) == a1 && Wrap128(a2) == a2 && Wrap128(a3) == a3 && Wrap128(a4) == a4;
  }

  /** The payout is capped, and it is the ideal amount exactly when the narrowing to 64 bits loses nothing
      (or the cap hides the loss). */
  lemma PayoutIsIdeal(c: Config, p: CapacityProof)
    requires p.status == Verified
    ensures MintAmount(c, p) <= c.maxPerProof
    ensures MintAmount(c, p) == Min(IdealMint(c, p), c.maxPerProof)
      <==> IdealMint(c, p) < TWO_64 || Wrap64(IdealMint(c, p)) >= c.maxPerProof
  {
    hide MintAmount, IdealProduct, IdealMint, VerifierBonus, NetworkAdjustment;
    ProductNeverWraps(c, p);
    WrapBelow(IdealMint(c, p), c.maxPerProof);
  }

  lemma WrapBelow(x: nat, cap: Uint64)
    ensures Min(Wrap64(x), cap) == Min(x, cap) <==> x < TWO_64 || Wrap64(x) >= cap
  {
  }

  // ---- Tiers, bonus and epochs in numbers ----

  /** With ascending thresholds the tier is one more than the number of thresholds reached. */
  lemma TierCountsThresholds(c: Config, locked: Uint64)
    requires c.tier2Threshold <= c.tier3Threshold <= c.tier4Threshold <= c.tier5Threshold
    ensures DeriveCollateralTier(c, locked)
      == 1 + (if locked >= c.tier2Threshold then 1 else 0) + (if locked >= c.tier3Threshold then 1 else 0)
         + (if locked >= c.tier4Threshold then 1 else 0) + (if locked >= c.tier5Threshold then 1 else 0)
  {
  }

  /** The default tiers in lamports: 10 million, 100 million, 1 billion, 10 billion. */
  lemma DefaultTiers(locked: Uint64)
    ensures
      var tier := DeriveCollateralTier(DEFAULT_CONFIG, locked);
      1 <= tier <= 5 && (tier >= 2 <==> locked >= 10_000_000) && (tier >= 3 <==> locked >= 100_000_000)
      && (tier >= 4 <==> locked >= 1_000_000_000) && (tier == 5 <==> locked >= 10_000_000_000)
  {
  }

  /** The default limits: a million base units, at most 10^11 for one proof, a target of 100%, two verifiers. */
  lemma DefaultLimits()
    ensures DEFAULT_CONFIG.baseReward == 1_000_000 && DEFAULT_CONFIG.maxPerProof == 100_000_000_000
    ensures DEFAULT_CONFIG.targetRatioBps == 10_000 && DEFAULT_CONFIG.minVerifiers == 2 && DEFAULT_CONFIG.currentEpoch == 1
    ensures DEFAULT_CONFIG.provenCapacity == 0 && DEFAULT_CONFIG.tokensMinted == 0 && DEFAULT_CONFIG.lastEpochTimestamp == 0
  {
  }

  /** 1.0x up to the required verifiers, a tenth more for each further one, 1.5x from the fifth on. */
  lemma BonusSteps(c: Config, p: CapacityProof)
    ensures
      var extra := p.attestationCount - c.minVerifiers;
      VerifierBonus(c, p) == if extra <= 0 then 10000 else if extra >= 5 then 15000 else 10000 + 1000 * extra
  {
  }

  /** How often a series of checks rolls the epoch over: each time a day has passed since the last time. */
  ghost function Rollovers(last: int, clock: seq<int>): nat
    decreases |clock|
  {
    if clock == [] then 0
    else if clock[0] - last >= 86400 then 1 + Rollovers(clock[0], clock[1..])
    else Rollovers(last, clock[1..])
  }

  function CheckEpochs(c: Config, clock: seq<int>): Config
    decreases |clock|
  {
    if clock == [] then c else CheckEpochs(EpochRollover(c, clock[0]), clock[1..])
  }

  lemma EpochStep(c: Config, now: int)
    ensures
      var c' := EpochRollover(c, now);
      c' == c.(currentEpoch := c'.currentEpoch, lastEpochTimestamp := c'.lastEpochTimestamp)
      && (if now - c.lastEpochTimestamp >= 86400
          then c'.lastEpochTimestamp == now && c'.currentEpoch == (c.currentEpoch + 1) % 0x1_0000_0000_0000_0000
          else c' == c)
  {
  }

  /** Epochs take days: whatever the clock readings, the epoch advances once for each rollover, modulo 2^64, and each
      rollover takes at least a day. */
  lemma {:induction false} EpochsTakeDays(c: Config, clock: seq<int>)
    ensures
      var (c', n) := (CheckEpochs(c, clock), Rollovers(c.lastEpochTimestamp, clock));
      c' == c.(currentEpoch := c'.currentEpoch, lastEpochTimestamp := c'.lastEpochTimestamp)
      && c'.currentEpoch == (c.currentEpoch + n) % 0x1_0000_0000_0000_0000
      && 86400 * n <= c'.lastEpochTimestamp - c.lastEpochTimestamp
    decreases |clock|
  {
    hide EpochRollover;
    if clock != [] {
      EpochStep(c, clock[0]);
      EpochsTakeDays(EpochRollover(c, clock[0]), clock[1..]);
    }
  }

  // ---- Monotonicity ----

  /** The target ratio scaled by 10^4 fits in 64 bits, so the adjustment's own narrowing cast loses nothing. */
  predicate TargetFits(c: Config) { c.targetRatioBps * 10000 < TWO_64 }

  /** The narrowing of the payout to 64 bits loses something, and the cap does not hide it. */
  predicate Lossy(c: Config, p: CapacityProof) {
    p.status == Verified && IdealMint(c, p) >= TWO_64 && Wrap64(IdealMint(c, p)) < c.maxPerProof
  }

  ghost predicate SamePolicy(c: Config, c': Config) {
    c.baseReward == c'.baseReward && c.maxPerProof == c'.maxPerProof
    && c.targetRatioBps == c'.targetRatioBps && c.minVerifiers == c'.minVerifiers
  }

  /** The second configuration has no less capacity and no more supply. */
  ghost predicate Roomier(c: Config, c': Config) {
    c.provenCapacity <= c'.provenCapacity && c'.tokensMinted <= c.tokensMinted
  }

  lemma DivLe(a: nat, b: nat, d: nat, e: nat)
    requires a <= b && 0 < e <= d
    ensures a / d <= b / e
  {
    var q := a / d;
    ProductLe(q, q, e, d);
    assert q * e <= b;
    QuotientBound(q, b, e);
  }

  lemma QuotientBound(q: nat, b: nat, e: nat)
    requires 0 < e && q * e <= b
    ensures q <= b / e
  {
    if q >= b / e + 1 {
      ProductLe(b / e + 1, q, e, e);
    }
  }

  /** Supply over capacity, in basis points. */
  function Ratio(minted: nat, capacity: nat): nat
    requires capacity > 0
  {
    minted * 10000 / capacity
  }

  /** The adjustment as a function of the supply-to-capacity ratio. */
  function AdjustmentAt(target: nat, ratio: nat): nat {
    if ratio == 0 then 10000 else Min(target * 10000 / ratio, 10000)
  }

  lemma NarrowingLossless(t: nat, ratio: nat)
    requires t < TWO_64 && 0 < ratio
    ensures Wrap64(Wrap128(t) / ratio) == t / ratio
  {
    assert Wrap128(t) == t;
    DivLe(t, t, ratio, 1);
  }

  lemma AdjustmentFromRatio(c: Config)
    requires TargetFits(c)
    ensures NetworkAdjustment(c)
      == if c.provenCapacity == 0 then 10000 else AdjustmentAt(c.targetRatioBps, Ratio(c.tokensMinted, c.provenCapacity))
  {
    if c.provenCapacity != 0 {
      var scaled := c.tokensMinted * 10000;
      assert Wrap128(scaled) == scaled;
      var ratio := scaled / c.provenCapacity;
      assert ratio == Ratio(c.tokensMinted, c.provenCapacity);
      if ratio != 0 {
        NarrowingLossless(c.targetRatioBps * 10000, ratio);
      }
    }
  }

  lemma AdjustmentAtAntitone(target: nat, ratio: nat, ratio': nat)
    requires ratio' <= ratio
    ensures AdjustmentAt(target, ratio) <= AdjustmentAt(target, ratio')
  {
    if ratio' > 0 {
      DivLe(target * 10000, target * 10000, ratio, ratio');
    }
  }

  /** Capacity is there, or so little was minted that the first unit of capacity already meets the target. */
  predicate FirstUnitMeetsTarget(c: Config) { c.provenCapacity > 0 || c.tokensMinted * 10000 <= c.targetRatioBps }

  lemma QuotientBelow(a: nat, d: nat)
    requires a < 10000 * d
    ensures a / d < 10000
  {
    assert a / d * d <= a;
  }

  lemma FullAdjustment(target: nat, ratio: nat)
    ensures ratio <= target ==> AdjustmentAt(target, ratio) == 10000
    ensures ratio > target ==> AdjustmentAt(target, ratio) < 10000
  {
    if 0 < ratio <= target {
      QuotientBound(10000, target * 10000, ratio);
    } else if ratio > target {
      QuotientBelow(target * 10000, ratio);
    }
  }

  /** More capacity and less supply never lower the network adjustment. */
  lemma AdjustmentMonotone(c: Config, c': Config)
    requires TargetFits(c) && SamePolicy(c, c') && Roomier(c, c') && FirstUnitMeetsTarget(c)
    ensures NetworkAdjustment(c) <= NetworkAdjustment(c')
  {
    AdjustmentFromRatio(c);
    AdjustmentFromRatio(c');
    if c'.provenCapacity > 0 {
      var ratio' := Ratio(c'.tokensMinted, c'.provenCapacity);
      if c.provenCapacity > 0 {
        var ratio := Ratio(c.tokensMinted, c.provenCapacity);
        DivLe(c'.tokensMinted * 10000, c.tokensMinted * 10000, c'.provenCapacity, c.provenCapacity);
        AdjustmentAtAntitone(c.targetRatioBps, ratio, ratio');
      } else {
        DivLe(c'.tokensMinted * 10000, c.tokensMinted * 10000, c'.provenCapacity, 1);
        FullAdjustment(c.targetRatioBps, ratio');
      }
    }
  }

  /** Exact: no roomier configuration has a lower adjustment if and only if the condition holds. A supply above
      it with no capacity drops below the full adjustment when the first unit of capacity arrives. */
  lemma AdjustmentMonotoneExactly(c: Config)
    requires TargetFits(c)
    ensures (forall c' :: SamePolicy(c, c') && Roomier(c, c') ==> NetworkAdjustment(c) <= NetworkAdjustment(c'))
      <==> FirstUnitMeetsTarget(c)
  {
    hide NetworkAdjustment;
    if FirstUnitMeetsTarget(c) {
      forall c' | SamePolicy(c, c') && Roomier(c, c') ensures NetworkAdjustment(c) <= NetworkAdjustment(c') {
        AdjustmentMonotone(c, c');
      }
    } else {
      ZeroCapacityJump(c);
    }
  }

  lemma ZeroCapacityJump(c: Config)
    requires TargetFits(c) && !FirstUnitMeetsTarget(c)
    ensures
      var c' := c.(provenCapacity := 1);
      SamePolicy(c, c') && Roomier(c, c') && NetworkAdjustment(c') < NetworkAdjustment(c) == 10000
  {
    var c' := c.(provenCapacity := 1);
    AdjustmentFromRatio(c');
    assert Ratio(c'.tokensMinted, 1) == c.tokensMinted * 10000;
    FullAdjustment(c.targetRatioBps, c.tokensMinted * 10000);
  }

  /** The largest possible payout is 3.75 times the base reward; if that fits in 64 bits nothing is ever lost. */
  lemma RewardFits(c: Config, p: CapacityProof)
    requires c.baseReward * 15 < TWO_64 * 4
    ensures IdealMint(c, p) < TWO_64 && !Lossy(c, p)
  {
    var base := c.baseReward;
    var a1 := base * TierMultiplier(p.collateralTier);
    ProductLe(base, base, TierMultiplier(p.collateralTier), 25000);
    var a2 := a1 * Min(p.difficulty, 10000);
    ProductLe(a1, base * 25000, Min(p.difficulty, 10000), 10000);
    var a3 := a2 * VerifierBonus(c, p);
    ProductLe(a2, base * 250_000_000, VerifierBonus(c, p), 15000);
    ProductLe(a3, base * 3_750_000_000_000, NetworkAdjustment(c), 10000);
    assert IdealProduct(c, p) <= base * 37_500_000_000_000_000;
  }

  ghost predicate NoLessMerit(p: CapacityProof, p': CapacityProof) {
    p.status == Verified && p'.status == Verified
    && p.difficulty <= p'.difficulty && p.attestationCount <= p'.attestationCount
    && TierMultiplier(p.collateralTier) <= TierMultiplier(p'.collateralTier)
  }

  lemma ProductFollows(c: Config, p: CapacityProof, c': Config, p': CapacityProof)
    requires SamePolicy(c, c') && NoLessMerit(p, p') && NetworkAdjustment(c) <= NetworkAdjustment(c')
    ensures IdealProduct(c, p) <= IdealProduct(c', p')
  {
    hide NetworkAdjustment, TierMultiplier, Times;
    assert VerifierBonus(c, p) <= VerifierBonus(c', p');
    hide VerifierBonus;
    TimesLe(c.baseReward, c'.baseReward, TierMultiplier(p.collateralTier), TierMultiplier(p'.collateralTier));
    var a1, a1' := Times(c.baseReward, TierMultiplier(p.collateralTier)), Times(c'.baseReward, TierMultiplier(p'.collateralTier));
    TimesLe(a1, a1', Min(p.difficulty, 10000), Min(p'.difficulty, 10000));
    var a2, a2' := Times(a1, Min(p.difficulty, 10000)), Times(a1', Min(p'.difficulty, 10000));
    TimesLe(a2, a2', VerifierBonus(c, p), VerifierBonus(c', p'));
    var a3, a3' := Times(a2, VerifierBonus(c, p)), Times(a2', VerifierBonus(c', p'));
    TimesLe(a3, a3', NetworkAdjustment(c), NetworkAdjustment(c'));
  }

  lemma TimesLe(a: nat, b: nat, x: nat, y: nat)
    requires a <= b && x <= y
    ensures Times(a, x) <= Times(b, y)
  {
    ProductLe(a, b, x, y);
  }

  lemma IdealFollows(c: Config, p: CapacityProof, c': Config, p': CapacityProof)
    requires SamePolicy(c, c') && NoLessMerit(p, p') && NetworkAdjustment(c) <= NetworkAdjustment(c')
    ensures IdealMint(c, p) <= IdealMint(c', p')
  {
    hide NetworkAdjustment, IdealProduct, TierMultiplier;
    ProductFollows(c, p, c', p');
    DivLe(IdealProduct(c, p), IdealProduct(c', p'), 10_000_000_000_000_000, 10_000_000_000_000_000);
  }

  /** Wrapping only ever lowers the payout. */
  lemma PayoutAtMostIdeal(c: Config, p: CapacityProof)
    requires p.status == Verified
    ensures MintAmount(c, p) <= Min(IdealMint(c, p), c.maxPerProof)
    ensures !Lossy(c, p) ==> MintAmount(c, p) == Min(IdealMint(c, p), c.maxPerProof)
    ensures Lossy(c, p) ==> MintAmount(c, p) == Wrap64(IdealMint(c, p))
  {
    hide MintAmount, IdealProduct, IdealMint, VerifierBonus, NetworkAdjustment;
    ProductNeverWraps(c, p);
    PayoutIsIdeal(c, p);
  }

  lemma PayoutFollowsAdjustment(c: Config, p: CapacityProof, c': Config, p': CapacityProof)
    requires SamePolicy(c, c') && NoLessMerit(p, p') && !Lossy(c', p')
    requires NetworkAdjustment(c) <= NetworkAdjustment(c')
    ensures MintAmount(c, p) <= MintAmount(c', p') <= c.maxPerProof
  {
    hide NetworkAdjustment, MintAmount, IdealMint, TierMultiplier, Lossy;
    IdealFollows(c, p, c', p');
    PayoutAtMostIdeal(c, p);
    PayoutAtMostIdeal(c', p');
  }

  /** The payout never falls when difficulty, tier, attestations or capacity rise or supply falls, unless the higher
      payout itself is cut by the narrowing. */
  lemma PayoutMonotone(c: Config, p: CapacityProof, c': Config, p': CapacityProof)
    requires TargetFits(c) && SamePolicy(c, c') && Roomier(c, c') && FirstUnitMeetsTarget(c)
    requires NoLessMerit(p, p') && !Lossy(c', p')
    ensures MintAmount(c, p) <= MintAmount(c', p') <= c.maxPerProof
  {
    hide NetworkAdjustment, MintAmount, Lossy;
    AdjustmentMonotone(c, c');
    PayoutFollowsAdjustment(c, p, c', p');
  }

  /** Locking more collateral never lowers the tier, nor the payout of an otherwise equal proof, unless the higher
      payout itself is cut by the narrowing. */
  lemma MoreCollateralNeverPaysLess(c: Config, p: CapacityProof, locked: Uint64, locked': Uint64)
    requires p.status == Verified && locked <= locked'
    ensures
      var low, high := DeriveCollateralTier(c, locked), DeriveCollateralTier(c, locked');
      1 <= low <= high <= 5
      && (!Lossy(c, p.(collateralTier := high)) ==>
            MintAmount(c, p.(collateralTier := low)) <= MintAmount(c, p.(collateralTier := high)))
  {
    hide MintAmount, NetworkAdjustment, Lossy;
    var low, high := DeriveCollateralTier(c, locked), DeriveCollateralTier(c, locked');
    if !Lossy(c, p.(collateralTier := high)) {
      PayoutFollowsAdjustment(c, p.(collateralTier := low), c, p.(collateralTier := high));
    }
  }

  /** A base reward of 2^63 and an uncapped payout. */
  const HUGE_REWARD: Config := DEFAULT_CONFIG.(baseReward := 0x8000_0000_0000_0000, maxPerProof := 0xFFFF_FFFF_FFFF_FFFF)

  lemma HugeTierFiveMint(p: CapacityProof)
    requires p.status == Verified && p.collateralTier == 5 && p.attestationCount == 2 && p.difficulty <= 10000
    ensures MintAmount(HUGE_REWARD, p) == Wrap64(0x8000_0000_0000_0000 * 25 * p.difficulty / 100_000)
  {
    hide NetworkAdjustment, VerifierBonus, MintAmount, Wrap64;
    ProductNeverWraps(HUGE_REWARD, p);
    HugeFactors(p);
    HugeQuotient(p.difficulty);
    IdealAtMost64(HUGE_REWARD, p);
  }

  lemma HugeFactors(p: CapacityProof)
    requires p.attestationCount == 2
    ensures VerifierBonus(HUGE_REWARD, p) == 10000 && NetworkAdjustment(HUGE_REWARD) == 10000
  {
  }

  lemma HugeQuotient(difficulty: nat)
    ensures Times(Times(Times(Times(0x8000_0000_0000_0000, 25000), difficulty), 10000), 10000) / 10_000_000_000_000_000
      == 0x8000_0000_0000_0000 * 25 * difficulty / 100_000
  {
    var d := 0x8000_0000_0000_0000 * 25 * difficulty;
    assert Times(Times(Times(Times(0x8000_0000_0000_0000, 25000), difficulty), 10000), 10000) == d * 100_000_000_000;
  }

  lemma IdealAtMost64(c: Config, p: CapacityProof)
    requires c.maxPerProof == 0xFFFF_FFFF_FFFF_FFFF
    ensures Min(Wrap64(IdealMint(c, p)), c.maxPerProof) == Wrap64(IdealMint(c, p))
  {
    hide IdealMint;
  }

  /** With it the tier-5 amount for full difficulty wraps and pays less than difficulty 7000. */
  lemma WrappedPayoutFalls(p: CapacityProof)
    requires p.status == Verified && p.collateralTier == 5 && p.attestationCount == 2 && p.difficulty == 10000
    ensures MintAmount(HUGE_REWARD, p) < MintAmount(HUGE_REWARD, p.(difficulty := 7000))
  {
    hide MintAmount;
    HugeTierFiveMint(p);
    HugeTierFiveMint(p.(difficulty := 7000));
    assert 0x8000_0000_0000_0000 * 25 * 10000 / 100_000 == TWO_64 + 0x4000_0000_0000_0000;
    assert 0x4000_0000_0000_0000 < 0x8000_0000_0000_0000 * 25 * 7000 / 100_000 < TWO_64;
  }
}
