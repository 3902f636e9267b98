/** The counter-cyclical bound on supply, one mint at a time, under the default configuration. */
module SupplyBound {
  import opened MonetaryPolicy

  /** Supply squared against 251 times capacity squared, with room for one largest mint. */
  ghost predicate Bounded(minted: nat, capacity: nat) {
    minted * minted <= 251 * (capacity * capacity) + 62249 * 100_000_000
  }

  /** The default policy; only the running totals and the epoch may differ. */
  ghost predicate DefaultPolicy(c: Config) {
    SamePolicy(c, DEFAULT_CONFIG)
  }

  /** A verified record as the attestation threshold leaves it. */
  ghost predicate Mintable(p: CapacityProof) {
    p.status == Verified && p.attestationCount == 2 && 1 <= p.difficulty <= 10000
  }

  lemma Reassociate(base: nat, tier: nat, d: nat, bonus: nat, adj: nat)
    ensures Times(Times(Times(Times(base, tier), d), bonus), adj) == Times(Times(base, bonus), tier) * Times(d, adj)
  {
    var x := base * tier;
    calc {
      x * d * bonus * adj;
      { MulSwap(x * d, bonus, adj); }
      x * d * adj * bonus;
      { MulAssoc(x, d, adj); }
      x * (d * adj) * bonus;
      { MulSwap(x, d * adj, bonus); }
      x * bonus * (d * adj);
      { MulSwap(base, tier, bonus); }
      base * bonus * tier * (d * adj);
    }
  }

  lemma MulSwap(a: int, b: int, c: int)
    ensures a * b * c == a * c * b
  {
    MulAssoc(a, b, c);
    MulAssoc(a, c, b);
  }

  lemma MulAssoc(a: int, b: int, c: int)
    ensures a * b * c == a * (b * c)
  {
  }

  /** The default product lies between 2.5 * 10^13 and 2.5 * 10^14 times difficulty times adjustment. */
  lemma DefaultProduct(c: Config, p: CapacityProof)
    requires DefaultPolicy(c) && Mintable(p)
    ensures
      var x := Times(p.difficulty, NetworkAdjustment(c));
      25_000_000_000_000 * x <= IdealProduct(c, p) <= 250_000_000_000_000 * x
  {
    var x := Times(p.difficulty, NetworkAdjustment(c));
    var tier := TierMultiplier(p.collateralTier);
    Reassociate(c.baseReward, tier, p.difficulty, 10000, NetworkAdjustment(c));
    assert IdealProduct(c, p) == Times(10_000_000_000, tier) * x;
    ProductLe(2500, tier, x, x);
    ProductLe(tier, 25000, x, x);
    MulAssoc(10_000_000_000, tier, x);
  }

  /** A default mint pays between one 400th and one 40th of difficulty times adjustment. */
  lemma DefaultMintRange(c: Config, p: CapacityProof)
    requires DefaultPolicy(c) && Mintable(p)
    ensures 40 * MintAmount(c, p) <= p.difficulty * NetworkAdjustment(c)
    ensures MintAmount(c, p) <= 250 * p.difficulty
    ensures 400 <= p.difficulty * NetworkAdjustment(c) ==> 1 <= MintAmount(c, p)
  {
    var x := Times(p.difficulty, NetworkAdjustment(c));
    ProductLe(p.difficulty, p.difficulty, NetworkAdjustment(c), 10000);
    DefaultProduct(c, p);
    ProductNeverWraps(c, p);
    assert IdealMint(c, p) <= x / 40;
    assert Wrap64(IdealMint(c, p)) == IdealMint(c, p);
  }

  /** The network adjustment times the supply is at most 1.0001 times 10^4 capacity. */
  lemma Drag(minted: nat, capacity: nat, adj: nat)
    requires capacity > 0 && adj == AdjustmentAt(10000, Ratio(minted, capacity))
    ensures adj * minted <= 10001 * capacity
  {
    var r := Ratio(minted, capacity);
    assert 10000 * minted < (r + 1) * capacity;
    if r > 0 {
      assert adj <= 100_000_000 / r;
      assert adj * r <= 100_000_000 by { ProductLe(adj, 100_000_000 / r, r, r); }
      assert adj * (r + 1) <= 100_010_000;
      ProductLe(adj * (r + 1), 100_010_000, capacity, capacity);
      ProductLe(adj, adj, 10000 * minted, (r + 1) * capacity);
      MulAssoc(adj, r + 1, capacity);
      assert adj * (10000 * minted) == 10000 * (adj * minted);
    }
  }

  /** Above the 251 line the adjustment is at most 631 basis points. */
  lemma AboveTheLine(minted: nat, capacity: nat, adj: nat)
    requires capacity > 0 && adj == AdjustmentAt(10000, Ratio(minted, capacity))
    requires minted * minted > 251 * (capacity * capacity)
    ensures adj <= 631
  {
    var r := Ratio(minted, capacity);
    assert 10000 * minted < (r + 1) * capacity;
    assert (10000 * minted) * (10000 * minted) == 100_000_000 * (minted * minted);
    assert (158429 * capacity) * (158429 * capacity) == 158429 * 158429 * (capacity * capacity);
    if r + 1 <= 158429 {
      ProductLe(r + 1, 158429, capacity, capacity);
      SquareLe(10000 * minted, 158429 * capacity);
      assert false;
    }
    DivLe(100_000_000, 100_000_000, r, 158429);
  }

  lemma SquareLe(a: nat, b: nat)
    requires a <= b
    ensures a * a <= b * b
  {
    ProductLe(a, b, a, b);
  }

  /** The square of one payout: within 251 of the difficulty squared above the line, one largest mint below it. */
  lemma PayoutSquare(d: nat, amount: nat, adj: nat)
    requires 40 * amount <= d * adj
    ensures adj <= 631 ==> amount * amount <= 251 * (d * d)
    ensures adj <= 10000 && d <= 10000 ==> amount * amount <= 251 * (d * d) + 62249 * 100_000_000
  {
    if adj <= 631 {
      ProductLe(d, d, adj, 631);
      SquareLe(40 * amount, 631 * d);
      assert (40 * amount) * (40 * amount) == 1600 * (amount * amount);
      assert (631 * d) * (631 * d) == 631 * 631 * (d * d);
    }
    if adj <= 10000 && d <= 10000 {
      ProductLe(d, d, adj, 10000);
      SquareLe(amount, 250 * d);
      assert (250 * d) * (250 * d) == 62500 * (d * d);
      SquareLe(d, 10000);
    }
  }

  /** One mint keeps the bound: the policy loop itself stops supply from running away from capacity. */
  lemma MintKeepsBound(minted: nat, capacity: nat, d: nat, amount: nat, adj: nat)
    requires Bounded(minted, capacity)
    requires capacity == 0 ==> minted == 0
    requires adj == if capacity == 0 then 10000 else AdjustmentAt(10000, Ratio(minted, capacity))
    requires 1 <= d <= 10000 && 40 * amount <= d * adj
    ensures Bounded(minted + amount, capacity + d)
  {
    PayoutSquare(d, amount, adj);
    if capacity > 0 {
      Drag(minted, capacity, adj);
      if minted * minted > 251 * (capacity * capacity) {
        AboveTheLine(minted, capacity, adj);
      }
    }
    CrossTerm(minted, capacity, d, amount, adj);
    assert (minted + amount) * (minted + amount) == minted * minted + 2 * (minted * amount) + amount * amount;
    assert (capacity + d) * (capacity + d) == capacity * capacity + 2 * (capacity * d) + d * d;
  }

  lemma CrossTerm(minted: nat, capacity: nat, d: nat, amount: nat, adj: nat)
    requires 40 * amount <= d * adj && adj * minted <= 10001 * capacity
    ensures 2 * (minted * amount) <= 502 * (capacity * d)
  {
    ProductLe(minted, minted, 40 * amount, d * adj);
    assert minted * (40 * amount) == 40 * (minted * amount);
    MulSwap(adj, minted, d);
    assert minted * (d * adj) == adj * minted * d by { MulAssoc(minted, d, adj); MulSwap(minted, d, adj); }
    ProductLe(adj * minted, 10001 * capacity, d, d);
    MulAssoc(10001, capacity, d);
    assert 40 * (minted * amount) <= 10001 * (capacity * d);
  }

  /** The bound in plain words: supply never exceeds 16 times capacity by more than 2.5 million. */
  lemma NearSixteenTimes(minted: nat, capacity: nat)
    requires Bounded(minted, capacity)
    ensures minted <= 16 * capacity + 2_500_000
  {
    var top := 16 * capacity + 2_500_000;
    assert top * top == 256 * (capacity * capacity) + 80_000_000 * capacity + 6_250_000_000_000;
    if minted > top {
      SquareLe(top, minted);
    }
  }

  /** While supply is at most 250 times capacity, the adjustment is at least 40 basis points. */
  lemma AdjustmentFloor(minted: nat, capacity: nat)
    requires capacity > 0 && minted <= 250 * capacity
    ensures 40 <= AdjustmentAt(10000, Ratio(minted, capacity))
  {
    DivLe(minted * 10000, 2_500_000 * capacity, capacity, capacity);
    assert 2_500_000 * capacity / capacity == 2_500_000;
    AdjustmentAtAntitone(10000, 2_500_000, Ratio(minted, capacity));
  }

  // ---- The default mint in numbers ----

  /** A default mint pays k 400ths of difficulty times adjustment, k being 2, 4, 6 and 10 for tiers 2 to 5, otherwise 1. */
  lemma DefaultMintExactly(c: Config, p: CapacityProof)
    requires DefaultPolicy(c) && Mintable(p)
    ensures
      var k := if p.collateralTier == 2 then 2 else if p.collateralTier == 3 then 4 else if p.collateralTier == 4 then 6
               else if p.collateralTier == 5 then 10 else 1;
      MintAmount(c, p) == k * p.difficulty * NetworkAdjustment(c) / 400
  {
    hide NetworkAdjustment, MintAmount;
    var k := if p.collateralTier == 2 then 2 else if p.collateralTier == 3 then 4 else if p.collateralTier == 4 then 6
             else if p.collateralTier == 5 then 10 else 1;
    var adj := NetworkAdjustment(c);
    assert TierMultiplier(p.collateralTier) == 2500 * k && VerifierBonus(c, p) == 10000;
    AdjustmentAtMost(c);
    ProductNeverWraps(c, p);
    DefaultIdeal(k, p.difficulty, adj);
  }

  lemma AdjustmentAtMost(c: Config)
    ensures NetworkAdjustment(c) <= 10000
  {
  }

  lemma DefaultIdeal(k: nat, d: nat, adj: nat)
    requires k <= 10 && d <= 10000 && adj <= 10000
    ensures Times(Times(Times(Times(1_000_000, 2500 * k), d), 10000), adj) / 10_000_000_000_000_000 == k * d * adj / 400
    ensures k * d * adj / 400 <= 2_500_000
  {
    var x := k * d * adj;
    assert Times(Times(1_000_000, 2500 * k), d) == 2_500_000_000 * (k * d);
    assert Times(Times(2_500_000_000 * (k * d), 10000), adj) == 25_000_000_000_000 * x by {
      MulAssoc(25_000_000_000_000, k * d, adj);
    }
    ProductLe(k, 10, d, 10000);
    ProductLe(k * d, 100_000, adj, 10000);
  }

  /** The default adjustment: full while supply is below a 10000th of capacity, else 10^8 over the ratio in basis
      points, at most full. */
  lemma DefaultAdjustmentExactly(c: Config)
    requires DefaultPolicy(c)
    ensures NetworkAdjustment(c)
      == if c.provenCapacity == 0 || c.tokensMinted * 10000 < c.provenCapacity then 10000
         else Min(100_000_000 / (c.tokensMinted * 10000 / c.provenCapacity), 10000)
  {
    hide NetworkAdjustment;
    AdjustmentFromRatio(c);
    if c.provenCapacity != 0 {
      ZeroQuotient(c.tokensMinted * 10000, c.provenCapacity);
    }
  }

  lemma ZeroQuotient(a: nat, d: nat)
    requires d > 0
    ensures a / d == 0 <==> a < d
  {
    if a >= d { QuotientBound(1, a, d); }
  }

  /** What is not verified pays nothing, and nothing pays more than the configured maximum. */
  lemma OnlyVerifiedPays(c: Config, p: CapacityProof)
    ensures MintAmount(c, p) <= c.maxPerProof && (p.status != Verified ==> MintAmount(c, p) == 0)
  {
  }
}
