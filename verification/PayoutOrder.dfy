/** When a proof of no less merit is never paid less: exactly when the narrowing of the payout to 64 bits cuts
    nothing that the cap does not hide. */
module PayoutOrder {
  import opened MonetaryPolicy
  import opened SupplyBound

  // ---- The ideal amount as a function of difficulty ----

  /** The other four factors. */
  function Unit(c: Config, p: CapacityProof): nat {
    Times(Times(Times(c.baseReward, TierMultiplier(p.collateralTier)), VerifierBonus(c, p)), NetworkAdjustment(c))
  }

  function Amount(u: nat, d: nat): nat { Times(u, d) / 10_000_000_000_000_000 }

  lemma MoveDifficulty(a: nat, d: nat, bonus: nat, adj: nat)
    ensures Times(Times(Times(a, d), bonus), adj) == Times(Times(Times(a, bonus), adj), d)
  {
    MulSwap(a, d, bonus);
    MulSwap(a * bonus, d, adj);
  }

  lemma IdealIsAmount(c: Config, p: CapacityProof, d: Uint64)
    ensures IdealMint(c, p.(difficulty := d)) == Amount(Unit(c, p), Min(d, 10000))
  {
    hide NetworkAdjustment, TierMultiplier, Times;
    MoveDifficulty(Times(c.baseReward, TierMultiplier(p.collateralTier)), Min(d, 10000), VerifierBonus(c, p), NetworkAdjustment(c));
  }

  lemma UnitBound(c: Config, p: CapacityProof)
    ensures Unit(c, p) <= 3_750_000_000_000 * TWO_64
  {
    hide NetworkAdjustment, VerifierBonus;
    FactorBounds(c, p);
    var a1 := Times(c.baseReward, TierMultiplier(p.collateralTier));
    ProductLe(c.baseReward, TWO_64, TierMultiplier(p.collateralTier), 25000);
    ProductLe(a1, TWO_64 * 25000, VerifierBonus(c, p), 15000);
    ProductLe(Times(a1, VerifierBonus(c, p)), TWO_64 * 375_000_000, NetworkAdjustment(c), 10000);
  }

  lemma FactorBounds(c: Config, p: CapacityProof)
    ensures VerifierBonus(c, p) <= 15000 && NetworkAdjustment(c) <= 10000
  {
  }

  /** More than one step of difficulty ever adds: 2^64 * 375 / 10^6, rounded up. */
  const STEP: int := 0x1_0000_0000_0000_0000 * 375 / 1_000_000 + 1

  lemma AmountStep(u: nat, d: nat)
    requires u <= 3_750_000_000_000 * TWO_64
    ensures Amount(u, d) <= Amount(u, d + 1) <= Amount(u, d) + STEP
  {
    var x := Times(u, d);
    assert Times(u, d + 1) == x + u;
    QuotientSum(x, u);
  }

  lemma QuotientSum(x: nat, u: nat)
    requires u <= 3_750_000_000_000 * TWO_64
    ensures x / 10_000_000_000_000_000 <= (x + u) / 10_000_000_000_000_000 <= x / 10_000_000_000_000_000 + STEP
  {
  }

  /** The difficulty at which the amount first passes 2^64. */
  lemma {:induction false} Crossing(u: nat, d: nat) returns (m: nat)
    requires u <= 3_750_000_000_000 * TWO_64 && Amount(u, d) >= TWO_64
    ensures m < d && TWO_64 - STEP <= Amount(u, m) < TWO_64 <= Amount(u, m + 1) < TWO_64 + STEP
  {
    hide Amount;
    if d == 0 {
      NoDifficulty(u);
    } else {
      AmountStep(u, d - 1);
      if Amount(u, d - 1) >= TWO_64 {
        m := Crossing(u, d - 1);
      } else {
        m := d - 1;
      }
    }
  }

  lemma NoDifficulty(u: nat)
    ensures Amount(u, 0) == 0
  {
  }

  // ---- A lossy payout falls somewhere ----

  /** The two proofs on either side of the crossing below a proof whose ideal amount passes 2^64. */
  lemma AroundCrossing(c: Config, p: CapacityProof) returns (below: CapacityProof, above: CapacityProof)
    requires p.status == Verified && IdealMint(c, p) >= TWO_64
    ensures NoLessMerit(below, above) && NoLessMerit(below, p) && above.status == Verified
    ensures TWO_64 - STEP <= IdealMint(c, below) < TWO_64 <= IdealMint(c, above) < TWO_64 + STEP
  {
    hide Amount, Unit, IdealMint;
    UnitBound(c, p);
    IdealIsAmount(c, p, p.difficulty);
    assert p.(difficulty := p.difficulty) == p;
    var m := Crossing(Unit(c, p), Min(p.difficulty, 10000));
    below, above := p.(difficulty := m), p.(difficulty := m + 1);
    IdealIsAmount(c, p, m);
    IdealIsAmount(c, p, m + 1);
  }

  lemma LossyFalls(c: Config, p: CapacityProof) returns (low: CapacityProof, high: CapacityProof)
    requires Lossy(c, p)
    ensures NoLessMerit(low, high) && MintAmount(c, high) < MintAmount(c, low)
  {
    hide MintAmount, IdealMint;
    var below, above := AroundCrossing(c, p);
    PayoutAtMostIdeal(c, below);
    PayoutAtMostIdeal(c, above);
    PayoutAtMostIdeal(c, p);
    low, high := below, if Lossy(c, above) then above else p;
  }

  /** Exact, for every configuration: a proof of no less difficulty, tier and attestations is never paid less if and
      only if no verified proof's payout is cut by the narrowing. */
  lemma MeritNeverPaysLessExactly(c: Config)
    ensures (forall p, p' :: NoLessMerit(p, p') ==> MintAmount(c, p) <= MintAmount(c, p'))
      <==> (forall p :: !Lossy(c, p))
  {
    hide MintAmount, Lossy, NoLessMerit, NetworkAdjustment;
    if p :| Lossy(c, p) {
      var low, high := LossyFalls(c, p);
    } else {
      forall p, p' | NoLessMerit(p, p') ensures MintAmount(c, p) <= MintAmount(c, p') {
        PayoutFollowsAdjustment(c, p, c, p');
      }
    }
  }

  /** The proof of most merit: top tier, full difficulty, as many attestations as the counter holds. */
  function Best(p: CapacityProof): CapacityProof {
    p.(status := Verified, collateralTier := 5, difficulty := 10000, attestationCount := 255)
  }

  lemma BestIsBest(c: Config, p: CapacityProof)
    requires p.status == Verified
    ensures IdealMint(c, p) <= IdealMint(c, Best(p))
  {
    hide NetworkAdjustment, IdealMint;
    var full := p.(difficulty := Min(p.difficulty, 10000));
    SameAtFull(c, p);
    assert NoLessMerit(full, Best(p));
    IdealFollows(c, full, c, Best(p));
  }

  lemma SameAtFull(c: Config, p: CapacityProof)
    ensures IdealMint(c, p.(difficulty := Min(p.difficulty, 10000))) == IdealMint(c, p)
  {
    hide NetworkAdjustment, TierMultiplier, Times;
  }

  /** The same as a closed form, for every cap of at least a 2000th of 2^64: the ideal amount of the best proof fits
      in 64 bits. */
  lemma MeritClosedForm(c: Config, any: CapacityProof)
    requires c.maxPerProof >= TWO_64 / 2000
    ensures (forall p, p' :: NoLessMerit(p, p') ==> MintAmount(c, p) <= MintAmount(c, p'))
      <==> IdealMint(c, Best(any)) < TWO_64
  {
    hide MintAmount, IdealMint, NoLessMerit;
    MeritNeverPaysLessExactly(c);
    if IdealMint(c, Best(any)) < TWO_64 {
      forall p ensures !Lossy(c, p) {
        if p.status == Verified {
          BestIsBest(c, p);
          SameBest(c, p, any);
        }
      }
    } else {
      var below, above := AroundCrossing(c, Best(any));
      assert Lossy(c, above);
    }
  }

  lemma SameBest(c: Config, p: CapacityProof, q: CapacityProof)
    ensures IdealMint(c, Best(p)) == IdealMint(c, Best(q))
  {
    hide NetworkAdjustment, Times;
  }
}
