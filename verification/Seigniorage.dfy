/** The capacity-proof lifecycle: submit, attest, auto-verify, mint. The transition functions give the
    meaning of each manager call; the lemmas speak about every run; the classes at the end update the
    same state in place. */
module Seigniorage {
  import opened Sums
  import opened MonetaryPolicy
  import opened SupplyBound

  const MAX_VERIFIERS: int := 5

  datatype Nullifier = Nullifier(proofId: Hash, nullifierHash: Hash, used: bool, usedAt: int)

  datatype Stats = Stats(
    submitted: Uint64, verified: Uint64, minted: Uint64,
    tokensMinted: Uint64, provenCapacity: Uint64, currentEpoch: Uint64)

  datatype State = State(
    config: Config, proofs: map<Hash, CapacityProof>, nullifiers: map<Hash, Nullifier>, stats: Stats)

  const INITIAL: State := State(DEFAULT_CONFIG, map[], map[], Stats(0, 0, 0, 0, 0, 1))

  // ---- Transitions ----

  predicate Acceptable(s: State, p: CapacityProof) {
    p.proofId !in s.proofs && 1 <= p.difficulty <= 10000 && 1 <= |p.circuit| <= 64
  }

  function Submit(s: State, p: CapacityProof): (State, bool) {
    if Acceptable(s, p)
    then (s.(proofs := s.proofs[p.proofId := p],
             stats := s.stats.(submitted := Wrap64(s.stats.submitted + 1))), true)
    else (s, false)
  }

  predicate AlreadyAttested(p: CapacityProof, verifier: string) {
    exists i :: 0 <= i < |p.attestations| && p.attestations[i].verifier == verifier
  }

  predicate Attestable(s: State, id: Hash, verifier: string) {
    id in s.proofs && s.proofs[id].status == Pending && s.proofs[id].attestationCount < MAX_VERIFIERS
    && !AlreadyAttested(s.proofs[id], verifier)
  }

  function WithAttestation(p: CapacityProof, a: Attestation, threshold: Uint8): CapacityProof {
    var all := p.attestations + [a];
    var count := |all| % 256;
    p.(attestations := all, attestationCount := count, status := if count >= threshold then Verified else p.status)
  }

  function Attest(s: State, id: Hash, verifier: string, attestationHash: Hash, now: int): (State, bool) {
    if Attestable(s, id, verifier) then
      var p := WithAttestation(s.proofs[id], Attestation(verifier, attestationHash, now, true), s.config.minVerifiers);
      (s.(proofs := s.proofs[id := p],
          stats := if p.status == Verified then s.stats.(verified := Wrap64(s.stats.verified + 1)) else s.stats), true)
    else (s, false)
  }

  predicate NullifierUsed(s: State, nullifier: Hash) {
    nullifier in s.nullifiers && s.nullifiers[nullifier].used
  }

  predicate Eligible(s: State, id: Hash) {
    id in s.proofs && s.proofs[id].status == Verified && s.proofs[id].mintAmount == 0
    && !NullifierUsed(s, s.proofs[id].nullifier)
  }

  /** The amount a mint request pays; 0 is a refusal. */
  function Payable(s: State, id: Hash): Uint64 {
    if Eligible(s, id) then MintAmount(s.config, s.proofs[id]) else 0
  }

  function Pay(s: State, id: Hash, amount: Uint64, now: int): State
    requires id in s.proofs
  {
    var p := s.proofs[id].(mintAmount := amount, mintedAt := now);
    State(
      RecordMint(s.config, p, amount),
      s.proofs[id := p],
      s.nullifiers[p.nullifier := Nullifier(p.proofId, p.nullifier, true, now)],
      s.stats.(minted := Wrap64(s.stats.minted + 1),
               tokensMinted := Wrap64(s.stats.tokensMinted + amount),
               provenCapacity := Wrap64(s.stats.provenCapacity + p.difficulty),
               currentEpoch := s.config.currentEpoch))
  }

  function Mint(s: State, id: Hash, now: int): (State, Uint64) {
    var amount := Payable(s, id);
    if amount == 0 then (s, 0) else (Pay(s, id, amount, now), amount)
  }

  datatype Op =
    | DoSubmit(proof: CapacityProof)
    | DoAttest(id: Hash, verifier: string, attestationHash: Hash, now: int)
    | DoMint(id: Hash, now: int)
    | DoRollover(now: int)

  function Step(s: State, op: Op): State {
    match op
    case DoSubmit(p) => Submit(s, p).0
    case DoAttest(id, v, h, now) => Attest(s, id, v, h, now).0
    case DoMint(id, now) => Mint(s, id, now).0
    case DoRollover(now) => s.(config := EpochRollover(s.config, now))
  }

  function Run(s: State, ops: seq<Op>): State
    decreases |ops|
  {
    if ops == [] then s else Run(Step(s, ops[0]), ops[1..])
  }

  /** A submission as the default constructor of a proof leaves it: nothing attested, nothing minted. */
  ghost predicate Fresh(op: Op) {
    op.DoSubmit? ==>
      op.proof.status == Pending && op.proof.attestations == [] && op.proof.attestationCount == 0 && op.proof.mintAmount == 0
  }

  ghost predicate FreshRun(ops: seq<Op>) { forall i :: 0 <= i < |ops| ==> Fresh(ops[i]) }

  /** A submission whose record could have come out of the manager's own calls, unminted; it may carry
      attestations nobody made. */
  ghost predicate Sound(op: Op) { op.DoSubmit? ==> Attested(op.proof) && op.proof.mintAmount == 0 }

  ghost predicate SoundRun(ops: seq<Op>) { forall i :: 0 <= i < |ops| ==> Sound(ops[i]) }

  // ---- The invariant ----

  function MintOf(p: CapacityProof): int { p.mintAmount }
  function CapacityOf(p: CapacityProof): int { if p.mintAmount > 0 then p.difficulty else 0 }

  /** Everything ever minted, and the difficulty of every minted proof, read off the proofs themselves. */
  ghost function TotalMinted(s: State): nat {
    SumNonNegative(s.proofs, MintOf); SumOver(s.proofs, MintOf)
  }

  ghost function TotalCapacity(s: State): nat {
    SumNonNegative(s.proofs, CapacityOf); SumOver(s.proofs, CapacityOf)
  }

  ghost predicate DistinctVerifiers(p: CapacityProof) {
    forall i, j :: 0 <= i < j < |p.attestations| ==> p.attestations[i].verifier != p.attestations[j].verifier
  }

  /** The status follows from the attestations, which name different verifiers. */
  ghost predicate Attested(p: CapacityProof) {
    DistinctVerifiers(p) && p.attestationCount == |p.attestations|
    && p.status != Rejected
    && (p.status == Pending ==> p.attestationCount < 2 && p.mintAmount == 0)
    && (p.status == Verified ==> p.attestationCount == 2)
  }

  ghost predicate GoodRecord(id: Hash, p: CapacityProof) {
    p.proofId == id && 1 <= p.difficulty <= 10000 && 1 <= |p.circuit| <= 64 && Attested(p)
  }

  ghost predicate GoodRecords(s: State) { forall id :: id in s.proofs ==> GoodRecord(id, s.proofs[id]) }

  ghost predicate MintedIn(s: State, id: Hash) { id in s.proofs && s.proofs[id].mintAmount > 0 }

  /** The used nullifier n belongs to a minted proof. */
  ghost predicate NamesMinted(s: State, n: Hash)
    requires n in s.nullifiers
  {
    var r := s.nullifiers[n];
    r.used && r.nullifierHash == n && MintedIn(s, r.proofId) && s.proofs[r.proofId].nullifier == n
  }

  /** The minted proof id is recorded under its nullifier. */
  ghost predicate NamedBack(s: State, id: Hash)
    requires id in s.proofs
  {
    var n := s.proofs[id].nullifier;
    n in s.nullifiers && s.nullifiers[n].proofId == id
  }

  /** Used nullifiers and minted proofs name each other: a one-to-one correspondence. */
  ghost predicate NullifiersMatch(s: State) {
    (forall n :: n in s.nullifiers ==> NamesMinted(s, n))
    && (forall id :: MintedIn(s, id) ==> NamedBack(s, id))
  }

  /** The counters of the engine and of the manager hold these totals modulo 2^64. */
  ghost predicate Agree(c: Config, st: Stats, minted: nat, capacity: nat) {
    c.tokensMinted == Wrap64(minted) == st.tokensMinted && c.provenCapacity == Wrap64(capacity) == st.provenCapacity
  }

  ghost predicate CountersAgree(s: State) { Agree(s.config, s.stats, TotalMinted(s), TotalCapacity(s)) }

  /** The counters have not wrapped: both true totals fit in 64 bits. */
  ghost predicate Unwrapped(s: State) { TotalMinted(s) < TWO_64 && TotalCapacity(s) < TWO_64 }

  /** The bound holds over unwrapped totals, and it alone keeps the supply counter from wrapping. */
  ghost predicate Held(minted: nat, capacity: nat) {
    minted <= 250 * capacity
    && (minted < TWO_64 && capacity < TWO_64 ==> Bounded(minted, capacity))
    && (16 * capacity + 2_500_000 < TWO_64 ==> minted < TWO_64)
  }

  ghost predicate SupplyHeld(s: State) { Held(TotalMinted(s), TotalCapacity(s)) }

  ghost predicate Inv(s: State) {
    DefaultPolicy(s.config) && GoodRecords(s) && NullifiersMatch(s) && CountersAgree(s) && SupplyHeld(s)
  }

  // ---- Each step keeps it ----

  lemma WrapAdd(total: nat, counter: Uint64, extra: nat)
    requires counter == Wrap64(total)
    ensures Wrap64(counter + extra) == Wrap64(total + extra)
  {
  }

  lemma AgreePaid(s: State, id: Hash, amount: Uint64, now: int, minted: nat, capacity: nat)
    requires id in s.proofs && Agree(s.config, s.stats, minted, capacity)
    ensures
      var s' := Pay(s, id, amount, now);
      Agree(s'.config, s'.stats, minted + amount, capacity + s.proofs[id].difficulty)
  {
    WrapAdd(minted, s.config.tokensMinted, amount);
    WrapAdd(capacity, s.config.provenCapacity, s.proofs[id].difficulty);
  }

  /** Both sums over the proofs after one record is stored. */
  lemma StoreSums(proofs: map<Hash, CapacityProof>, id: Hash, p: CapacityProof)
    ensures SumOver(proofs[id := p], MintOf)
      == SumOver(proofs, MintOf) + MintOf(p) - (if id in proofs then MintOf(proofs[id]) else 0)
    ensures SumOver(proofs[id := p], CapacityOf)
      == SumOver(proofs, CapacityOf) + CapacityOf(p) - (if id in proofs then CapacityOf(proofs[id]) else 0)
  {
    SumPut(proofs, MintOf, id, p);
    SumPut(proofs, CapacityOf, id, p);
  }

  /** Storing a record that carries no new mint leaves the totals alone. */
  lemma StoreKeepsTotals(s: State, s': State, id: Hash, p: CapacityProof)
    requires s'.proofs == s.proofs[id := p]
    requires if id in s.proofs then p.mintAmount == s.proofs[id].mintAmount && p.difficulty == s.proofs[id].difficulty
             else p.mintAmount == 0
    ensures TotalMinted(s') == TotalMinted(s) && TotalCapacity(s') == TotalCapacity(s)
  {
    StoreSums(s.proofs, id, p);
  }

  /** ... and the correspondence between nullifiers and minted proofs. */
  lemma StoreKeepsMatch(s: State, s': State, id: Hash, p: CapacityProof)
    requires NullifiersMatch(s) && s'.proofs == s.proofs[id := p] && s'.nullifiers == s.nullifiers
    requires if id in s.proofs then p.mintAmount == s.proofs[id].mintAmount && p.nullifier == s.proofs[id].nullifier
             else p.mintAmount == 0
    ensures NullifiersMatch(s')
  {
    forall n | n in s'.nullifiers ensures NamesMinted(s', n) {
      assert NamesMinted(s, n);
    }
    forall x | MintedIn(s', x) ensures NamedBack(s', x) {
      assert MintedIn(s, x);
    }
  }

  lemma SubmitKeeps(s: State, p: CapacityProof)
    requires Inv(s) && Sound(DoSubmit(p))
    ensures Inv(Submit(s, p).0)
    ensures TotalMinted(Submit(s, p).0) == TotalMinted(s)
  {
    if Acceptable(s, p) {
      StoreKeepsTotals(s, Submit(s, p).0, p.proofId, p);
      assert GoodRecord(p.proofId, p);
      StoreKeepsMatch(s, Submit(s, p).0, p.proofId, p);
    }
  }

  /** A record that arrives already minted has no nullifier of its own on record. */
  lemma MintedSubmission(s: State, p: CapacityProof)
    requires NullifiersMatch(s) && Acceptable(s, p) && p.mintAmount > 0
    ensures !NullifiersMatch(Submit(s, p).0)
  {
    var s' := Submit(s, p).0;
    assert MintedIn(s', p.proofId);
    assert !NamedBack(s', p.proofId) by {
      if p.nullifier in s.nullifiers { assert NamesMinted(s, p.nullifier); }
    }
  }

  /** Exact: an accepted submission keeps the invariant if and only if its record is one the manager's own calls
      could have left there, not yet minted. The manager checks neither. */
  lemma SubmitKeepsExactly(s: State, p: CapacityProof)
    requires Inv(s) && Acceptable(s, p)
    ensures Inv(Submit(s, p).0) <==> Sound(DoSubmit(p))
  {
    hide CountersAgree, SupplyHeld, NullifiersMatch;
    var s' := Submit(s, p).0;
    assert GoodRecords(s') ==> GoodRecord(p.proofId, s'.proofs[p.proofId]);
    if p.mintAmount > 0 { MintedSubmission(s, p); }
    if Sound(DoSubmit(p)) { SubmitKeeps(s, p); }
  }

  lemma AttestedRecordGood(p: CapacityProof, id: Hash, a: Attestation)
    requires GoodRecord(id, p) && p.status == Pending && !AlreadyAttested(p, a.verifier)
    ensures GoodRecord(id, WithAttestation(p, a, 2))
  {
    var p' := WithAttestation(p, a, 2);
    assert |p'.attestations| == |p.attestations| + 1;
  }

  lemma AttestKeeps(s: State, id: Hash, verifier: string, h: Hash, now: int)
    requires Inv(s)
    ensures Inv(Attest(s, id, verifier, h, now).0)
    ensures TotalMinted(Attest(s, id, verifier, h, now).0) == TotalMinted(s)
  {
    if Attestable(s, id, verifier) {
      var s' := Attest(s, id, verifier, h, now).0;
      assert GoodRecord(id, s.proofs[id]);
      StoreKeepsTotals(s, s', id, s'.proofs[id]);
      AttestedRecordGood(s.proofs[id], id, Attestation(verifier, h, now, true));
      StoreKeepsMatch(s, s', id, s'.proofs[id]);
    }
  }

  lemma PayGrowsTotals(s: State, id: Hash, amount: Uint64, now: int)
    requires Eligible(s, id) && amount > 0
    ensures TotalMinted(Pay(s, id, amount, now)) == TotalMinted(s) + amount
    ensures TotalCapacity(Pay(s, id, amount, now)) == TotalCapacity(s) + s.proofs[id].difficulty
  {
    StoreSums(s.proofs, id, Pay(s, id, amount, now).proofs[id]);
  }

  lemma PayKeepsCounters(s: State, id: Hash, amount: Uint64, now: int)
    requires CountersAgree(s) && Eligible(s, id) && amount > 0
    ensures CountersAgree(Pay(s, id, amount, now))
  {
    PayGrowsTotals(s, id, amount, now);
    AgreePaid(s, id, amount, now, TotalMinted(s), TotalCapacity(s));
  }

  lemma PayKeepsRecords(s: State, id: Hash, amount: Uint64, now: int)
    requires GoodRecords(s) && Eligible(s, id)
    ensures GoodRecords(Pay(s, id, amount, now))
  {
    assert GoodRecord(id, s.proofs[id]);
    assert GoodRecord(id, Pay(s, id, amount, now).proofs[id]);
  }

  lemma PayKeepsMatch(s: State, id: Hash, amount: Uint64, now: int)
    requires NullifiersMatch(s) && Eligible(s, id) && amount > 0 && s.proofs[id].proofId == id
    ensures NullifiersMatch(Pay(s, id, amount, now))
  {
    var s', own := Pay(s, id, amount, now), s.proofs[id].nullifier;
    assert own !in s.nullifiers;
    forall n | n in s'.nullifiers ensures NamesMinted(s', n) {
      if n != own { assert NamesMinted(s, n); }
    }
    forall x | MintedIn(s', x) ensures NamedBack(s', x) {
      if x != id { assert MintedIn(s, x) && NamedBack(s, x); }
    }
  }

  lemma PolicySees(c: Config, minted: nat, capacity: nat)
    requires DefaultPolicy(c) && c.tokensMinted == Wrap64(minted) && c.provenCapacity == Wrap64(capacity)
    requires minted < TWO_64 && capacity < TWO_64
    ensures c.tokensMinted == minted && c.provenCapacity == capacity
    ensures NetworkAdjustment(c) == if capacity == 0 then 10000 else AdjustmentAt(10000, Ratio(minted, capacity))
  {
    AdjustmentFromRatio(c);
  }

  /** What the policy sees in an unwrapped state: the adjustment for the true totals. */
  lemma PolicySeesTotals(s: State)
    requires DefaultPolicy(s.config) && CountersAgree(s) && Unwrapped(s)
    ensures s.config.tokensMinted == TotalMinted(s) && s.config.provenCapacity == TotalCapacity(s)
    ensures NetworkAdjustment(s.config)
      == if TotalCapacity(s) == 0 then 10000 else AdjustmentAt(10000, Ratio(TotalMinted(s), TotalCapacity(s)))
  {
    PolicySees(s.config, TotalMinted(s), TotalCapacity(s));
  }

  /** One mint from totals that the policy saw unwrapped. */
  lemma MintHeld(minted: nat, capacity: nat, d: nat, amount: nat, adj: nat)
    requires Held(minted, capacity) && amount <= 250 * d
    requires minted < TWO_64 && capacity < TWO_64 ==>
      adj == if capacity == 0 then 10000 else AdjustmentAt(10000, Ratio(minted, capacity))
    requires 1 <= d <= 10000 && 40 * amount <= d * adj
    ensures Held(minted + amount, capacity + d)
  {
    hide Bounded, AdjustmentAt, Ratio;
    if minted < TWO_64 && capacity < TWO_64 {
      MintKeepsBound(minted, capacity, d, amount, adj);
      NearSixteenTimes(minted + amount, capacity + d);
    }
  }

  lemma PayKeepsSupply(s: State, id: Hash, amount: Uint64, now: int)
    requires Inv(s) && Eligible(s, id) && amount > 0
    requires 40 * amount <= s.proofs[id].difficulty * NetworkAdjustment(s.config)
    requires amount <= 250 * s.proofs[id].difficulty
    ensures SupplyHeld(Pay(s, id, amount, now))
  {
    hide Held, NetworkAdjustment, AdjustmentAt, Ratio, SumOver;
    var p := s.proofs[id];
    assert GoodRecord(id, p);
    PayGrowsTotals(s, id, amount, now);
    if Unwrapped(s) { PolicySeesTotals(s); }
    MintHeld(TotalMinted(s), TotalCapacity(s), p.difficulty, amount, NetworkAdjustment(s.config));
  }

  lemma MintKeeps(s: State, id: Hash, now: int)
    requires Inv(s)
    ensures Inv(Mint(s, id, now).0)
    ensures TotalMinted(Mint(s, id, now).0) == TotalMinted(s) + Payable(s, id)
  {
    var amount := Payable(s, id);
    if amount > 0 {
      assert GoodRecord(id, s.proofs[id]);
      DefaultMintRange(s.config, s.proofs[id]);
      PayGrowsTotals(s, id, amount, now);
      PayKeepsCounters(s, id, amount, now);
      PayKeepsSupply(s, id, amount, now);
      PayKeepsRecords(s, id, amount, now);
      PayKeepsMatch(s, id, amount, now);
    }
  }

  lemma RolloverKeeps(s: State, now: int)
    requires Inv(s)
    ensures Inv(Step(s, DoRollover(now)))
  {
    var s' := Step(s, DoRollover(now));
    forall n | n in s'.nullifiers ensures NamesMinted(s', n) { assert NamesMinted(s, n); }
    forall x | MintedIn(s', x) ensures NamedBack(s', x) { assert MintedIn(s, x); }
  }

  lemma StepKeeps(s: State, op: Op)
    requires Inv(s) && Sound(op)
    ensures Inv(Step(s, op))
    ensures TotalMinted(Step(s, op)) == TotalMinted(s) + if op.DoMint? then Payable(s, op.id) else 0
  {
    match op
    case DoSubmit(p) => SubmitKeeps(s, p);
    case DoAttest(id, v, h, now) => AttestKeeps(s, id, v, h, now);
    case DoMint(id, now) => MintKeeps(s, id, now);
    case DoRollover(now) => RolloverKeeps(s, now);
  }

  lemma InitialHolds()
    ensures Inv(INITIAL)
  {
  }

  lemma {:induction false} RunKeeps(s: State, ops: seq<Op>)
    requires Inv(s) && SoundRun(ops)
    ensures Inv(Run(s, ops))
    decreases |ops|
  {
    if ops != [] {
      assert Sound(ops[0]);
      StepKeeps(s, ops[0]);
      RunKeeps(Step(s, ops[0]), ops[1..]);
    }
  }

  // ---- Main results, for every run of sound submissions ----

  /** Supply bound: M^2 <= 251 C^2 + 62249 * 10^8 over the true totals, in every state whose engine counters hold
      the true totals; while 16 times the capacity fits in 64 bits they do. */
  lemma SupplyStaysBounded(ops: seq<Op>)
    requires SoundRun(ops)
    ensures
      var s := Run(INITIAL, ops);
      TotalMinted(s) <= 250 * TotalCapacity(s)
      && (s.config.tokensMinted == TotalMinted(s) && s.config.provenCapacity == TotalCapacity(s) <==> Unwrapped(s))
      && (Unwrapped(s) ==>
            Bounded(TotalMinted(s), TotalCapacity(s)) && TotalMinted(s) <= 16 * TotalCapacity(s) + 2_500_000)
      && (16 * TotalCapacity(s) + 2_500_000 < TWO_64 ==> Unwrapped(s))
  {
    hide SumOver;
    InitialHolds();
    RunKeeps(INITIAL, ops);
    var s := Run(INITIAL, ops);
    if Unwrapped(s) {
      NearSixteenTimes(TotalMinted(s), TotalCapacity(s));
      PolicySeesTotals(s);
    }
  }

  /** The policy never starves: verified proofs carry exactly two attestations by distinct verifiers and a
      bonus of 1.0x, the adjustment is at least 40 basis points, and a verified unminted proof of difficulty
      10 or more with an unused nullifier mints at least 1. */
  lemma PolicyNeverStarves(ops: seq<Op>, id: Hash)
    requires SoundRun(ops) && id in Run(INITIAL, ops).proofs && Run(INITIAL, ops).proofs[id].status == Verified
    ensures
      var s := Run(INITIAL, ops);
      var p := s.proofs[id];
      p.attestationCount == |p.attestations| == 2 && DistinctVerifiers(p) && VerifierBonus(s.config, p) == 10000
      && (Unwrapped(s) ==>
            NetworkAdjustment(s.config) >= 40
            && (p.mintAmount == 0 && p.difficulty >= 10 && !NullifierUsed(s, p.nullifier) ==> Payable(s, id) >= 1))
  {
    InitialHolds();
    RunKeeps(INITIAL, ops);
    var s := Run(INITIAL, ops);
    var p := s.proofs[id];
    assert GoodRecord(id, p);
    if Unwrapped(s) { PayoutFloor(s, id); }
  }

  /** While the counters have not wrapped the adjustment has a floor, and every eligible proof of difficulty 10 pays. */
  lemma PayoutFloor(s: State, id: Hash)
    requires Inv(s) && Unwrapped(s)
    ensures NetworkAdjustment(s.config) >= 40
    ensures Eligible(s, id) && s.proofs[id].difficulty >= 10 ==> Payable(s, id) >= 1
  {
    PolicySeesTotals(s);
    if TotalCapacity(s) > 0 {
      AdjustmentFloor(TotalMinted(s), TotalCapacity(s));
    }
    if Eligible(s, id) && s.proofs[id].difficulty >= 10 {
      assert GoodRecord(id, s.proofs[id]);
      DefaultMintRange(s.config, s.proofs[id]);
      ProductLe(10, s.proofs[id].difficulty, 40, NetworkAdjustment(s.config));
    }
  }

  /** The mints that a run pays, in order. */
  ghost function Payments(s: State, ops: seq<Op>): seq<(Hash, nat)>
    decreases |ops|
  {
    if ops == [] then []
    else
      var rest := Payments(Step(s, ops[0]), ops[1..]);
      if ops[0].DoMint? && Payable(s, ops[0].id) > 0 then [(ops[0].id, Payable(s, ops[0].id) as nat)] + rest else rest
  }

  ghost function TotalPaid(payments: seq<(Hash, nat)>): nat {
    if payments == [] then 0 else payments[0].1 + TotalPaid(payments[1..])
  }

  /** One step: minted proofs stay minted, a paid proof was unminted before. */
  lemma StepKeepsMinted(s: State, op: Op)
    requires GoodRecords(s) && Sound(op)
    ensures forall id :: MintedIn(s, id) ==> MintedIn(Step(s, op), id)
    ensures op.DoMint? && Payable(s, op.id) > 0 ==> !MintedIn(s, op.id) && MintedIn(Step(s, op), op.id)
  {
  }

  lemma {:induction false} MintedPersists(s: State, ops: seq<Op>, id: Hash)
    requires Inv(s) && SoundRun(ops) && MintedIn(s, id)
    ensures MintedIn(Run(s, ops), id)
    ensures forall k :: 0 <= k < |Payments(s, ops)| ==> Payments(s, ops)[k].0 != id
    decreases |ops|
  {
    hide NullifiersMatch, CountersAgree, SupplyHeld, MintAmount, Step;
    if ops != [] {
      assert Sound(ops[0]);
      StepKeeps(s, ops[0]);
      StepKeepsMinted(s, ops[0]);
      MintedPersists(Step(s, ops[0]), ops[1..], id);
    }
  }

  /** From any state: no proof is paid twice, every paid proof ends minted, and supply grows by what was paid. */
  lemma {:induction false} PaymentsAccountedFrom(s: State, ops: seq<Op>)
    requires Inv(s) && SoundRun(ops)
    ensures forall k :: 0 <= k < |Payments(s, ops)| ==> MintedIn(Run(s, ops), Payments(s, ops)[k].0)
    ensures forall j, k :: 0 <= j < k < |Payments(s, ops)| ==> Payments(s, ops)[j].0 != Payments(s, ops)[k].0
    ensures TotalMinted(Run(s, ops)) == TotalMinted(s) + TotalPaid(Payments(s, ops))
    decreases |ops|
  {
    hide NullifiersMatch, CountersAgree, SupplyHeld, MintAmount, Step, SumOver;
    if ops != [] {
      var op, s' := ops[0], Step(s, ops[0]);
      assert Sound(op);
      StepKeeps(s, op);
      StepKeepsMinted(s, op);
      PaymentsAccountedFrom(s', ops[1..]);
      if op.DoMint? && Payable(s, op.id) > 0 {
        MintedPersists(s', ops[1..], op.id);
        assert Payments(s, ops)[1..] == Payments(s', ops[1..]);
      }
    }
  }

  /** Mint accounting over whole runs from the start. */
  lemma PaymentsAccounted(ops: seq<Op>)
    requires SoundRun(ops)
    ensures
      var s, paid := Run(INITIAL, ops), Payments(INITIAL, ops);
      NullifiersMatch(s) && CountersAgree(s) && TotalMinted(s) == TotalPaid(paid)
      && (forall j, k :: 0 <= j < k < |paid| ==> paid[j].0 != paid[k].0)
      && (forall k :: 0 <= k < |paid| ==> MintedIn(s, paid[k].0))
  {
    InitialHolds();
    RunKeeps(INITIAL, ops);
    PaymentsAccountedFrom(INITIAL, ops);
  }

  // ---- Statistics ----

  function VerifiedOf(p: CapacityProof): int { if p.status == Verified then 1 else 0 }

  ghost function TotalVerified(s: State): nat {
    SumNonNegative(s.proofs, VerifiedOf); SumOver(s.proofs, VerifiedOf)
  }

  /** The three lifecycle counters count the stored, the verified and the minted proofs, modulo 2^64. */
  ghost predicate CountsAgree(s: State) {
    s.stats.submitted == Wrap64(|s.proofs|) && s.stats.verified == Wrap64(TotalVerified(s))
    && s.stats.minted == Wrap64(|s.nullifiers|)
  }

  /** An accepted submission keeps the counters exact if and only if it is not submitted as already verified. */
  lemma SubmitCounts(s: State, p: CapacityProof)
    requires CountsAgree(s) && Acceptable(s, p)
    ensures CountsAgree(Submit(s, p).0) <==> p.status != Verified
  {
    hide SumOver;
    SumPut(s.proofs, VerifiedOf, p.proofId, p);
    WrapAdd(|s.proofs|, s.stats.submitted, 1);
    assert |s.proofs[p.proofId := p]| == |s.proofs| + 1;
  }

  lemma AttestCounts(s: State, id: Hash, verifier: string, h: Hash, now: int)
    requires CountsAgree(s) && Attestable(s, id, verifier)
    ensures CountsAgree(Attest(s, id, verifier, h, now).0)
  {
    hide SumOver;
    var s' := Attest(s, id, verifier, h, now).0;
    SumPut(s.proofs, VerifiedOf, id, s'.proofs[id]);
    WrapAdd(TotalVerified(s), s.stats.verified, 1);
    assert s'.proofs.Keys == s.proofs.Keys;
    assert |s'.proofs| == |s'.proofs.Keys| && |s.proofs| == |s.proofs.Keys|;
  }

  lemma PayCounts(s: State, id: Hash, amount: Uint64, now: int)
    requires CountsAgree(s) && Eligible(s, id) && s.proofs[id].nullifier !in s.nullifiers
    ensures CountsAgree(Pay(s, id, amount, now))
  {
    hide SumOver;
    var s' := Pay(s, id, amount, now);
    SumPut(s.proofs, VerifiedOf, id, s'.proofs[id]);
    WrapAdd(|s.nullifiers|, s.stats.minted, 1);
    assert s'.proofs.Keys == s.proofs.Keys && s'.nullifiers.Keys == s.nullifiers.Keys + {s.proofs[id].nullifier};
    assert |s'.proofs| == |s'.proofs.Keys| && |s.proofs| == |s.proofs.Keys|;
    assert |s'.nullifiers| == |s'.nullifiers.Keys| && |s.nullifiers| == |s.nullifiers.Keys|;
  }

  lemma UnusedMeansAbsent(s: State, n: Hash)
    requires NullifiersMatch(s) && !NullifierUsed(s, n)
    ensures n !in s.nullifiers
  {
  }

  lemma FreshIsSound(op: Op)
    requires Fresh(op)
    ensures Sound(op)
  {
  }

  lemma StepCounts(s: State, op: Op)
    requires NullifiersMatch(s) && CountsAgree(s) && Fresh(op)
    ensures CountsAgree(Step(s, op))
  {
    hide CountsAgree, MintAmount, NullifiersMatch;
    match op
    case DoSubmit(p) => if Acceptable(s, p) { SubmitCounts(s, p); }
    case DoAttest(id, v, h, now) => if Attestable(s, id, v) { AttestCounts(s, id, v, h, now); }
    case DoMint(id, now) =>
      if Payable(s, id) > 0 {
        UnusedMeansAbsent(s, s.proofs[id].nullifier);
        PayCounts(s, id, Payable(s, id), now);
      }
    case DoRollover(now) => SameCounts(s, Step(s, op));
  }

  lemma SameCounts(s: State, s': State)
    requires CountsAgree(s) && s'.proofs == s.proofs && s'.nullifiers == s.nullifiers && s'.stats == s.stats
    ensures CountsAgree(s')
  {
  }

  /** In every run the lifecycle statistics agree with the stored proofs and nullifiers. */
  lemma {:induction false} StatisticsAgree(s: State, ops: seq<Op>)
    requires Inv(s) && CountsAgree(s) && FreshRun(ops)
    ensures CountsAgree(Run(s, ops))
    decreases |ops|
  {
    hide CountsAgree, NullifiersMatch, GoodRecords, CountersAgree, SupplyHeld, Step;
    if ops != [] {
      assert Fresh(ops[0]);
      FreshIsSound(ops[0]);
      StepKeeps(s, ops[0]);
      StepCounts(s, ops[0]);
      StatisticsAgree(Step(s, ops[0]), ops[1..]);
    }
  }

  /** A new manager has counted nothing and is in epoch 1. */
  lemma InitialCounts()
    ensures CountsAgree(INITIAL) && INITIAL.stats == Stats(0, 0, 0, 0, 0, 1) && INITIAL.config.currentEpoch == 1
  {
  }

  /** Used nullifiers determine their proof: two minted proofs never share one. */
  lemma NullifierNamesOneProof(ops: seq<Op>, id: Hash, id': Hash)
    requires SoundRun(ops) && MintedIn(Run(INITIAL, ops), id) && MintedIn(Run(INITIAL, ops), id')
    ensures Run(INITIAL, ops).proofs[id].nullifier == Run(INITIAL, ops).proofs[id'].nullifier <==> id == id'
    ensures NullifierUsed(Run(INITIAL, ops), Run(INITIAL, ops).proofs[id].nullifier)
  {
    PaymentsAccounted(ops);
  }

  /** The bound is attained: one proof of full difficulty and top tier, attested by two verifiers and minted first,
      pays 250 times its difficulty. */
  lemma BoundAttained(p: CapacityProof, first: string, second: string, now: int)
    requires p.difficulty == 10000 && p.collateralTier == 5 && 1 <= |p.circuit| <= 64 && Fresh(DoSubmit(p)) && first != second
    ensures
      var ops := [DoSubmit(p), DoAttest(p.proofId, first, "", now), DoAttest(p.proofId, second, "", now), DoMint(p.proofId, now)];
      var s := Run(INITIAL, ops);
      FreshRun(ops) && TotalMinted(s) == 2_500_000 && TotalCapacity(s) == 10000
      && TotalMinted(s) * TotalMinted(s) == 251 * (TotalCapacity(s) * TotalCapacity(s)) + 62249 * 100_000_000
  {
    hide TotalMinted, TotalCapacity, SumOver, MintAmount, NetworkAdjustment, GoodRecords, NullifiersMatch,
         CountersAgree, SupplyHeld;
    var id := p.proofId;
    var ops := [DoSubmit(p), DoAttest(id, first, "", now), DoAttest(id, second, "", now), DoMint(id, now)];
    var s1 := Step(INITIAL, ops[0]);
    var s2 := Step(s1, ops[1]);
    var s3 := Step(s2, ops[2]);
    var q := s3.proofs[id];
    assert s3.config == DEFAULT_CONFIG && q.status == Verified && q.attestationCount == 2 && q.mintAmount == 0;
    TopPayout(q);
    EmptyTotals(p, s1, s2, s3, first, second, now);
    PayGrowsTotals(s3, id, 2_500_000, now);
    assert ops[1..][1..][1..] == [ops[3]] && ops[1..][1..] == [ops[2], ops[3]] && ops[1..] == [ops[1], ops[2], ops[3]];
    FourSteps(INITIAL, ops);
    assert Run(INITIAL, ops) == Pay(s3, id, 2_500_000, now);
  }

  lemma FourSteps(s: State, ops: seq<Op>)
    requires |ops| == 4
    ensures Run(s, ops) == Step(Step(Step(Step(s, ops[0]), ops[1]), ops[2]), ops[3])
  {
    hide Step;
    var a := Step(s, ops[0]);
    var b := Step(a, ops[1]);
    var c := Step(b, ops[2]);
    assert ops[1..][1..] == ops[2..] && ops[2..][1..] == ops[3..] && ops[3..][1..] == [];
    assert Run(s, ops) == Run(a, ops[1..]) == Run(b, ops[2..]) == Run(c, ops[3..]);
    assert Run(c, ops[3..]) == Run(Step(c, ops[3]), []);
  }

  lemma EmptyTotals(p: CapacityProof, s1: State, s2: State, s3: State, first: string, second: string, now: int)
    requires Acceptable(INITIAL, p) && Fresh(DoSubmit(p)) && s1 == Submit(INITIAL, p).0
    requires Attestable(s1, p.proofId, first) && s2 == Attest(s1, p.proofId, first, "", now).0
    requires Attestable(s2, p.proofId, second) && s3 == Attest(s2, p.proofId, second, "", now).0
    ensures TotalMinted(s3) == 0 && TotalCapacity(s3) == 0
  {
    StoreKeepsTotals(INITIAL, s1, p.proofId, p);
    StoreKeepsTotals(s1, s2, p.proofId, s2.proofs[p.proofId]);
    StoreKeepsTotals(s2, s3, p.proofId, s3.proofs[p.proofId]);
  }

  lemma TopPayout(p: CapacityProof)
    requires p.status == Verified && p.attestationCount <= 2 && p.difficulty == 10000 && p.collateralTier == 5
    ensures MintAmount(DEFAULT_CONFIG, p) == 2_500_000
  {
    hide MintAmount;
    ProductNeverWraps(DEFAULT_CONFIG, p);
    assert NetworkAdjustment(DEFAULT_CONFIG) == 10000 && VerifierBonus(DEFAULT_CONFIG, p) == 10000;
    assert IdealProduct(DEFAULT_CONFIG, p) == 1_000_000 * 25000 * 10000 * 10000 * 10000;
  }

  /** A record submitted as already verified is stored as given and mints with no attest call at all. With two
      invented attestations by different names even the invariant notices nothing. */
  lemma ForgedSubmissionMints(p: CapacityProof, now: int)
    requires p.status == Verified && p.mintAmount == 0 && p.attestationCount <= 2
    requires p.difficulty == 10000 && p.collateralTier == 5 && 1 <= |p.circuit| <= 64
    ensures Mint(Submit(INITIAL, p).0, p.proofId, now).1 == 2_500_000
    ensures Inv(Submit(INITIAL, p).0) <==> p.attestationCount == |p.attestations| == 2 && DistinctVerifiers(p)
  {
    hide MintAmount;
    TopPayout(p);
    InitialHolds();
    SubmitKeepsExactly(INITIAL, p);
  }

  // ---- What each call does ----

  /** A submission is accepted exactly for a new id, difficulty 1 to 10000 and a circuit name of 1 to 64 characters; it
      stores the record, counts it and changes nothing else. */
  lemma SubmitExactly(s: State, p: CapacityProof)
    ensures
      var (s', ok) := Submit(s, p);
      (ok <==> p.proofId !in s.proofs && 1 <= p.difficulty <= 10000 && 1 <= |p.circuit| <= 64)
      && (!ok ==> s' == s)
      && (ok ==> s'.config == s.config && s'.nullifiers == s.nullifiers && s'.proofs == s.proofs[p.proofId := p]
                 && s'.stats == s.stats.(submitted := (s.stats.submitted + 1) % 0x1_0000_0000_0000_0000))
  {
  }

  /** An attestation is accepted exactly for a pending proof with fewer than five of them, from a verifier not among
      them; it is appended as given, and the proof becomes verified when the count reaches the required number. */
  lemma AttestExactly(s: State, id: Hash, verifier: string, h: Hash, now: int)
    ensures
      var (s', ok) := Attest(s, id, verifier, h, now);
      (ok <==> id in s.proofs && s.proofs[id].status == Pending && s.proofs[id].attestationCount <= 4
               && forall a :: a in s.proofs[id].attestations ==> a.verifier != verifier)
      && (!ok ==> s' == s)
      && (ok ==>
            s'.config == s.config && s'.nullifiers == s.nullifiers && s'.proofs.Keys == s.proofs.Keys
            && (forall x :: x in s.proofs && x != id ==> s'.proofs[x] == s.proofs[x])
            && var (p, p') := (s.proofs[id], s'.proofs[id]);
            p'.attestations == p.attestations + [Attestation(verifier, h, now, true)]
            && p'.attestationCount == |p'.attestations| % 256
            && p' == p.(attestations := p'.attestations, attestationCount := p'.attestationCount, status := p'.status)
            && p'.status == (if p'.attestationCount >= s.config.minVerifiers then Verified else Pending)
            && s'.stats == s.stats.(verified := if p'.status == Verified then (s.stats.verified + 1) % 0x1_0000_0000_0000_0000
                                                else s.stats.verified))
  {
    var p := s.proofs;
    assert id in p ==> (AlreadyAttested(p[id], verifier) <==> exists a :: a in p[id].attestations && a.verifier == verifier);
  }

  /** A mint pays exactly for a verified, unminted proof with an unused nullifier and a positive amount; then proof,
      nullifier, engine and statistics all record it. */
  lemma MintExactly(s: State, id: Hash, now: int)
    ensures
      var (s', amount) := Mint(s, id, now);
      (amount > 0 <==> id in s.proofs && s.proofs[id].status == Verified && s.proofs[id].mintAmount == 0
                       && !(s.proofs[id].nullifier in s.nullifiers && s.nullifiers[s.proofs[id].nullifier].used)
                       && MintAmount(s.config, s.proofs[id]) > 0)
      && (amount == 0 ==> s' == s)
      && (amount > 0 ==>
            var (p, n) := (s.proofs[id], s.proofs[id].nullifier);
            amount == MintAmount(s.config, p) && s'.proofs == s.proofs[id := p.(mintAmount := amount, mintedAt := now)]
            && s'.nullifiers == s.nullifiers[n := Nullifier(p.proofId, n, true, now)]
            && s'.config == s.config.(provenCapacity := (s.config.provenCapacity + p.difficulty) % 0x1_0000_0000_0000_0000,
                                      tokensMinted := (s.config.tokensMinted + amount) % 0x1_0000_0000_0000_0000)
            && s'.stats == s.stats.(minted := (s.stats.minted + 1) % 0x1_0000_0000_0000_0000,
                                    tokensMinted := (s.stats.tokensMinted + amount) % 0x1_0000_0000_0000_0000,
                                    provenCapacity := (s.stats.provenCapacity + p.difficulty) % 0x1_0000_0000_0000_0000,
                                    currentEpoch := s.config.currentEpoch))
  {
    hide MintAmount;
  }

  // ---- Where attestations come from ----

  ghost predicate Made(ops: seq<Op>, id: Hash, a: Attestation) {
    DoAttest(id, a.verifier, a.attestationHash, a.timestamp) in ops && a.signatureValid
  }

  /** A submission of the run carried it in. */
  ghost predicate Brought(ops: seq<Op>, id: Hash, a: Attestation) {
    exists op :: op in ops && op.DoSubmit? && op.proof.proofId == id && a in op.proof.attestations
  }

  ghost predicate Carries(s: State, id: Hash, a: Attestation) { id in s.proofs && a in s.proofs[id].attestations }

  lemma StepAttests(s: State, op: Op, id: Hash, a: Attestation)
    requires Carries(Step(s, op), id, a)
    ensures Carries(s, id, a) || Made([op], id, a) || Brought([op], id, a)
  {
    hide MintAmount;
    if op.DoSubmit? && !Carries(s, id, a) {
      assert op in [op];
    }
  }

  /** In every run each attestation on record was there before, was made by an attest call or came with a submission. */
  lemma {:induction false} AttestationsMade(s: State, ops: seq<Op>, id: Hash, a: Attestation)
    requires Carries(Run(s, ops), id, a)
    ensures Carries(s, id, a) || Made(ops, id, a) || Brought(ops, id, a)
    decreases |ops|
  {
    hide Step;
    if ops != [] {
      AttestationsMade(Step(s, ops[0]), ops[1..], id, a);
      assert ops == [ops[0]] + ops[1..];
      if Carries(Step(s, ops[0]), id, a) { StepAttests(s, ops[0], id, a); }
    }
  }

  lemma FreshBringsNothing(ops: seq<Op>, id: Hash, a: Attestation)
    requires FreshRun(ops)
    ensures !Brought(ops, id, a)
  {
  }

  lemma FreshRunIsSound(ops: seq<Op>)
    requires FreshRun(ops)
    ensures SoundRun(ops)
  {
    forall i | 0 <= i < |ops| ensures Sound(ops[i]) {
      assert Fresh(ops[i]);
      FreshIsSound(ops[i]);
    }
  }

  /** Two attest calls of different verifiers for the proof. */
  ghost predicate TwoAttestCalls(ops: seq<Op>, id: Hash) {
    exists x, y :: x in ops && y in ops && x.DoAttest? && y.DoAttest? && x.id == id == y.id && x.verifier != y.verifier
  }

  /** From a state that carries no attestation of the proof, a run of fresh submissions mints it only after two attest
      calls of different verifiers. */
  lemma MintedWasAttested(s: State, ops: seq<Op>, id: Hash)
    requires Inv(s) && FreshRun(ops) && MintedIn(Run(s, ops), id) && (id in s.proofs ==> s.proofs[id].attestations == [])
    ensures
      var p := Run(s, ops).proofs[id];
      |p.attestations| == 2 && p.attestations[0].verifier != p.attestations[1].verifier
      && Made(ops, id, p.attestations[0]) && Made(ops, id, p.attestations[1]) && TwoAttestCalls(ops, id)
  {
    hide Step, NullifiersMatch, CountersAgree, SupplyHeld, Brought;
    FreshRunIsSound(ops);
    RunKeeps(s, ops);
    var s' := Run(s, ops);
    assert GoodRecord(id, s'.proofs[id]);
    var a, b := s'.proofs[id].attestations[0], s'.proofs[id].attestations[1];
    assert Carries(s', id, a) && Carries(s', id, b);
    AttestationsMade(s, ops, id, a);
    AttestationsMade(s, ops, id, b);
    FreshBringsNothing(ops, id, a);
    FreshBringsNothing(ops, id, b);
  }

  // ---- Which submissions can be minted without two attest calls ----

  /** The record as submitted: it never verifies again, or only after two more attestations. */
  predicate NeedsTwoCalls(p: CapacityProof) {
    p.mintAmount == 0
    && (p.status == Rejected
        || (p.status == Pending && (p.attestationCount >= MAX_VERIFIERS || |p.attestations| % 256 in {0, 255})))
  }

  predicate Attests(s: State, op: Op, id: Hash) { op.DoAttest? && op.id == id && Attestable(s, id, op.verifier) }

  lemma StepLeavesRecord(s: State, op: Op, id: Hash)
    requires id in s.proofs && s.proofs[id].status != Verified && !Attests(s, op, id)
    ensures id in Step(s, op).proofs && Step(s, op).proofs[id] == s.proofs[id]
  {
    hide MintAmount;
  }

  /** A rejected record, or a pending one whose count is at the limit, is never minted. */
  lemma {:induction false} StuckNeverMints(s: State, ops: seq<Op>, id: Hash)
    requires id in s.proofs && s.proofs[id].mintAmount == 0
    requires s.proofs[id].status == Rejected || (s.proofs[id].status == Pending && s.proofs[id].attestationCount >= MAX_VERIFIERS)
    ensures !MintedIn(Run(s, ops), id)
    decreases |ops|
  {
    hide Step;
    if ops != [] {
      StepLeavesRecord(s, ops[0], id);
      StuckNeverMints(Step(s, ops[0]), ops[1..], id);
    }
  }

  /** A pending record that v attested is minted only after an attest call of another verifier. */
  lemma {:induction false} NeedsAnother(s: State, ops: seq<Op>, id: Hash, v: string)
    requires id in s.proofs && s.proofs[id].status == Pending && s.proofs[id].mintAmount == 0
    requires AlreadyAttested(s.proofs[id], v) && MintedIn(Run(s, ops), id)
    ensures exists y :: y in ops && y.DoAttest? && y.id == id && y.verifier != v
    decreases |ops|
  {
    hide Step, AlreadyAttested;
    if ops != [] {
      if Attests(s, ops[0], id) {
        assert ops[0] in ops;
      } else {
        StepLeavesRecord(s, ops[0], id);
        NeedsAnother(Step(s, ops[0]), ops[1..], id, v);
        var y :| y in ops[1..] && y.DoAttest? && y.id == id && y.verifier != v;
        assert y in ops;
      }
    }
  }

  lemma AttestStaysPending(s: State, op: Op, id: Hash)
    requires Attests(s, op, id) && s.config.minVerifiers == 2 && |s.proofs[id].attestations| % 256 in {0, 255}
    ensures
      var s' := Step(s, op);
      id in s'.proofs && s'.proofs[id].status == Pending && s'.proofs[id].mintAmount == s.proofs[id].mintAmount
      && AlreadyAttested(s'.proofs[id], op.verifier)
  {
    var p' := Step(s, op).proofs[id];
    assert p'.attestations[|s.proofs[id].attestations|].verifier == op.verifier;
  }

  lemma StepKeepsThreshold(s: State, op: Op)
    ensures Step(s, op).config.minVerifiers == s.config.minVerifiers
  {
    hide MintAmount;
  }

  lemma {:induction false} PendingNeedsTwo(s: State, ops: seq<Op>, id: Hash)
    requires id in s.proofs && s.proofs[id].status == Pending && s.proofs[id].mintAmount == 0
    requires s.config.minVerifiers == 2 && |s.proofs[id].attestations| % 256 in {0, 255} && MintedIn(Run(s, ops), id)
    ensures TwoAttestCalls(ops, id)
    decreases |ops|
  {
    hide Step, AlreadyAttested, Attestable;
    if ops != [] {
      var op, rest := ops[0], ops[1..];
      assert op in ops;
      if Attests(s, op, id) {
        AttestStaysPending(s, op, id);
        NeedsAnother(Step(s, op), rest, id, op.verifier);
        var y :| y in rest && y.DoAttest? && y.id == id && y.verifier != op.verifier;
        assert y in ops;
      } else {
        StepLeavesRecord(s, op, id);
        StepKeepsThreshold(s, op);
        PendingNeedsTwo(Step(s, op), rest, id);
        var x, y :| x in rest && y in rest && x.DoAttest? && y.DoAttest? && x.id == id == y.id && x.verifier != y.verifier;
        assert x in ops && y in ops;
      }
    }
  }

  /** Whatever its attestation count, a verified record of difficulty 10 mints at the adjustment floor. */
  lemma VerifiedPays(c: Config, p: CapacityProof)
    requires DefaultPolicy(c) && NetworkAdjustment(c) >= 40 && p.status == Verified && 10 <= p.difficulty <= 10000
    ensures MintAmount(c, p) >= 1
  {
    hide NetworkAdjustment, MintAmount;
    var p0, p2 := p.(attestationCount := 0), p.(attestationCount := 2);
    ProductLe(10, p.difficulty, 40, NetworkAdjustment(c));
    DefaultMintRange(c, p2);
    SameBonus(c, p);
    RewardFits(c, p);
    PayoutFollowsAdjustment(c, p0, c, p);
  }

  lemma SameBonus(c: Config, p: CapacityProof)
    requires DefaultPolicy(c)
    ensures MintAmount(c, p.(attestationCount := 0)) == MintAmount(c, p.(attestationCount := 2))
  {
    hide NetworkAdjustment, TierMultiplier, Wrap128, Wrap64;
  }

  ghost predicate Open(s: State, id: Hash) {
    DefaultPolicy(s.config) && NetworkAdjustment(s.config) >= 40 && id in s.proofs
    && s.proofs[id].mintAmount == 0 && 10 <= s.proofs[id].difficulty <= 10000 && !NullifierUsed(s, s.proofs[id].nullifier)
  }

  lemma MintCallPays(s: State, id: Hash, now: int)
    requires Open(s, id) && s.proofs[id].status == Verified
    ensures MintedIn(Step(s, DoMint(id, now)), id)
  {
    hide MintAmount, NetworkAdjustment, DefaultPolicy;
    VerifiedPays(s.config, s.proofs[id]);
  }

  function TotalLength(attestations: seq<Attestation>): nat {
    if attestations == [] then 0
    else TotalLength(attestations[..|attestations| - 1]) + |attestations[|attestations| - 1].verifier|
  }

  lemma {:induction false} LengthBounds(attestations: seq<Attestation>, i: nat)
    requires i < |attestations|
    ensures |attestations[i].verifier| <= TotalLength(attestations)
  {
    var n := |attestations| - 1;
    if i < n { LengthBounds(attestations[..n], i); }
  }

  /** There is always another verifier. */
  lemma UnusedName(p: CapacityProof) returns (v: string)
    ensures !AlreadyAttested(p, v)
  {
    v := seq(TotalLength(p.attestations) + 1, _ => 'a');
    forall i | 0 <= i < |p.attestations| ensures p.attestations[i].verifier != v {
      LengthBounds(p.attestations, i);
    }
  }

  lemma AttestVerifies(s: State, id: Hash, v: string, now: int)
    requires Open(s, id) && Attestable(s, id, v) && |s.proofs[id].attestations| % 256 !in {0, 255}
    ensures
      var s' := Step(s, DoAttest(id, v, "", now));
      Open(s', id) && s'.proofs[id].status == Verified
  {
    hide NetworkAdjustment;
    assert (|s.proofs[id].attestations| + 1) % 256 >= 2;
  }

  /** Any other record is minted after at most one attest call. */
  lemma MintsEarly(s: State, id: Hash) returns (ops: seq<Op>)
    requires id in s.proofs && !NeedsTwoCalls(s.proofs[id]) && (s.proofs[id].mintAmount == 0 ==> Open(s, id))
    ensures FreshRun(ops) && MintedIn(Run(s, ops), id) && !TwoAttestCalls(ops, id)
  {
    hide Step, Open, AlreadyAttested;
    var p, mint := s.proofs[id], DoMint(id, 0);
    if p.mintAmount > 0 {
      ops := [];
    } else if p.status == Verified {
      ops := [mint];
      MintCallPays(s, id, 0);
      OneCall(s, mint);
    } else {
      var v := UnusedName(p);
      var attest := DoAttest(id, v, "", 0);
      ops := [attest, mint];
      AttestVerifies(s, id, v, 0);
      MintCallPays(Step(s, attest), id, 0);
      OneCall(Step(s, attest), mint);
      assert ops[1..] == [mint];
    }
  }

  lemma OneCall(s: State, op: Op)
    ensures Run(s, [op]) == Step(s, op)
  {
    hide Step;
    assert [op][1..] == [];
    assert Run(s, [op]) == Run(Step(s, op), []);
  }

  /** Exact, for every accepted submission: whatever calls follow, the proof is minted only after two attest
      calls of different verifiers if and only if the submitted record needs two calls; a sound one does exactly when
      it is submitted without attestations. */
  lemma MintNeedsCallsExactly(s: State, p: CapacityProof)
    requires Inv(s) && Unwrapped(s) && Acceptable(s, p) && p.difficulty >= 10 && !NullifierUsed(s, p.nullifier)
    ensures
      var s' := Submit(s, p).0;
      (forall ops :: MintedIn(Run(s', ops), p.proofId) ==> TwoAttestCalls(ops, p.proofId))
      <==> NeedsTwoCalls(p)
    ensures Sound(DoSubmit(p)) ==> (NeedsTwoCalls(p) <==> p.attestations == [])
  {
    hide Run, TwoAttestCalls, SumOver, NullifiersMatch, CountersAgree, SupplyHeld, NetworkAdjustment;
    var s' := Submit(s, p).0;
    if NeedsTwoCalls(p) {
      forall ops | MintedIn(Run(s', ops), p.proofId) ensures TwoAttestCalls(ops, p.proofId) {
        GuardedNeedsTwo(s', ops, p.proofId);
      }
    } else {
      PayoutFloor(s, p.proofId);
      var ops := MintsEarly(s', p.proofId);
    }
  }

  lemma GuardedNeedsTwo(s: State, ops: seq<Op>, id: Hash)
    requires id in s.proofs && NeedsTwoCalls(s.proofs[id]) && s.config.minVerifiers == 2 && MintedIn(Run(s, ops), id)
    ensures TwoAttestCalls(ops, id)
  {
    hide Run, TwoAttestCalls;
    var p := s.proofs[id];
    if p.status == Rejected || p.attestationCount >= MAX_VERIFIERS {
      StuckNeverMints(s, ops, id);
    } else {
      PendingNeedsTwo(s, ops, id);
    }
  }

  // ---- The objects ----

  class MonetaryPolicyEngine {
    var config: Config

    constructor ()
      ensures config == DEFAULT_CONFIG
    {
      config := DEFAULT_CONFIG;
    }

    method RecordMint(p: CapacityProof, amount: Uint64)
      modifies this
      ensures config == MonetaryPolicy.RecordMint(old(config), p, amount)
    {
      config := config.(provenCapacity := Wrap64(config.provenCapacity + p.difficulty));
      config := config.(tokensMinted := Wrap64(config.tokensMinted + amount));
    }

    method CheckEpochRollover(now: int)
      modifies this
      ensures config == EpochRollover(old(config), now)
    {
      if now >= config.lastEpochTimestamp + SECONDS_PER_EPOCH {
        config := config.(currentEpoch := Wrap64(config.currentEpoch + 1));
        config := config.(lastEpochTimestamp := now);
      }
    }
  }

  class ZKSeigniorageManager {
    const engine: MonetaryPolicyEngine
    var proofs: map<Hash, CapacityProof>
    var nullifiers: map<Hash, Nullifier>
    var stats: Stats

    ghost function View(): State
      reads this, engine
    {
      State(engine.config, proofs, nullifiers, stats)
    }

    constructor (engine: MonetaryPolicyEngine)
      ensures this.engine == engine
      ensures engine.config == DEFAULT_CONFIG ==> View() == INITIAL
    {
      this.engine := engine;
      proofs, nullifiers, stats := map[], map[], Stats(0, 0, 0, 0, 0, 1);
    }

    method SubmitCapacityProof(p: CapacityProof) returns (accepted: bool)
      modifies this
      ensures (View(), accepted) == Submit(old(View()), p)
    {
      if p.proofId in proofs {
        return false;
      }
      if p.difficulty == 0 || p.difficulty > 10000 {
        return false;
      }
      if |p.circuit| == 0 || |p.circuit| > 64 {
        return false;
      }
      proofs := proofs[p.proofId := p];
      stats := stats.(submitted := Wrap64(stats.submitted + 1));
      return true;
    }

    method AttestCapacityProof(id: Hash, verifier: string, attestationHash: Hash, now: int) returns (accepted: bool)
      modifies this
      ensures (View(), accepted) == Attest(old(View()), id, verifier, attestationHash, now)
    {
      if id !in proofs {
        return false;
      }
      var p := proofs[id];
      if p.status != Pending {
        return false;
      }
      if p.attestationCount >= MAX_VERIFIERS {
        return false;
      }
      var i := 0;
      while i < |p.attestations|
        invariant 0 <= i <= |p.attestations|
        invariant forall j :: 0 <= j < i ==> p.attestations[j].verifier != verifier
      {
        if p.attestations[i].verifier == verifier {
          return false;
        }
        i := i + 1;
      }
      p := p.(attestations := p.attestations + [Attestation(verifier, attestationHash, now, true)]);
      p := p.(attestationCount := |p.attestations| % 256);
      if p.attestationCount >= engine.config.minVerifiers {
        p := p.(status := Verified);
        stats := stats.(verified := Wrap64(stats.verified + 1));
      }
      proofs := proofs[id := p];
      return true;
    }

    method MintFromCapacityProof(id: Hash, now: int) returns (amount: Uint64)
      modifies this, engine
      ensures (View(), amount) == Mint(old(View()), id, now)
    {
      hide MintAmount, Wrap64;
      if id !in proofs {
        return 0;
      }
      var p := proofs[id];
      if p.status != Verified {
        return 0;
      }
      if p.mintAmount > 0 {
        return 0;
      }
      if p.nullifier in nullifiers && nullifiers[p.nullifier].used {
        return 0;
      }
      amount := MintAmount(engine.config, p);
      if amount == 0 {
        return 0;
      }
      nullifiers := nullifiers[p.nullifier := Nullifier(p.proofId, p.nullifier, true, now)];
      p := p.(mintAmount := amount, mintedAt := now);
      proofs := proofs[id := p];
      engine.RecordMint(p, amount);
      stats := stats.(minted := Wrap64(stats.minted + 1));
      stats := stats.(tokensMinted := Wrap64(stats.tokensMinted + amount));
      stats := stats.(provenCapacity := Wrap64(stats.provenCapacity + p.difficulty));
      stats := stats.(currentEpoch := engine.config.currentEpoch);
    }
  }
}
