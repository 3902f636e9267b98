/** The profit loop: a job state machine gating an escrow state machine through settlement and consensus. */
module ProfitLoop {
  import opened Wrappers
  import opened Jobs
  import Escrow
  import Payments

  datatype Loop = Loop(jobs: Board, accounts: Escrow.Accounts, settlements: Payments.Settlements)

  const EMPTY_LOOP: Loop := Loop(map[], map[], map[])

  // ---- Steps ----

  function DepositEscrow(l: Loop, id: string, buyer: string, amount: real, created: real, paid: real): Loop {
    if id !in l.jobs then l
    else l.(accounts := Escrow.Deposit(l.accounts, id, buyer, l.jobs[id].builder, amount, "stripe", created, paid))
  }

  function ClaimAndBuild(l: Loop, id: string, builder: string, path: string, hash: string, now: real): Loop {
    if !InStatus(l.jobs, id, Open) then l
    else l.(jobs := SubmitArtifact(Claim(l.jobs, id, builder), id, path, hash, now))
  }

  /** The settlement is recorded and confirmed whatever the receipt checks and the job status say. */
  function SettlePayment(l: Loop, id: string, processor: string, txId: string, amount: real, now: real): Loop {
    var receipt := ReceiptFor(id, processor, txId, amount);
    var recorded := Payments.Record(l.settlements, id, receipt.receiptId, amount, "buyer", "escrow", processor);
    l.(settlements := Payments.Confirm(recorded, Payments.Key(id), now), jobs := SubmitReceipt(l.jobs, id, receipt))
  }

  function ReceiptFor(id: string, processor: string, txId: string, amount: real): Receipt {
    Receipt("rcpt-" + id, processor, txId, amount, Payments.ReceiptValid(processor, txId, amount))
  }

  /** The evidence a release carries. */
  function Evidence(l: Loop, id: string, now: real): Escrow.Movement
    requires id in l.jobs
  {
    var j := l.jobs[id];
    Escrow.ReleaseReceipt(id, j.artifactHash, j.testPassed == Some(true), j.approvedAt.Some?,
                          Payments.IsSettled(l.settlements, id), true, now)
  }

  predicate Releasable(l: Loop, id: string) {
    InStatus(l.jobs, id, Finalized) && Escrow.IsHeld(l.accounts, Escrow.Key(id))
  }

  function ReleaseAndDistribute(l: Loop, id: string, noted: real, released: real): Loop {
    if !Releasable(l, id) then l
    else l.(accounts := Escrow.Release(l.accounts, Escrow.Key(id), Evidence(l, id, noted), released))
  }

  datatype Op =
    | DoPost(id: string, spec: JobSpec, now: real)
    | DoDeposit(id: string, buyer: string, amount: real, created: real, paid: real)
    | DoBuild(id: string, builder: string, path: string, hash: string, now: real)
    | DoTests(id: string, passed: bool)
    | DoApprove(id: string, now: real)
    | DoSettle(id: string, processor: string, txId: string, amount: real, now: real)
    | DoVotes(id: string, votes: seq<Vote>, now: real)
    | DoRelease(id: string, noted: real, released: real)
    | DoRefund(key: string, reason: string, now: real)
    | DoFreeze(key: string)

  function Step(l: Loop, op: Op): Loop {
    match op
    case DoPost(id, spec, now) => l.(jobs := l.jobs[id := NewJob(id, spec, now)])
    case DoDeposit(id, buyer, amount, created, paid) => DepositEscrow(l, id, buyer, amount, created, paid)
    case DoBuild(id, builder, path, hash, now) => ClaimAndBuild(l, id, builder, path, hash, now)
    case DoTests(id, passed) => l.(jobs := SubmitTests(l.jobs, id, passed))
    case DoApprove(id, now) => l.(jobs := Approve(l.jobs, id, now))
    case DoSettle(id, processor, txId, amount, now) => SettlePayment(l, id, processor, txId, amount, now)
    case DoVotes(id, votes, now) => l.(jobs := CastVotes(l.jobs, id, votes, now))
    case DoRelease(id, noted, released) => ReleaseAndDistribute(l, id, noted, released)
    case DoRefund(key, reason, now) => l.(accounts := Escrow.Refund(l.accounts, key, reason, now))
    case DoFreeze(key) => l.(accounts := Escrow.Freeze(l.accounts, key))
  }

  /** Generated job ids are fresh. */
  predicate Enabled(l: Loop, op: Op) { op.DoPost? ==> op.id !in l.jobs }

  predicate ValidRun(l: Loop, ops: seq<Op>)
    decreases |ops|
  {
    ops == [] || (Enabled(l, ops[0]) && ValidRun(Step(l, ops[0]), ops[1..]))
  }

  function Run(l: Loop, ops: seq<Op>): Loop
    decreases |ops|
  {
    if ops == [] then l else Run(Step(l, ops[0]), ops[1..])
  }

  // ---- The invariant ----

  ghost predicate SettledWhenPaid(l: Loop) {
    forall id :: id in l.jobs && l.jobs[id].status in {Paid, Finalized} ==> Payments.IsSettled(l.settlements, id)
  }

  /** The single release of a released account: complete evidence for a finalized job. */
  ghost predicate FullEvidence(jobs: Board, a: Escrow.Account) {
    InStatus(jobs, a.jobId, Finalized) && |a.releases| == 1 && a.releases[0].ReleaseReceipt?
    && var r := a.releases[0];
    r.jobId == a.jobId && r.artifactHash == jobs[a.jobId].artifactHash
    && r.testPassed && r.buyerApproved && r.settlementConfirmed && r.validatorConsensus
  }

  ghost predicate AccountGood(jobs: Board, key: string, a: Escrow.Account) {
    key == Escrow.Key(a.jobId)
    && (a.state in {Escrow.Held, Escrow.Frozen} ==> a.releases == [])
    && (a.state == Escrow.Refunded ==> |a.releases| == 1 && a.releases[0].RefundNote?)
    && (a.state == Escrow.Released ==> FullEvidence(jobs, a))
  }

  ghost predicate AccountsGood(l: Loop) { forall key :: key in l.accounts ==> AccountGood(l.jobs, key, l.accounts[key]) }

  ghost predicate Inv(l: Loop) { AllEvident(l.jobs) && SettledWhenPaid(l) && AccountsGood(l) }

  /** Finalized jobs are never touched again. */
  ghost predicate FinalKept(jobs: Board, jobs': Board) {
    forall id :: InStatus(jobs, id, Finalized) ==> id in jobs' && jobs'[id] == jobs[id]
  }

  lemma FinalKeepsAccounts(l: Loop, l': Loop)
    requires AccountsGood(l) && l'.accounts == l.accounts && FinalKept(l.jobs, l'.jobs)
    ensures AccountsGood(l')
  {
    forall key | key in l'.accounts ensures AccountGood(l'.jobs, key, l'.accounts[key]) {
      assert AccountGood(l.jobs, key, l.accounts[key]);
    }
  }

  /** Storing a job that is not yet paid, in place of one that is not final. */
  lemma UnpaidKeeps(l: Loop, l': Loop, id: string, j: Job)
    requires Inv(l) && l' == l.(jobs := l.jobs[id := j]) && Evident(j) && j.status !in {Paid, Finalized}
    requires id in l.jobs ==> l.jobs[id].status !in {Paid, Finalized}
    ensures Inv(l')
  {
    hide Evident;
    FinalKeepsAccounts(l, l');
  }

  lemma JobStepKeeps(l: Loop, op: Op)
    requires Inv(l) && Enabled(l, op) && (op.DoPost? || op.DoBuild? || op.DoTests? || op.DoApprove?)
    ensures Inv(Step(l, op))
  {
    hide Inv, Consensus, NoConsensusBefore;
    var l' := Step(l, op);
    if op.DoPost? {
      NewJobEvident(op.id, op.spec, op.now);
      UnpaidKeeps(l, l', op.id, l'.jobs[op.id]);
    } else if l' != l {
      JobEvident(l, op.id);
      UnpaidKeeps(l, l', op.id, l'.jobs[op.id]);
    }
  }

  lemma JobEvident(l: Loop, id: string)
    requires Inv(l) && id in l.jobs
    ensures Evident(l.jobs[id])
  {
  }

  lemma NewJobEvident(id: string, spec: JobSpec, now: real)
    ensures Evident(NewJob(id, spec, now))
  {
  }

  lemma VotesKeep(l: Loop, id: string, votes: seq<Vote>, now: real)
    requires AllEvident(l.jobs) && SettledWhenPaid(l)
    ensures
      var l' := l.(jobs := CastVotes(l.jobs, id, votes, now));
      AllEvident(l'.jobs) && SettledWhenPaid(l') && FinalKept(l.jobs, l'.jobs)
  {
    hide CastVotes, Evident;
    CastVotesKeeps(l.jobs, id, votes, now);
    var jobs' := CastVotes(l.jobs, id, votes, now);
    forall x | x in jobs' && jobs'[x].status in {Paid, Finalized} ensures Payments.IsSettled(l.settlements, x) {
      if x != id { assert jobs'[x] == l.jobs[x]; }
    }
  }

  lemma VoteStepKeeps(l: Loop, id: string, votes: seq<Vote>, now: real)
    requires Inv(l)
    ensures Inv(l.(jobs := CastVotes(l.jobs, id, votes, now)))
  {
    hide CastVotes, AllEvident, SettledWhenPaid, AccountsGood, FinalKept;
    VotesKeep(l, id, votes, now);
    FinalKeepsAccounts(l, l.(jobs := CastVotes(l.jobs, id, votes, now)));
  }

  lemma SettleKeeps(l: Loop, id: string, processor: string, txId: string, amount: real, now: real)
    requires Inv(l)
    ensures Inv(SettlePayment(l, id, processor, txId, amount, now))
  {
    hide Consensus;
    var l' := SettlePayment(l, id, processor, txId, amount, now);
    forall x | Payments.IsSettled(l.settlements, x) || x == id ensures Payments.IsSettled(l'.settlements, x) {
      if Payments.Key(x) == Payments.Key(id) { Payments.KeyInjective(x, id); }
    }
    forall x | x in l'.jobs && l'.jobs[x].status in {Paid, Finalized} ensures Payments.IsSettled(l'.settlements, x) {
      if x != id { assert l'.jobs[x] == l.jobs[x]; }
    }
    ReceiptEvident(l.jobs, id, ReceiptFor(id, processor, txId, amount));
    FinalKeepsAccounts(l, l');
  }

  lemma ReceiptEvident(b: Board, id: string, r: Receipt)
    requires AllEvident(b)
    ensures AllEvident(SubmitReceipt(b, id, r)) && FinalKept(b, SubmitReceipt(b, id, r))
  {
    if InStatus(b, id, Approved) {
      assert Evident(b[id]);
    }
  }

  lemma EscrowStepKeeps(l: Loop, op: Op)
    requires Inv(l) && (op.DoDeposit? || op.DoRelease? || op.DoRefund? || op.DoFreeze?)
    ensures Inv(Step(l, op))
  {
    hide AllEvident;
    var l' := Step(l, op);
    forall key | key in l'.accounts ensures AccountGood(l'.jobs, key, l'.accounts[key]) {
      EscrowStepGood(l, op, key);
    }
  }

  lemma EscrowStepGood(l: Loop, op: Op, key: string)
    requires Inv(l) && (op.DoDeposit? || op.DoRelease? || op.DoRefund? || op.DoFreeze?) && key in Step(l, op).accounts
    ensures AccountGood(l.jobs, key, Step(l, op).accounts[key])
  {
    hide Consensus, NoConsensusBefore, CastVotes;
    if key in l.accounts { assert AccountGood(l.jobs, key, l.accounts[key]); }
    if op.DoRelease? && Releasable(l, op.id) && key == Escrow.Key(op.id) {
      Escrow.KeyInjective(l.accounts[key].jobId, op.id);
      assert Evident(l.jobs[op.id]);
    }
  }

  lemma StepKeeps(l: Loop, op: Op)
    requires Inv(l) && Enabled(l, op)
    ensures Inv(Step(l, op))
  {
    hide Inv;
    match op
    case DoSettle(id, processor, txId, amount, now) => SettleKeeps(l, id, processor, txId, amount, now);
    case DoDeposit(_, _, _, _, _) => EscrowStepKeeps(l, op);
    case DoRelease(_, _, _) => EscrowStepKeeps(l, op);
    case DoRefund(_, _, _) => EscrowStepKeeps(l, op);
    case DoFreeze(_) => EscrowStepKeeps(l, op);
    case DoVotes(id, votes, now) => VoteStepKeeps(l, id, votes, now);
    case _ => JobStepKeeps(l, op);
  }

  lemma {:induction false} RunKeeps(l: Loop, ops: seq<Op>)
    requires Inv(l) && ValidRun(l, ops)
    ensures Inv(Run(l, ops))
    decreases |ops|
  {
    hide Inv, Step, Enabled;
    if ops != [] {
      StepKeeps(l, ops[0]);
      RunKeeps(Step(l, ops[0]), ops[1..]);
    }
  }

  // ---- Main results ----

  /** In every run, a released account carries exactly one release, with tests passed, buyer approval and settlement
      all true, for a job finalized at the first vote prefix of at least three votes with two thirds valid. */
  lemma ReleaseEvidence(ops: seq<Op>, key: string)
    requires ValidRun(EMPTY_LOOP, ops) && key in Run(EMPTY_LOOP, ops).accounts
    requires Run(EMPTY_LOOP, ops).accounts[key].state == Escrow.Released
    ensures
      var l := Run(EMPTY_LOOP, ops);
      var a := l.accounts[key];
      FullEvidence(l.jobs, a) && Consensus(l.jobs[a.jobId].votes)
      && forall k :: 0 <= k < |l.jobs[a.jobId].votes| ==> !Consensus(l.jobs[a.jobId].votes[..k])
  {
    RunKeeps(EMPTY_LOOP, ops);
    var l := Run(EMPTY_LOOP, ops);
    assert AccountGood(l.jobs, key, l.accounts[key]);
    assert Evident(l.jobs[l.accounts[key].jobId]);
  }

  /** Every release that happens in a run carries complete evidence at the moment it happens. */
  lemma ReleasesAreEvidenced(ops: seq<Op>, id: string, now: real)
    requires ValidRun(EMPTY_LOOP, ops) && Releasable(Run(EMPTY_LOOP, ops), id)
    ensures Evidence(Run(EMPTY_LOOP, ops), id, now)
      == Escrow.ReleaseReceipt(id, Run(EMPTY_LOOP, ops).jobs[id].artifactHash, true, true, true, true, now)
  {
    RunKeeps(EMPTY_LOOP, ops);
    assert Evident(Run(EMPTY_LOOP, ops).jobs[id]);
  }

  function HeldFor(l: Loop, id: string): nat { if Escrow.IsHeld(l.accounts, Escrow.Key(id)) then 1 else 0 }

  function Deposits(l: Loop, ops: seq<Op>, id: string): nat
    decreases |ops|
  {
    if ops == [] then 0
    else (if ops[0].DoDeposit? && ops[0].id == id && id in l.jobs then 1 else 0) + Deposits(Step(l, ops[0]), ops[1..], id)
  }

  function Releases(l: Loop, ops: seq<Op>, id: string): nat
    decreases |ops|
  {
    if ops == [] then 0
    else (if ops[0].DoRelease? && ops[0].id == id && Releasable(l, id) then 1 else 0) + Releases(Step(l, ops[0]), ops[1..], id)
  }

  lemma StepBalances(l: Loop, op: Op, id: string)
    ensures (if op.DoRelease? && op.id == id && Releasable(l, id) then 1 else 0) + HeldFor(Step(l, op), id)
      <= (if op.DoDeposit? && op.id == id && id in l.jobs then 1 else 0) + HeldFor(l, id)
  {
    if (op.DoDeposit? || op.DoRelease?) && Escrow.Key(op.id) == Escrow.Key(id) {
      Escrow.KeyInjective(op.id, id);
    }
  }

  /** Each deposit is released at most once: a job never sees more releases than deposits. */
  lemma {:induction false} NoDoubleRelease(l: Loop, ops: seq<Op>, id: string)
    ensures Releases(l, ops, id) + HeldFor(Run(l, ops), id) <= Deposits(l, ops, id) + HeldFor(l, id)
    decreases |ops|
  {
    hide Step, Releasable, HeldFor;
    if ops != [] {
      StepBalances(l, ops[0], id);
      NoDoubleRelease(Step(l, ops[0]), ops[1..], id);
    }
  }

  /** The clock readings of one run of the loop; each vote carries its own. */
  datatype LoopClock = LoopClock(
    posted: real, created: real, deposited: real, delivered: real, approved: real, confirmed: real, finalized: real,
    noted: real, released: real)

  /** Steps 1 to 4 of run_full_loop on a new job: post, deposit, build, test results. */
  function Delivery(l: Loop, id: string, spec: JobSpec, builder: string, path: string, hash: string, passed: bool,
                    t: LoopClock): Loop {
    var l1 := Step(l, DoPost(id, spec, t.posted));
    var l2 := Step(l1, DoDeposit(id, spec.buyer, spec.budget, t.created, t.deposited));
    var l3 := Step(l2, DoBuild(id, builder, path, hash, t.delivered));
    Step(l3, DoTests(id, passed))
  }

  /** Steps 5 to 8: approval, payment, votes, release. */
  function Completion(l: Loop, id: string, budget: real, txId: string, votes: seq<Vote>, t: LoopClock): Loop {
    var l1 := Step(l, DoApprove(id, t.approved));
    var l2 := Step(l1, DoSettle(id, "stripe", txId, budget, t.confirmed));
    var l3 := Step(l2, DoVotes(id, votes, t.finalized));
    Step(l3, DoRelease(id, t.noted, t.released))
  }

  lemma DeliveryState(l: Loop, id: string, spec: JobSpec, builder: string, path: string, hash: string, passed: bool,
                      t: LoopClock)
    ensures
      var l' := Delivery(l, id, spec, builder, path, hash, passed, t);
      id in l'.jobs && l'.jobs[id].status == (if passed then Tested else Delivered) && l'.jobs[id].votes == []
      && Escrow.IsHeld(l'.accounts, Escrow.Key(id)) && l'.accounts[Escrow.Key(id)].amount == spec.budget
  {
  }

  lemma CompletionReleases(l: Loop, id: string, budget: real, txId: string, votes: seq<Vote>, t: LoopClock)
    requires id in l.jobs && l.jobs[id].status in {Tested, Delivered} && l.jobs[id].votes == []
    requires Escrow.IsHeld(l.accounts, Escrow.Key(id))
    ensures
      var l' := Completion(l, id, budget, txId, votes, t);
      Escrow.Key(id) in l'.accounts && l'.accounts[Escrow.Key(id)].amount == l.accounts[Escrow.Key(id)].amount
      && l'.accounts[Escrow.Key(id)].state
           == if l.jobs[id].status == Tested && Agreed(votes) then Escrow.Released else Escrow.Held
  {
    hide CastVotes, Agreed, Escrow.Key, Payments.Record, Payments.Confirm, Payments.ReceiptValid;
    var l1 := Step(l, DoApprove(id, t.approved));
    var l2 := Step(l1, DoSettle(id, "stripe", txId, budget, t.confirmed));
    if l.jobs[id].status == Tested {
      VotesFinalizeExactly(l2.jobs, id, votes, t.finalized);
    } else {
      IgnoredVotes(l2.jobs, id, votes, t.finalized);
    }
  }

  /** The loop of run_full_loop releases the budget exactly when the tests passed and some prefix of the votes reaches
      consensus; otherwise the budget stays held. */
  lemma FullLoopReleasesExactly(l: Loop, id: string, spec: JobSpec, builder: string, path: string, hash: string,
                                passed: bool, txId: string, votes: seq<Vote>, t: LoopClock)
    ensures
      var delivered := Delivery(l, id, spec, builder, path, hash, passed, t);
      var l' := Completion(delivered, id, spec.budget, txId, votes, t);
      Escrow.Key(id) in l'.accounts && l'.accounts[Escrow.Key(id)].amount == spec.budget
      && l'.accounts[Escrow.Key(id)].state == if passed && Agreed(votes) then Escrow.Released else Escrow.Held
  {
    hide Delivery, Completion;
    DeliveryState(l, id, spec, builder, path, hash, passed, t);
    CompletionReleases(Delivery(l, id, spec, builder, path, hash, passed, t), id, spec.budget, txId, votes, t);
  }

  lemma {:induction false} IgnoredVotes(b: Board, id: string, votes: seq<Vote>, now: real)
    requires !InStatus(b, id, Paid)
    ensures CastVotes(b, id, votes, now) == b
    decreases |votes|
  {
    if votes != [] {
      IgnoredVotes(b, id, votes[..|votes| - 1], now);
    }
  }

  // ---- What the loop leaves behind ----

  /** Steps 1 to 4 on a new job leave exactly this job and account. */
  lemma DeliveredRecord(l: Loop, id: string, spec: JobSpec, builder: string, path: string, hash: string, passed: bool, t: LoopClock)
    ensures
      var l' := Delivery(l, id, spec, builder, path, hash, passed, t);
      l'.settlements == l.settlements
      && l'.jobs == l.jobs[id := Job(id, spec, Some(builder), Some(path), Some(hash), Some(passed), None,
                                     if passed then Tested else Delivered, t.posted, Some(t.delivered), None, None, [])]
      && l'.accounts == l.accounts["esc-" + id := Escrow.Account(id, spec.buyer, None, spec.budget, Escrow.Held,
           [Escrow.Payment(spec.budget, "stripe", t.deposited, "confirmed")], [], t.created, None)]
  {
  }

  /** Steps 5 and 6 on a job that passed leave it paid, with this receipt and settlement. */
  lemma SettledRecord(l: Loop, id: string, txId: string, amount: real, approved: real, confirmed: real)
    requires InStatus(l.jobs, id, Tested)
    ensures
      var l' := Step(Step(l, DoApprove(id, approved)), DoSettle(id, "stripe", txId, amount, confirmed));
      var valid := amount > 0.0 && txId != "";
      l'.accounts == l.accounts
      && l'.jobs == l.jobs[id := l.jobs[id].(status := Paid, approvedAt := Some(approved),
                                             receipt := Some(Receipt("rcpt-" + id, "stripe", txId, amount, valid)))]
      && l'.settlements == l.settlements["set-" + id := Payments.SettlementRecord(id, "rcpt-" + id, amount, "buyer", "escrow",
           "stripe", Payments.Settled, Some(confirmed))]
  {
  }

  /** A release happens exactly for a finalized job with a held account; it stamps account and receipt with their own
      times and touches nothing else. */
  lemma ReleaseExactly(l: Loop, id: string, noted: real, released: real)
    ensures
      var (l', key, settlement) := (Step(l, DoRelease(id, noted, released)), "esc-" + id, "set-" + id);
      if id in l.jobs && l.jobs[id].status == Finalized && key in l.accounts && l.accounts[key].state == Escrow.Held then
        l'.jobs == l.jobs && l'.settlements == l.settlements && l'.accounts.Keys == l.accounts.Keys
        && (forall k :: k in l.accounts && k != key ==> l'.accounts[k] == l.accounts[k])
        && var (a, j) := (l.accounts[key], l.jobs[id]);
        var settled := settlement in l.settlements && l.settlements[settlement].status == Payments.Settled;
        l'.accounts[key] == a.(state := Escrow.Released, releasedAt := Some(released),
          releases := a.releases + [Escrow.ReleaseReceipt(id, j.artifactHash, j.testPassed == Some(true), j.approvedAt.Some?,
                                                          settled, true, noted)])
      else l' == l
  {
  }

  /** Claiming and delivering in one call works exactly for an open job; a job already claimed is not delivered by it. */
  lemma BuildExactly(l: Loop, id: string, builder: string, path: string, hash: string, now: real)
    ensures
      var l' := Step(l, DoBuild(id, builder, path, hash, now));
      if id in l.jobs && l.jobs[id].status == Open then
        l' == l.(jobs := l.jobs[id := l.jobs[id].(builder := Some(builder), artifactPath := Some(path), artifactHash := Some(hash),
                                                  status := Delivered, deliveredAt := Some(now))])
      else l' == l
  {
  }

  /** Deposits and settlements for unknown jobs: the deposit does nothing, the settlement is recorded all the same. */
  lemma UnknownJobCalls(l: Loop, id: string, buyer: string, amount: real, created: real, paid: real, processor: string,
                        txId: string, now: real)
    requires id !in l.jobs
    ensures Step(l, DoDeposit(id, buyer, amount, created, paid)) == l
    ensures
      var l' := Step(l, DoSettle(id, processor, txId, amount, now));
      l'.jobs == l.jobs && l'.accounts == l.accounts && Payments.IsSettled(l'.settlements, id)
  {
  }

  // ---- Conservation of funds ----

  /** What a call, or a run, moves: paid in, released, refunded, and overwritten by a deposit for the same job. */
  datatype Flows = Flows(deposited: real, released: real, refunded: real, replaced: real)

  const NO_FLOW: Flows := Flows(0.0, 0.0, 0.0, 0.0)

  function FlowOf(l: Loop, op: Op): Flows {
    match op
    case DoDeposit(id, _, amount, _, _) =>
      if id in l.jobs then NO_FLOW.(deposited := amount, replaced := Escrow.CustodyAt(l.accounts, Escrow.Key(id))) else NO_FLOW
    case DoRelease(id, _, _) =>
      if Releasable(l, id) then NO_FLOW.(released := Escrow.HeldAt(l.accounts, Escrow.Key(id))) else NO_FLOW
    case DoRefund(key, _, _) => NO_FLOW.(refunded := Escrow.HeldAt(l.accounts, key))
    case _ => NO_FLOW
  }

  function RunFlows(l: Loop, ops: seq<Op>): Flows
    decreases |ops|
  {
    if ops == [] then NO_FLOW
    else
      var (f, g) := (FlowOf(l, ops[0]), RunFlows(Step(l, ops[0]), ops[1..]));
      Flows(f.deposited + g.deposited, f.released + g.released, f.refunded + g.refunded, f.replaced + g.replaced)
  }

  lemma StepConserves(l: Loop, op: Op)
    ensures
      var f := FlowOf(l, op);
      Escrow.CustodyTotal(Step(l, op).accounts)
      == Escrow.CustodyTotal(l.accounts) + f.deposited - f.released - f.refunded - f.replaced
  {
    hide Escrow.CustodyTotal, Escrow.CustodyAmount, Escrow.Release, Escrow.Refund, Escrow.Freeze, Escrow.Deposit, CastVotes;
    match op
    case DoDeposit(id, buyer, amount, created, paid) =>
      if id in l.jobs {
        Escrow.DepositAddsExactly(l.accounts, id, buyer, l.jobs[id].builder, amount, "stripe", created, paid);
      }
    case DoRelease(id, noted, released) =>
      if Releasable(l, id) {
        Escrow.PayoutsTakeHeld(l.accounts, Escrow.Key(id), Evidence(l, id, noted), "", released);
      }
    case DoRefund(key, reason, now) =>
      Escrow.PayoutsTakeHeld(l.accounts, key, Escrow.RefundNote(reason, now), reason, now);
    case DoFreeze(key) =>
      Escrow.PayoutsTakeHeld(l.accounts, key, Escrow.RefundNote("", 0.0), "", 0.0);
    case _ =>
  }

  /** Over every run, what was paid in is still held or frozen, was released or refunded, or was overwritten. */
  lemma {:induction false} FundsConserved(l: Loop, ops: seq<Op>)
    ensures
      var f := RunFlows(l, ops);
      Escrow.CustodyTotal(l.accounts) + f.deposited
      == Escrow.CustodyTotal(Run(l, ops).accounts) + f.released + f.refunded + f.replaced
    decreases |ops|
  {
    hide Step, FlowOf, Escrow.CustodyTotal;
    if ops != [] {
      StepConserves(l, ops[0]);
      FundsConserved(Step(l, ops[0]), ops[1..]);
    }
  }

  ghost predicate NoNegativeAccount(a: Escrow.Accounts) { forall key :: key in a ==> a[key].amount >= 0.0 }

  predicate NoNegativeDeposit(op: Op) { op.DoDeposit? ==> op.amount >= 0.0 }

  /** The deposit finds nothing in custody for its job. */
  predicate FindsNothing(l: Loop, op: Op) {
    op.DoDeposit? && op.id in l.jobs ==> Escrow.CustodyAt(l.accounts, Escrow.Key(op.id)) == 0.0
  }

  predicate AllFindNothing(l: Loop, ops: seq<Op>)
    decreases |ops|
  {
    ops == [] || (FindsNothing(l, ops[0]) && AllFindNothing(Step(l, ops[0]), ops[1..]))
  }

  lemma StepReplaces(l: Loop, op: Op)
    requires NoNegativeAccount(l.accounts) && NoNegativeDeposit(op)
    ensures NoNegativeAccount(Step(l, op).accounts)
    ensures FlowOf(l, op).replaced >= 0.0 && (FlowOf(l, op).replaced == 0.0 <==> FindsNothing(l, op))
  {
    hide CastVotes;
  }

  /** Exact: with no negative deposit, no funds are lost over a run if and only if every deposit finds nothing in
      custody for its job; then the total in custody is what was paid in less what was released and refunded. */
  lemma {:induction false} NothingLostExactly(l: Loop, ops: seq<Op>)
    requires NoNegativeAccount(l.accounts) && forall i :: 0 <= i < |ops| ==> NoNegativeDeposit(ops[i])
    ensures
      var f := RunFlows(l, ops);
      f.replaced >= 0.0 && (f.replaced == 0.0 <==> AllFindNothing(l, ops))
      && (AllFindNothing(l, ops) <==>
            Escrow.CustodyTotal(Run(l, ops).accounts)
            == Escrow.CustodyTotal(l.accounts) + f.deposited - f.released - f.refunded)
    decreases |ops|
  {
    hide Step, FlowOf, FindsNothing, Escrow.CustodyTotal;
    FundsConserved(l, ops);
    if ops != [] {
      assert NoNegativeDeposit(ops[0]);
      StepReplaces(l, ops[0]);
      NothingLostExactly(Step(l, ops[0]), ops[1..]);
    }
  }

  // ---- Receipts ----

  /** The call finds the job approved, so its receipt is the one that pays it. */
  predicate Pays(l: Loop, op: Op, id: string) { op.DoSettle? && op.id == id && InStatus(l.jobs, id, Approved) }

  /** The settle_payment call of the run that pays the job. */
  function PayingCall(l: Loop, ops: seq<Op>, id: string): (r: Option<Op>)
    ensures r.Some? ==> r.value in ops && r.value.DoSettle? && r.value.id == id
    decreases |ops|
  {
    if ops == [] then None
    else if Pays(l, ops[0], id) then Some(ops[0]) else PayingCall(Step(l, ops[0]), ops[1..], id)
  }

  function ReceiptOf(l: Loop, id: string): Option<Receipt> { if id in l.jobs then l.jobs[id].receipt else None }

  function CallReceipt(op: Op): Receipt
    requires op.DoSettle?
  {
    ReceiptFor(op.id, op.processor, op.txId, op.amount)
  }

  lemma StepReceipt(l: Loop, op: Op, id: string)
    requires Inv(l) && Enabled(l, op)
    ensures ReceiptOf(Step(l, op), id) == if Pays(l, op, id) then Some(CallReceipt(op)) else ReceiptOf(l, id)
    ensures Pays(l, op, id) ==> ReceiptOf(l, id).None?
  {
    hide AccountsGood, SettledWhenPaid, Consensus, NoConsensusBefore, CastVotes;
    if id in l.jobs { assert Evident(l.jobs[id]); }
    if op.DoVotes? {
      VotesKeepReceipts(l.jobs, op.id, op.votes, op.now);
    }
  }

  lemma {:induction false} VotesKeepReceipts(b: Board, id: string, votes: seq<Vote>, now: real)
    ensures CastVotes(b, id, votes, now).Keys == b.Keys
    ensures forall x :: x in b ==> CastVotes(b, id, votes, now)[x].receipt == b[x].receipt
    decreases |votes|
  {
    hide Consensus;
    if votes != [] {
      VotesKeepReceipts(b, id, votes[..|votes| - 1], now);
    }
  }

  /** A job's receipt is that of the one call that found it approved, and is never replaced. */
  lemma {:induction false} ReceiptIsFromPayingCall(l: Loop, ops: seq<Op>, id: string)
    requires Inv(l) && ValidRun(l, ops)
    ensures
      var call := PayingCall(l, ops, id);
      ReceiptOf(Run(l, ops), id)
      == if ReceiptOf(l, id).Some? then ReceiptOf(l, id) else if call.Some? then Some(CallReceipt(call.value)) else None
    decreases |ops|
  {
    hide Inv, Step, Enabled, Pays, ReceiptOf, CallReceipt;
    if ops != [] {
      StepKeeps(l, ops[0]);
      StepReceipt(l, ops[0], id);
      ReceiptIsFromPayingCall(Step(l, ops[0]), ops[1..], id);
    }
  }

  /** Exact, over runs: a released job carries a verified receipt if and only if the settle_payment call that found
      it approved passed the receipt checks. The release does not look at it. */
  lemma ReleasedReceiptExactly(ops: seq<Op>, key: string)
    requires ValidRun(EMPTY_LOOP, ops) && key in Run(EMPTY_LOOP, ops).accounts
    requires Run(EMPTY_LOOP, ops).accounts[key].state == Escrow.Released
    ensures
      var l := Run(EMPTY_LOOP, ops);
      var id := l.accounts[key].jobId;
      var call := PayingCall(EMPTY_LOOP, ops, id);
      id in l.jobs && call.Some? && l.jobs[id].receipt == Some(CallReceipt(call.value))
      && (l.jobs[id].receipt.value.verified
          <==> Payments.ReceiptValid(call.value.processor, call.value.txId, call.value.amount))
  {
    hide Run, ValidRun, PayingCall, Consensus, NoConsensusBefore;
    RunKeeps(EMPTY_LOOP, ops);
    var l := Run(EMPTY_LOOP, ops);
    assert AccountGood(l.jobs, key, l.accounts[key]);
    var id := l.accounts[key].jobId;
    assert Evident(l.jobs[id]);
    ReceiptIsFromPayingCall(EMPTY_LOOP, ops, id);
  }

  /** A receipt that fails its checks, whichever way, still moves the job to paid and confirms the settlement. */
  lemma InvalidReceiptStillPays(l: Loop, id: string, processor: string, txId: string, amount: real, now: real)
    requires InStatus(l.jobs, id, Approved)
    ensures
      var l' := SettlePayment(l, id, processor, txId, amount, now);
      InStatus(l'.jobs, id, Paid) && Payments.IsSettled(l'.settlements, id)
      && (l'.jobs[id].receipt.value.verified <==> Payments.ReceiptValid(processor, txId, amount))
  {
  }

  // ---- Validators behind a release ----

  /** All votes that a run casts for a job, in order. */
  function VotesFor(ops: seq<Op>, id: string): seq<Vote>
    decreases |ops|
  {
    if ops == [] then []
    else (if ops[0].DoVotes? && ops[0].id == id then ops[0].votes else []) + VotesFor(ops[1..], id)
  }

  function Recorded(l: Loop, id: string): seq<Vote> { if id in l.jobs then l.jobs[id].votes else [] }

  /** A call appends a prefix of the votes it casts, or nothing. */
  lemma StepRecordsVotes(l: Loop, op: Op, id: string) returns (k: nat)
    requires Enabled(l, op)
    ensures k <= |VotesFor([op], id)| && Recorded(Step(l, op), id) == Recorded(l, id) + VotesFor([op], id)[..k]
  {
    hide Consensus, CastVotes;
    k := 0;
    assert VotesFor([op], id) == if op.DoVotes? && op.id == id then op.votes else [];
    if op.DoVotes? {
      if id != op.id {
        OthersKeepVotes(l.jobs, op.id, op.votes, op.now, id);
      } else if id in l.jobs {
        k := CastVotesRecords(l.jobs, id, op.votes, op.now);
      } else {
        IgnoredVotes(l.jobs, id, op.votes, op.now);
      }
    }
  }

  lemma {:induction false} OthersKeepVotes(b: Board, id: string, votes: seq<Vote>, now: real, other: string)
    requires other != id
    ensures other in CastVotes(b, id, votes, now) <==> other in b
    ensures other in b ==> CastVotes(b, id, votes, now)[other] == b[other]
    decreases |votes|
  {
    if votes != [] { OthersKeepVotes(b, id, votes[..|votes| - 1], now, other); }
  }

  lemma NoRepeatDrops(a: seq<Vote>, b: seq<Vote>, c: seq<Vote>, k: nat)
    requires k <= |b| && NoRepeat(a + b + c)
    ensures NoRepeat(a + b[..k] + c)
  {
    var whole, part := a + b + c, a + b[..k] + c;
    forall i, j | 0 <= i < j < |part| ensures part[i].validator != part[j].validator {
      var i' := if i < |a| + k then i else i + |b| - k;
      var j' := if j < |a| + k then j else j + |b| - k;
      assert part[i] == whole[i'] && part[j] == whole[j'];
    }
  }

  /** If no validator casts two votes for a job in the whole run, none repeats among its recorded votes. */
  lemma {:induction false} OneVoteEach(l: Loop, ops: seq<Op>, id: string)
    requires ValidRun(l, ops) && NoRepeat(Recorded(l, id) + VotesFor(ops, id))
    ensures NoRepeat(Recorded(Run(l, ops), id))
    decreases |ops|
  {
    hide Step, Enabled, Recorded, NoRepeat;
    if ops == [] {
      assert Recorded(l, id) + [] == Recorded(l, id);
    } else {
      var k := StepRecordsVotes(l, ops[0], id);
      var mine, rest := VotesFor([ops[0]], id), VotesFor(ops[1..], id);
      assert [ops[0]][1..] == [];
      assert mine + [] == mine;
      assert Recorded(l, id) + VotesFor(ops, id) == Recorded(l, id) + mine + rest;
      NoRepeatDrops(Recorded(l, id), mine, rest, k);
      OneVoteEach(Step(l, ops[0]), ops[1..], id);
    }
  }

  /** Over runs: the votes behind a release are as many as the validators behind it if and only if no validator
      repeats among them; and when no validator casts two votes for the job, at least three different validators
      voted and two thirds of them confirmed. */
  lemma ReleaseValidators(ops: seq<Op>, key: string)
    requires ValidRun(EMPTY_LOOP, ops) && key in Run(EMPTY_LOOP, ops).accounts
    requires Run(EMPTY_LOOP, ops).accounts[key].state == Escrow.Released
    ensures
      var l := Run(EMPTY_LOOP, ops);
      var id := l.accounts[key].jobId;
      id in l.jobs
      && (|Validators(l.jobs[id].votes)| == |l.jobs[id].votes| <==> NoRepeat(l.jobs[id].votes))
      && (NoRepeat(VotesFor(ops, id)) ==> NoRepeat(l.jobs[id].votes))
      && (NoRepeat(l.jobs[id].votes) ==> ValidatorConsensus(l.jobs[id].votes))
  {
    hide Run, ValidRun, Consensus, NoConsensusBefore, NoRepeat, ValidatorConsensus, Validators, Evident;
    ReleaseEvidence(ops, key);
    var l := Run(EMPTY_LOOP, ops);
    var id := l.accounts[key].jobId;
    VotesAreValidatorsExactly(l.jobs[id].votes);
    if NoRepeat(VotesFor(ops, id)) {
      assert Recorded(EMPTY_LOOP, id) + VotesFor(ops, id) == VotesFor(ops, id);
      OneVoteEach(EMPTY_LOOP, ops, id);
    }
    if NoRepeat(l.jobs[id].votes) { ConsensusOfValidators(l.jobs[id].votes); }
  }

  // ---- The object ----

  class MembraProfitLoop {
    const jobs: JobBoard
    const escrow: Escrow.EscrowManager
    const settlements: Payments.SettlementTracker

    ghost function View(): Loop
      reads this, jobs, escrow, settlements
    {
      Loop(jobs.jobs, escrow.accounts, settlements.settlements)
    }

    constructor ()
      ensures View() == EMPTY_LOOP && fresh(jobs) && fresh(escrow) && fresh(settlements)
    {
      jobs := new JobBoard();
      escrow := new Escrow.EscrowManager();
      settlements := new Payments.SettlementTracker();
    }

    method DepositFunds(id: string, buyer: string, amount: real, created: real, paid: real) returns (ok: bool)
      modifies escrow
      ensures View() == Step(old(View()), DoDeposit(id, buyer, amount, created, paid)) && ok == (id in jobs.jobs)
    {
      if id !in jobs.jobs {
        return false;
      }
      escrow.OpenDeposit(id, buyer, jobs.jobs[id].builder, amount, "stripe", created, paid);
      return true;
    }

    method Build(id: string, builder: string, path: string, hash: string, now: real) returns (ok: bool)
      modifies jobs
      ensures View() == Step(old(View()), DoBuild(id, builder, path, hash, now)) && ok == old(InStatus(jobs.jobs, id, Open))
    {
      ok := jobs.ClaimJob(id, builder);
      if ok {
        jobs.DeliverArtifact(id, path, hash, now);
      }
    }

    method Settle(id: string, processor: string, txId: string, amount: real, now: real) returns (verified: bool)
      modifies jobs, settlements
      ensures View() == Step(old(View()), DoSettle(id, processor, txId, amount, now))
      ensures verified == Payments.ReceiptValid(processor, txId, amount)
    {
      var receiptId := "rcpt-" + id;
      verified := Payments.ReceiptValid(processor, txId, amount);
      var key := settlements.RecordSettlement(id, receiptId, amount, "buyer", "escrow", processor);
      var _ := settlements.ConfirmSettlement(key, now);
      jobs.SubmitPaymentReceipt(id, Receipt(receiptId, processor, txId, amount, verified));
    }

    method CollectVotes(id: string, votes: seq<Vote>, now: real)
      modifies jobs
      ensures View() == Step(old(View()), DoVotes(id, votes, now))
    {
      var k := 0;
      while k < |votes|
        invariant 0 <= k <= |votes|
        invariant jobs.jobs == CastVotes(old(jobs.jobs), id, votes[..k], now)
      {
        assert votes[..k + 1][..k] == votes[..k];
        jobs.ValidatorVote(id, votes[k], now);
        k := k + 1;
      }
      assert votes[..k] == votes;
    }

    method Release(id: string, noted: real, releasedAt: real) returns (released: bool, d: Escrow.Distribution)
      modifies escrow
      ensures View() == Step(old(View()), DoRelease(id, noted, releasedAt)) && released == old(Releasable(View(), id))
      ensures released ==> d == Escrow.Distribute(old(escrow.accounts)[Escrow.Key(id)].amount)
    {
      d := Escrow.Distribution(0, 0, 0, 0, 0, 0);
      if id !in jobs.jobs || jobs.jobs[id].status != Finalized {
        return false, d;
      }
      var key := "esc-" + id;
      if key !in escrow.accounts {
        return false, d;
      }
      var j := jobs.jobs[id];
      var settled := Payments.IsSettled(settlements.settlements, id);
      var receipt := Escrow.ReleaseReceipt(id, j.artifactHash, if j.testPassed.Some? then j.testPassed.value else false,
                                           j.approvedAt.Some?, settled, true, noted);
      released, d := escrow.ReleaseFunds(key, receipt, releasedAt);
    }
  }
}
