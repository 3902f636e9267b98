/** The whole settlement protocol: vault calls, intent calls and relays interleaved over one shared log. */
module Settlement {
  import opened ProofBook
  import Sums
  import GasVault
  import VaultRuns
  import IntentNetwork
  import opened Relayer

  /** Vault, log and network are shared; each relayer, known by its address, has its own counters. */
  datatype Protocol = Protocol(sys: GasVault.Sys, net: IntentNetwork.Network, counters: map<string, Counters>)

  function CountersOf(s: Protocol, address: string): Counters {
    if address in s.counters then s.counters[address] else Counters(0, 0, 0)
  }

  /** What one relayer works on. */
  function Seen(s: Protocol, address: string): RelayState { RelayState(s.sys, s.net, CountersOf(s, address)) }

  datatype Op =
    | VaultOp(vop: VaultRuns.Op)
    | IntentOp(iop: IntentNetwork.Op)
    | RelayOp(cfg: RelayerConfig, intent: IntentNetwork.PaymentIntent, maxTransfer: real, tx: string, rid: string, t: RelayClock)

  ghost function Step(s: Protocol, op: Op): Protocol {
    match op
    case VaultOp(vop) => s.(sys := VaultRuns.Step(s.sys, vop))
    case IntentOp(iop) =>
      var (net, book) := IntentNetwork.Step(s.net, s.sys.book, iop);
      s.(net := net, sys := s.sys.(book := book))
    case RelayOp(cfg, i, maxTransfer, tx, rid, t) =>
      var s' := Relay(Seen(s, cfg.address), cfg, i, maxTransfer, tx, rid, t).0;
      Protocol(s'.sys, s'.net, s.counters[cfg.address := s'.counters])
  }

  ghost predicate Enabled(s: Protocol, op: Op) {
    match op
    case VaultOp(vop) => VaultRuns.Enabled(s.sys, vop)
    case IntentOp(iop) => IntentNetwork.Enabled(s.net, iop)
    case RelayOp(_, _, _, _, _, _) => true
  }

  ghost predicate ValidRun(s: Protocol, ops: seq<Op>)
    decreases |ops|
  {
    ops == [] || (Enabled(s, ops[0]) && ValidRun(Step(s, ops[0]), ops[1..]))
  }

  ghost function Run(s: Protocol, ops: seq<Op>): Protocol
    decreases |ops|
  {
    if ops == [] then s else Run(Step(s, ops[0]), ops[1..])
  }

  function Start(initial: int): Protocol {
    Protocol(VaultRuns.NewVault(initial, EMPTY_BOOK), IntentNetwork.EMPTY_NETWORK, map[])
  }

  // ---- Every protocol step is a run of vault calls and log entries ----

  ghost function IntentEntries(s: Protocol, iop: IntentNetwork.Op): seq<VaultRuns.Op> {
    var book := IntentNetwork.Step(s.net, s.sys.book, iop).1;
    if book == s.sys.book then []
    else
      var e := book.entries[|book.entries| - 1];
      [VaultRuns.DoLog(e.proofType, e.data, e.timestamp)]
  }

  ghost function VaultCalls(s: Protocol, op: Op): seq<VaultRuns.Op> {
    match op
    case VaultOp(vop) => [vop]
    case IntentOp(iop) => IntentEntries(s, iop)
    case RelayOp(cfg, i, maxTransfer, tx, rid, t) =>
      var (s', r) := Relay(Seen(s, cfg.address), cfg, i, maxTransfer, tx, rid, t);
      var ids := CreditIds(Chosen(s.sys.vault, cfg, i, t.queried));
      if r == Refused(ExceedsRiskLimit) then []
      else if r.Refused? then [VaultRuns.DoExpire(t.queried)]
      else
        [VaultRuns.DoExpire(t.queried),
         VaultRuns.DoLog(GovernanceAction, IntentSettled(i.intentId, tx, cfg.address, ids), t.settled),
         VaultRuns.DoReimburse(cfg.address, tx, ids, rid, t.pay)]
  }

  lemma IntentStepIsLog(s: Protocol, iop: IntentNetwork.Op)
    ensures VaultRuns.ValidRun(s.sys, IntentEntries(s, iop))
    ensures VaultRuns.Run(s.sys, IntentEntries(s, iop)) == Step(s, IntentOp(iop)).sys
  {
    var book := IntentNetwork.Step(s.net, s.sys.book, iop).1;
    if book != s.sys.book {
      var e := book.entries[|book.entries| - 1];
      OneStep(s.sys, VaultRuns.DoLog(e.proofType, e.data, e.timestamp));
      assert book == Appended(s.sys.book, e.proofType, e.data, e.timestamp);
    }
  }

  lemma OneStep(s: GasVault.Sys, op: VaultRuns.Op)
    ensures VaultRuns.Run(s, [op]) == VaultRuns.Step(s, op)
    ensures VaultRuns.ValidRun(s, [op]) <==> VaultRuns.Enabled(s, op)
  {
    hide VaultRuns.Step, VaultRuns.Enabled;
    assert [op][1..] == [];
  }

  lemma ThreeSteps(s: GasVault.Sys, a: VaultRuns.Op, b: VaultRuns.Op, c: VaultRuns.Op)
    ensures VaultRuns.Run(s, [a, b, c]) == VaultRuns.Step(VaultRuns.Step(VaultRuns.Step(s, a), b), c)
    ensures
      var s1 := VaultRuns.Step(s, a);
      var s2 := VaultRuns.Step(s1, b);
      VaultRuns.Enabled(s, a) && VaultRuns.Enabled(s1, b) && VaultRuns.Enabled(s2, c) ==> VaultRuns.ValidRun(s, [a, b, c])
  {
    hide VaultRuns.Step, VaultRuns.Enabled, VaultRuns.Run, VaultRuns.ValidRun;
    var s1 := VaultRuns.Step(s, a);
    OneStep(s, a);
    OneStep(s1, b);
    OneStep(VaultRuns.Step(s1, b), c);
    VaultRuns.RunAppend(s1, [b], [c]);
    VaultRuns.RunAppend(s, [a], [b] + [c]);
    assert [a] + ([b] + [c]) == [a, b, c];
  }

  lemma RelayIsVaultRun(s: Protocol, op: Op)
    requires GasVault.Inv(s.sys) && op.RelayOp?
    ensures VaultRuns.ValidRun(s.sys, VaultCalls(s, op)) && VaultRuns.Run(s.sys, VaultCalls(s, op)) == Step(s, op).sys
  {
    hide GasVault.Inv, Chosen, UserCredits, WithinLimit, GasVault.Reimburse, GasVault.Expire, CreditIds,
         VaultRuns.Run, VaultRuns.ValidRun, SettledWith, Untouched;
    var RelayOp(cfg, i, maxTransfer, tx, rid, t) := op;
    RelayAllOrNothing(Seen(s, cfg.address), cfg, i, maxTransfer, tx, rid, t);
    var r := Relay(Seen(s, cfg.address), cfg, i, maxTransfer, tx, rid, t).1;
    var ids := CreditIds(Chosen(s.sys.vault, cfg, i, t.queried));
    OneStep(s.sys, VaultRuns.DoExpire(t.queried));
    EmptyRun(s.sys);
    if r.Relayed? {
      ThreeSteps(s.sys, VaultRuns.DoExpire(t.queried),
                 VaultRuns.DoLog(GovernanceAction, IntentSettled(i.intentId, tx, cfg.address, ids), t.settled),
                 VaultRuns.DoReimburse(cfg.address, tx, ids, rid, t.pay));
    }
  }

  lemma EmptyRun(s: GasVault.Sys)
    ensures VaultRuns.Run(s, []) == s && VaultRuns.ValidRun(s, [])
  {
  }

  lemma StepIsVaultRun(s: Protocol, op: Op)
    requires GasVault.Inv(s.sys) && Enabled(s, op)
    ensures VaultRuns.ValidRun(s.sys, VaultCalls(s, op)) && VaultRuns.Run(s.sys, VaultCalls(s, op)) == Step(s, op).sys
    ensures GasVault.Inv(Step(s, op).sys)
  {
    hide GasVault.Inv, Relay, VaultRuns.Run, VaultRuns.ValidRun;
    match op {
      case VaultOp(vop) => OneStep(s.sys, vop);
      case IntentOp(iop) => IntentStepIsLog(s, iop);
      case RelayOp(_, _, _, _, _, _) => RelayIsVaultRun(s, op);
    }
    VaultRuns.RunKeeps(s.sys, VaultCalls(s, op));
  }

  ghost function AllVaultCalls(s: Protocol, ops: seq<Op>): seq<VaultRuns.Op>
    decreases |ops|
  {
    if ops == [] then [] else VaultCalls(s, ops[0]) + AllVaultCalls(Step(s, ops[0]), ops[1..])
  }

  /** The vault's part of any protocol run is itself a vault run, so everything proved of vault runs holds of it. */
  lemma {:induction false} RunIsVaultRun(s: Protocol, ops: seq<Op>)
    requires GasVault.Inv(s.sys) && ValidRun(s, ops)
    ensures VaultRuns.ValidRun(s.sys, AllVaultCalls(s, ops))
    ensures VaultRuns.Run(s.sys, AllVaultCalls(s, ops)) == Run(s, ops).sys
    ensures GasVault.Inv(Run(s, ops).sys)
    decreases |ops|
  {
    hide GasVault.Inv, Step, Enabled, VaultCalls, VaultRuns.Run, VaultRuns.ValidRun;
    if ops == [] {
      EmptyRun(s.sys);
    } else {
      StepIsVaultRun(s, ops[0]);
      RunIsVaultRun(Step(s, ops[0]), ops[1..]);
      VaultRuns.RunAppend(s.sys, VaultCalls(s, ops[0]), AllVaultCalls(Step(s, ops[0]), ops[1..]));
    }
  }

  // ---- Intents over whole runs ----

  lemma RelayAdvances(s: Protocol, op: Op)
    requires GasVault.Inv(s.sys) && op.RelayOp?
    ensures IntentNetwork.NetworkAdvances(s.net, Step(s, op).net)
    ensures Step(s, op).net.nonces == s.net.nonces && Step(s, op).net.intents.Keys == s.net.intents.Keys
  {
    hide GasVault.Inv, Relay, Chosen, EstimateGas, ExactlyUsed;
    var RelayOp(cfg, i, maxTransfer, tx, rid, t) := op;
    RelayAllOrNothing(Seen(s, cfg.address), cfg, i, maxTransfer, tx, rid, t);
    if i.intentId in s.net.intents {
      RelayKeepsIdentity(s, cfg, i, maxTransfer, tx, rid, t);
    }
  }

  /** A relay changes only the settlement fields of an intent. */
  lemma RelayKeepsIdentity(s: Protocol, cfg: RelayerConfig, i: IntentNetwork.PaymentIntent, maxTransfer: real,
                           tx: string, rid: string, t: RelayClock)
    requires i.intentId in s.net.intents
    ensures
      var s' := Relay(Seen(s, cfg.address), cfg, i, maxTransfer, tx, rid, t).0;
      i.intentId in s'.net.intents
      && var (a, b) := (s.net.intents[i.intentId], s'.net.intents[i.intentId]);
      b == a || (a.status == IntentNetwork.Pending
                 && b == a.(status := b.status, claimedAt := b.claimedAt, settlementTx := b.settlementTx,
                            relayer := b.relayer, feeCreditIds := b.feeCreditIds))
  {
    hide GasVault.Reimburse, Chosen, UserCredits, WithinLimit, CreditIds, TotalAmount;
  }

  lemma AdvancesTrans(a: IntentNetwork.Network, b: IntentNetwork.Network, c: IntentNetwork.Network)
    requires IntentNetwork.NetworkAdvances(a, b) && IntentNetwork.NetworkAdvances(b, c)
    ensures IntentNetwork.NetworkAdvances(a, c)
  {
    forall id | id in a.intents ensures id in c.intents && IntentNetwork.Advances(a.intents[id], c.intents[id]) {
      assert IntentNetwork.Advances(a.intents[id], b.intents[id]) && IntentNetwork.Advances(b.intents[id], c.intents[id]);
    }
  }

  lemma StepKeepsIntents(s: Protocol, op: Op)
    requires GasVault.Inv(s.sys) && Enabled(s, op) && IntentNetwork.NoncesExact(s.net)
    ensures IntentNetwork.NoncesExact(Step(s, op).net) && IntentNetwork.NetworkAdvances(s.net, Step(s, op).net)
  {
    hide GasVault.Inv, Relay, IntentNetwork.NoncesExact;
    match op {
      case VaultOp(vop) =>
      case IntentOp(iop) =>
        IntentNetwork.StepKeepsNonces(s.net, s.sys.book, iop);
        IntentNetwork.StepAdvances(s.net, s.sys.book, iop);
      case RelayOp(_, _, _, _, _, _) =>
        RelayAdvances(s, op);
        IntentNetwork.SameIdentityKeepsNonces(s.net, Step(s, op).net);
    }
  }

  lemma {:induction false} RunKeepsIntents(s: Protocol, ops: seq<Op>)
    requires GasVault.Inv(s.sys) && ValidRun(s, ops) && IntentNetwork.NoncesExact(s.net)
    ensures IntentNetwork.NoncesExact(Run(s, ops).net) && IntentNetwork.NetworkAdvances(s.net, Run(s, ops).net)
    decreases |ops|
  {
    hide GasVault.Inv, Step, Enabled, IntentNetwork.NoncesExact;
    if ops != [] {
      StepIsVaultRun(s, ops[0]);
      StepKeepsIntents(s, ops[0]);
      RunKeepsIntents(Step(s, ops[0]), ops[1..]);
      AdvancesTrans(s.net, Step(s, ops[0]).net, Run(s, ops).net);
    }
  }

  /** After every protocol run: the vault is solvent, the log replays the reserves, each sender's nonces are exact,
      finished intents stay as they are under any continuation, and the next relay, whatever its arguments, is
      all-or-nothing. */
  lemma ProtocolRuns(initial: int, ops: seq<Op>, more: seq<Op>, cfg: RelayerConfig, i: IntentNetwork.PaymentIntent,
                     maxTransfer: real, tx: string, rid: string, t: RelayClock)
    requires initial >= 0 && ValidRun(Start(initial), ops) && ValidRun(Run(Start(initial), ops), more)
    ensures
      var s := Run(Start(initial), ops);
      var (s', r) := Relay(Seen(s, cfg.address), cfg, i, maxTransfer, tx, rid, t);
      2 * s.sys.vault.reserves >= 3 * GasVault.Outstanding(s.sys.vault.credits)
      && s.sys.vault.reserves == initial + VaultRuns.Replay(s.sys.book.entries)
      && IntentNetwork.NoncesExact(s.net)
      && IntentNetwork.NetworkAdvances(s.net, Run(s, more).net)
      && (r.Refused? ==> Untouched(Seen(s, cfg.address), s', t.queried) && r.reason != ReimbursementFailed)
      && (r.Relayed? ==>
            SettledWith(Seen(s, cfg.address), s', cfg, i, Chosen(s.sys.vault, cfg, i, t.queried), tx, r.reimbursement, r.profit))
  {
    var start := Start(initial);
    VaultRuns.NewVaultHolds(initial, EMPTY_BOOK);
    hide Relay, Run, ValidRun, VaultRuns.Run, VaultRuns.ValidRun, Untouched, SettledWith, IntentNetwork.NetworkAdvances, Chosen;
    RunIsVaultRun(start, ops);
    VaultRuns.ReservesReplay(start.sys, AllVaultCalls(start, ops));
    RunKeepsIntents(start, ops);
    var s := Run(start, ops);
    RunKeepsIntents(s, more);
    RelayAllOrNothing(Seen(s, cfg.address), cfg, i, maxTransfer, tx, rid, t);
  }

  // ---- Who may cancel ----

  /** The call is a cancellation of the intent in its sender's name. */
  predicate CancelsFor(op: Op, id: string, sender: string) {
    op.IntentOp? && op.iop.DoCancel? && op.iop.id == id && op.iop.sender == sender
  }

  lemma StepCancels(s: Protocol, op: Op, id: string)
    requires GasVault.Inv(s.sys) && Enabled(s, op) && id in s.net.intents && s.net.intents[id].status != IntentNetwork.Cancelled
    ensures
      var n' := Step(s, op).net;
      id in n'.intents && n'.intents[id].sender == s.net.intents[id].sender
      && (n'.intents[id].status == IntentNetwork.Cancelled ==> CancelsFor(op, id, s.net.intents[id].sender))
  {
    hide GasVault.Inv, Relay, Chosen, EstimateGas, ExactlyUsed, VaultRuns.Step;
    if op.RelayOp? {
      RelayAdvances(s, op);
      assert IntentNetwork.Advances(s.net.intents[id], Step(s, op).net.intents[id]);
      RelayAllOrNothing(Seen(s, op.cfg.address), op.cfg, op.intent, op.maxTransfer, op.tx, op.rid, op.t);
    }
  }

  /** Only the sender cancels: over every protocol run an intent becomes cancelled only by a call in its sender's name. */
  lemma {:induction false} OnlySenderCancels(s: Protocol, ops: seq<Op>, id: string)
    requires GasVault.Inv(s.sys) && ValidRun(s, ops) && id in s.net.intents && s.net.intents[id].status != IntentNetwork.Cancelled
    requires id in Run(s, ops).net.intents && Run(s, ops).net.intents[id].status == IntentNetwork.Cancelled
    ensures exists op :: op in ops && CancelsFor(op, id, s.net.intents[id].sender)
    decreases |ops|
  {
    hide GasVault.Inv, Step, Enabled, CancelsFor;
    if ops != [] {
      var s' := Step(s, ops[0]);
      StepIsVaultRun(s, ops[0]);
      StepCancels(s, ops[0], id);
      if s'.net.intents[id].status == IntentNetwork.Cancelled {
        assert ops[0] in ops;
      } else {
        OnlySenderCancels(s', ops[1..], id);
        var op :| op in ops[1..] && CancelsFor(op, id, s'.net.intents[id].sender);
        assert op in ops;
      }
    }
  }

  // ---- Fee credits behind claimed intents, and what the relayer earned ----

  ghost predicate FeesUsed(s: Protocol, id: string)
    requires id in s.net.intents
  {
    var i := s.net.intents[id];
    i.status == IntentNetwork.Claimed ==>
      GasVault.Distinct(i.feeCreditIds) && forall c :: c in i.feeCreditIds ==> VaultRuns.UsedIn(s.sys.vault.credits, c)
  }

  ghost predicate FeesApart(n: IntentNetwork.Network, id: string, id': string)
    requires id in n.intents && id' in n.intents
  {
    var (i, i') := (n.intents[id], n.intents[id']);
    i.status == IntentNetwork.Claimed && i'.status == IntentNetwork.Claimed && id != id' ==>
      forall c :: c in i.feeCreditIds ==> c !in i'.feeCreditIds
  }

  /** The fee credits of claimed intents are used, each for one intent and once. */
  ghost predicate FeesGood(s: Protocol) {
    (forall id :: id in s.net.intents ==> FeesUsed(s, id))
    && (forall id, id' :: id in s.net.intents && id' in s.net.intents ==> FeesApart(s.net, id, id'))
  }

  ghost predicate UsedKept(credits: map<string, GasVault.Credit>, credits': map<string, GasVault.Credit>) {
    forall c :: VaultRuns.UsedIn(credits, c) ==> VaultRuns.UsedIn(credits', c)
  }

  /** A claimed intent was claimed before, and is as it was. */
  ghost predicate NoneClaimed(n: IntentNetwork.Network, n': IntentNetwork.Network) {
    forall id :: id in n'.intents && n'.intents[id].status == IntentNetwork.Claimed ==>
      id in n.intents && n'.intents[id] == n.intents[id]
  }

  lemma FeesKept(s: Protocol, s': Protocol)
    requires FeesGood(s) && NoneClaimed(s.net, s'.net) && UsedKept(s.sys.vault.credits, s'.sys.vault.credits)
    ensures FeesGood(s')
  {
    forall id | id in s'.net.intents ensures FeesUsed(s', id) {
      if s'.net.intents[id].status == IntentNetwork.Claimed { assert FeesUsed(s, id); }
    }
    forall id, id' | id in s'.net.intents && id' in s'.net.intents ensures FeesApart(s'.net, id, id') {
      if s'.net.intents[id].status == IntentNetwork.Claimed && s'.net.intents[id'].status == IntentNetwork.Claimed {
        assert FeesApart(s.net, id, id');
      }
    }
  }

  lemma FeesClaimed(s: Protocol, s': Protocol, id: string, relayer: string, tx: string, ids: seq<string>)
    requires FeesGood(s) && ClaimedBy(s.net, s'.net, id, relayer, tx, ids) && GasVault.Distinct(ids)
    requires ExactlyUsed(s.sys.vault.credits, s'.sys.vault.credits, ids)
    ensures FeesGood(s')
  {
    assert UsedKept(s.sys.vault.credits, s'.sys.vault.credits);
    forall k | k in s'.net.intents ensures FeesUsed(s', k) {
      if k != id { assert FeesUsed(s, k); }
    }
    forall k, k' | k in s'.net.intents && k' in s'.net.intents ensures FeesApart(s'.net, k, k') {
      assert FeesApart(s.net, k, k');
      assert FeesUsed(s, k) && FeesUsed(s, k');
    }
  }

  lemma IntentStepClaimsNone(n: IntentNetwork.Network, b: Book, iop: IntentNetwork.Op)
    requires !iop.DoConfirm?
    ensures NoneClaimed(n, IntentNetwork.Step(n, b, iop).0)
  {
  }

  lemma VaultStepKeepsUsed(s: GasVault.Sys, vop: VaultRuns.Op)
    requires GasVault.Inv(s) && VaultRuns.Enabled(s, vop)
    ensures UsedKept(s.vault.credits, VaultRuns.Step(s, vop).vault.credits)
  {
    hide VaultRuns.Step, VaultRuns.Enabled, GasVault.Inv;
    VaultRuns.StepUses(s, vop);
  }

  predicate DirectConfirm(op: Op) { op.IntentOp? && op.iop.DoConfirm? }
  predicate DirectReimburse(op: Op) { op.VaultOp? && op.vop.DoReimburse? }
  predicate DirectConsume(op: Op) { op.VaultOp? && op.vop.DoConsume? }

  lemma StepKeepsFees(s: Protocol, op: Op)
    requires GasVault.Inv(s.sys) && Enabled(s, op) && !DirectConfirm(op) && FeesGood(s)
    ensures FeesGood(Step(s, op))
  {
    hide GasVault.Inv, FeesGood, Relay, Chosen, CreditIds, VaultRuns.Step, VaultRuns.Enabled, IntentNetwork.Step,
         GasVault.ExpireAll, ExactlyUsed, ClaimedBy, TotalAmount, PaidOut, GasVault.Distinct;
    match op {
      case VaultOp(vop) =>
        VaultStepKeepsUsed(s.sys, vop);
        FeesKept(s, Step(s, op));
      case IntentOp(iop) =>
        IntentStepClaimsNone(s.net, s.sys.book, iop);
        FeesKept(s, Step(s, op));
      case RelayOp(cfg, i, maxTransfer, tx, rid, t) =>
        RelayAllOrNothing(Seen(s, cfg.address), cfg, i, maxTransfer, tx, rid, t);
        ExpireKeepsUsed(s.sys.vault.credits, t.queried);
        var chosen := Chosen(s.sys.vault, cfg, i, t.queried);
        if Relay(Seen(s, cfg.address), cfg, i, maxTransfer, tx, rid, t).1.Relayed? {
          FeesClaimed(s, Step(s, op), i.intentId, cfg.address, tx, CreditIds(chosen));
        } else {
          FeesKept(s, Step(s, op));
        }
    }
  }

  lemma ExpireKeepsUsed(credits: map<string, GasVault.Credit>, now: real)
    ensures UsedKept(credits, GasVault.ExpireAll(credits, now))
  {
  }

  /** When intents are confirmed only by relays, the fee credits of claimed intents are used, each for one intent. */
  lemma {:induction false} RunKeepsFees(s: Protocol, ops: seq<Op>)
    requires GasVault.Inv(s.sys) && ValidRun(s, ops) && FeesGood(s)
    requires forall k :: 0 <= k < |ops| ==> !DirectConfirm(ops[k])
    ensures FeesGood(Run(s, ops))
    decreases |ops|
  {
    hide GasVault.Inv, Step, Enabled, FeesGood, DirectConfirm;
    if ops != [] {
      StepIsVaultRun(s, ops[0]);
      StepKeepsFees(s, ops[0]);
      RunKeepsFees(Step(s, ops[0]), ops[1..]);
    }
  }

  /** The reimbursements made out to one relayer. */
  function ReimbursedTo(rs: seq<GasVault.Reimbursement>, address: string): int {
    if rs == [] then 0
    else ReimbursedTo(rs[..|rs| - 1], address) + if rs[|rs| - 1].relayer == address then rs[|rs| - 1].amount else 0
  }

  function Takings(c: Counters): int { c.profit + c.gasSpent }

  ghost predicate EarnedBy(s: Protocol, a: string) {
    Takings(CountersOf(s, a)) == ReimbursedTo(s.sys.vault.reimbursements, a)
  }

  ghost predicate EarnedTotal(s: Protocol) {
    Sums.SumOver(s.counters, Takings) == VaultRuns.ReimbursedTotal(s.sys.vault.reimbursements)
  }

  /** Each relayer's profit and gas is what was reimbursed to it, and all of them together the whole total. */
  ghost predicate Earned(s: Protocol) { EarnedTotal(s) && forall a :: EarnedBy(s, a) }

  lemma EarnedKept(s: Protocol, s': Protocol)
    requires Earned(s) && s'.counters == s.counters && s'.sys.vault.reimbursements == s.sys.vault.reimbursements
    ensures Earned(s')
  {
    hide Sums.SumOver, ReimbursedTo, VaultRuns.ReimbursedTotal;
    forall a ensures EarnedBy(s', a) {
      assert EarnedBy(s, a);
    }
  }

  /** The sum over the relayers after one relayer's counters are replaced. */
  lemma TakingsAfter(s: Protocol, s': Protocol, address: string, c: Counters)
    requires s'.counters == s.counters[address := c]
    ensures Sums.SumOver(s'.counters, Takings) == Sums.SumOver(s.counters, Takings) + Takings(c) - Takings(CountersOf(s, address))
  {
    hide Sums.SumOver, CountersOf, Takings;
    Sums.SumPut(s.counters, Takings, address, c);
    TakingsOf(s, address);
  }

  lemma TakingsOf(s: Protocol, address: string)
    ensures Takings(CountersOf(s, address)) == if address in s.counters then Takings(s.counters[address]) else 0
  {
  }

  /** One relayer's counters become c, and it is reimbursed the difference. */
  lemma EarnedMore(s: Protocol, s': Protocol, address: string, c: Counters, r: GasVault.Reimbursement)
    requires Earned(s) && s'.counters == s.counters[address := c]
    requires s'.sys.vault.reimbursements == s.sys.vault.reimbursements + [r]
    requires Takings(c) == Takings(CountersOf(s, address)) + r.amount && r.relayer == address
    ensures Earned(s')
  {
    hide Sums.SumOver, ReimbursedTo, VaultRuns.ReimbursedTotal, EarnedBy, CountersOf, Takings;
    TakingsAfter(s, s', address, c);
    TotalMore(s.sys.vault.reimbursements, r);
    forall a ensures EarnedBy(s', a) {
      EarnedMoreBy(s, s', address, c, r, a);
    }
  }

  lemma TotalMore(rs: seq<GasVault.Reimbursement>, r: GasVault.Reimbursement)
    ensures VaultRuns.ReimbursedTotal(rs + [r]) == VaultRuns.ReimbursedTotal(rs) + r.amount
  {
    assert (rs + [r])[..|rs|] == rs;
  }

  lemma EarnedMoreBy(s: Protocol, s': Protocol, address: string, c: Counters, r: GasVault.Reimbursement, a: string)
    requires EarnedBy(s, a) && s'.counters == s.counters[address := c]
    requires s'.sys.vault.reimbursements == s.sys.vault.reimbursements + [r]
    requires Takings(c) == Takings(CountersOf(s, address)) + r.amount && r.relayer == address
    ensures EarnedBy(s', a)
  {
    hide ReimbursedTo, CountersOf;
    ReimbursedMore(s.sys.vault.reimbursements, r, a);
    CountersAfter(s, s', address, c, a);
  }

  lemma ReimbursedMore(rs: seq<GasVault.Reimbursement>, r: GasVault.Reimbursement, a: string)
    ensures ReimbursedTo(rs + [r], a) == ReimbursedTo(rs, a) + if r.relayer == a then r.amount else 0
  {
    assert (rs + [r])[..|rs|] == rs;
  }

  lemma CountersAfter(s: Protocol, s': Protocol, address: string, c: Counters, a: string)
    requires s'.counters == s.counters[address := c]
    ensures CountersOf(s', a) == if a == address then c else CountersOf(s, a)
  {
  }

  /** A relayer that was refused keeps its counters; they are on record from then on. */
  lemma EarnedSame(s: Protocol, s': Protocol, address: string)
    requires Earned(s) && s'.counters == s.counters[address := CountersOf(s, address)]
    requires s'.sys.vault.reimbursements == s.sys.vault.reimbursements
    ensures Earned(s')
  {
    hide Sums.SumOver, ReimbursedTo, VaultRuns.ReimbursedTotal, CountersOf, Takings;
    TakingsAfter(s, s', address, CountersOf(s, address));
    forall a ensures EarnedBy(s', a) {
      assert EarnedBy(s, a);
      CountersAfter(s, s', address, CountersOf(s, address), a);
    }
  }

  lemma RelayKeepsEarned(s: Protocol, cfg: RelayerConfig, i: IntentNetwork.PaymentIntent, maxTransfer: real, tx: string,
                         rid: string, t: RelayClock)
    requires GasVault.Inv(s.sys) && Earned(s)
    ensures Earned(Step(s, RelayOp(cfg, i, maxTransfer, tx, rid, t)))
  {
    hide GasVault.Inv, Relay, Chosen, CreditIds, GasVault.ExpireAll, ExactlyUsed, ClaimedBy, TotalAmount, GasVault.Distinct,
         Earned;
    var s' := Step(s, RelayOp(cfg, i, maxTransfer, tx, rid, t));
    RelayAllOrNothing(Seen(s, cfg.address), cfg, i, maxTransfer, tx, rid, t);
    if Relay(Seen(s, cfg.address), cfg, i, maxTransfer, tx, rid, t).1.Relayed? {
      var rs, rs' := s.sys.vault.reimbursements, s'.sys.vault.reimbursements;
      assert rs' == rs + [rs'[|rs|]];
      EarnedMore(s, s', cfg.address, s'.counters[cfg.address], rs'[|rs|]);
    } else {
      EarnedSame(s, s', cfg.address);
    }
  }

  lemma StepKeepsEarned(s: Protocol, op: Op)
    requires GasVault.Inv(s.sys) && Enabled(s, op) && !DirectReimburse(op) && Earned(s)
    ensures Earned(Step(s, op))
  {
    hide GasVault.Inv, Relay, VaultRuns.Step, VaultRuns.Enabled, IntentNetwork.Step, Earned;
    match op {
      case VaultOp(vop) =>
        VaultRuns.OnlyReimbursePays(s.sys, vop);
        EarnedKept(s, Step(s, op));
      case IntentOp(iop) => EarnedKept(s, Step(s, op));
      case RelayOp(cfg, i, maxTransfer, tx, rid, t) => RelayKeepsEarned(s, cfg, i, maxTransfer, tx, rid, t);
    }
  }

  /** When reimbursements come only from relays, what each relayer counts as profit and gas is what was reimbursed to it. */
  lemma {:induction false} RunKeepsEarned(s: Protocol, ops: seq<Op>)
    requires GasVault.Inv(s.sys) && ValidRun(s, ops) && Earned(s)
    requires forall k :: 0 <= k < |ops| ==> !DirectReimburse(ops[k])
    ensures Earned(Run(s, ops))
    decreases |ops|
  {
    hide GasVault.Inv, Step, Enabled, Earned, DirectReimburse;
    if ops != [] {
      StepIsVaultRun(s, ops[0]);
      StepKeepsEarned(s, ops[0]);
      RunKeepsEarned(Step(s, ops[0]), ops[1..]);
    }
  }

  lemma StepConsumesNothing(s: Protocol, op: Op)
    requires !DirectConsume(op)
    ensures forall k :: 0 <= k < |VaultCalls(s, op)| ==> !VaultCalls(s, op)[k].DoConsume?
  {
    hide Relay, Chosen, CreditIds, IntentNetwork.Step;
  }

  lemma {:induction false} RunConsumesNothing(s: Protocol, ops: seq<Op>)
    requires forall k :: 0 <= k < |ops| ==> !DirectConsume(ops[k])
    ensures forall k :: 0 <= k < |AllVaultCalls(s, ops)| ==> !AllVaultCalls(s, ops)[k].DoConsume?
    decreases |ops|
  {
    hide Step, VaultCalls, DirectConsume;
    if ops != [] {
      StepConsumesNothing(s, ops[0]);
      RunConsumesNothing(Step(s, ops[0]), ops[1..]);
    }
  }

  /** Runs in which only relays settle: every used credit pays for one claimed intent at most, and the used credits
      together are exactly the gas and profit of all relayers. */
  lemma RelayedRuns(initial: int, ops: seq<Op>)
    requires initial >= 0 && ValidRun(Start(initial), ops)
    requires forall k :: 0 <= k < |ops| ==> !DirectConfirm(ops[k]) && !DirectReimburse(ops[k]) && !DirectConsume(ops[k])
    ensures
      var s := Run(Start(initial), ops);
      FeesGood(s) && Earned(s)
      && Sums.SumOver(s.counters, Takings) == GasVault.UsedTotal(s.sys.vault.credits)
  {
    hide Run, ValidRun, VaultRuns.Run, VaultRuns.ValidRun, FeesGood, VaultRuns.RunHistory,
         DirectConfirm, DirectReimburse, DirectConsume, Sums.SumOver;
    var start := Start(initial);
    VaultRuns.NewVaultHolds(initial, EMPTY_BOOK);
    StartGood(initial);
    RunKeepsFees(start, ops);
    RunKeepsEarned(start, ops);
    RunIsVaultRun(start, ops);
    RunConsumesNothing(start, ops);
    VaultRuns.ReimbursementsBalance(initial, EMPTY_BOOK, AllVaultCalls(start, ops), "");
  }

  lemma StartGood(initial: int)
    ensures FeesGood(Start(initial)) && Earned(Start(initial))
  {
  }
}
