/** Every interleaving of vault calls with entries that other modules log: solvency, replay of the reserves
    from the log, and conservation of credits. */
module VaultRuns {
  import opened Wrappers
  import opened ProofBook
  import opened GasVault
  import opened Sums

  datatype Op =
    | DoDeposit(amount: int, source: string, now: real)
    | DoWithdraw(amount: int, destination: string, reason: string, checked: real, logged: real)
    | DoIssue(user: string, proof: Hash, workScore: real, id: string, clock: IssueClock)
    | DoExpire(now: real)
    | DoConsume(ids: seq<string>)
    | DoReimburse(relayer: string, tx: string, ids: seq<string>, rid: string, pay: PayClock)
    | DoLog(proofType: ProofType, data: Payload, now: real)

  ghost function Step(s: Sys, op: Op): Sys {
    match op
    case DoDeposit(amount, source, now) => Deposit(s, amount, source, now)
    case DoWithdraw(amount, destination, reason, checked, logged) =>
      Withdraw(s, amount, destination, reason, checked, logged).0
    case DoIssue(user, proof, workScore, id, clock) => Issue(s, user, proof, workScore, id, clock).0
    case DoExpire(now) => Sys(Expire(s.vault, now), s.book)
    case DoConsume(ids) => Sys(s.vault.(credits := Consume(s.vault.credits, ids)), s.book)
    case DoReimburse(relayer, tx, ids, rid, pay) => Reimburse(s, relayer, tx, ids, rid, pay).0
    case DoLog(proofType, data, now) => s.(book := Appended(s.book, proofType, data, now))
  }

  /** Deposits are safe (every deposit that is not negative is), new credit ids are fresh, and other modules do not log
      vault entries. */
  ghost predicate Enabled(s: Sys, op: Op) {
    match op
    case DoDeposit(amount, _, _) => DepositSafe(s.vault, amount)
    case DoIssue(_, _, _, id, _) => id !in s.vault.credits
    case DoLog(_, data, _) => !data.Deposited? && !data.Withdrawn? && !data.Reimbursed?
    case _ => true
  }

  ghost predicate ValidRun(s: Sys, ops: seq<Op>)
    decreases |ops|
  {
    ops == [] || (Enabled(s, ops[0]) && ValidRun(Step(s, ops[0]), ops[1..]))
  }

  ghost function Run(s: Sys, ops: seq<Op>): Sys
    decreases |ops|
  {
    if ops == [] then s else Run(Step(s, ops[0]), ops[1..])
  }

  /** A new vault over an existing log. */
  function NewVault(initial: int, book: Book): Sys { Sys(Vault(initial, map[], map[], []), book) }

  lemma StepKeeps(s: Sys, op: Op)
    requires Inv(s) && Enabled(s, op)
    ensures Inv(Step(s, op))
  {
    hide SumOver;
    match op
    case DoDeposit(amount, source, now) => DepositKeepsExactly(s, amount, source, now);
    case DoWithdraw(amount, destination, reason, checked, logged) =>
      WithdrawKeeps(s, amount, destination, reason, checked, logged);
    case DoIssue(user, proof, workScore, id, clock) => IssueKeeps(s, user, proof, workScore, id, clock);
    case DoExpire(now) => ExpireKeeps(s, now);
    case DoConsume(ids) => ConsumeKeeps(s, ids);
    case DoReimburse(relayer, tx, ids, rid, pay) => ReimburseAlwaysPays(s, relayer, tx, ids, rid, pay);
    case DoLog(proofType, data, now) => AppendKeepsBacking(s, proofType, data, now);
  }

  lemma OnlyReimbursePays(s: Sys, op: Op)
    requires !op.DoReimburse?
    ensures Step(s, op).vault.reimbursements == s.vault.reimbursements
  {
    hide SumOver, Consume, OfType;
  }

  lemma {:induction false} RunKeeps(s: Sys, ops: seq<Op>)
    requires Inv(s) && ValidRun(s, ops)
    ensures Inv(Run(s, ops))
    decreases |ops|
  {
    if ops != [] {
      StepKeeps(s, ops[0]);
      RunKeeps(Step(s, ops[0]), ops[1..]);
    }
  }

  lemma {:induction false} RunAppend(s: Sys, first: seq<Op>, second: seq<Op>)
    ensures Run(s, first + second) == Run(Run(s, first), second)
    ensures ValidRun(s, first + second) <==> ValidRun(s, first) && ValidRun(Run(s, first), second)
    decreases |first|
  {
    hide Step, Enabled;
    if first == [] {
      assert first + second == second;
    } else {
      RunAppend(Step(s, first[0]), first[1..], second);
      assert (first + second)[1..] == first[1..] + second;
    }
  }

  lemma NewVaultHolds(initial: int, book: Book)
    requires initial >= 0
    ensures Inv(NewVault(initial, book))
  {
  }

  /** Solvency, cap, index agreement and backing after every run. */
  lemma VaultStaysSolvent(initial: int, book: Book, ops: seq<Op>, user: string)
    requires initial >= 0 && ValidRun(NewVault(initial, book), ops)
    ensures
      var s := Run(NewVault(initial, book), ops);
      2 * s.vault.reserves >= 3 * Outstanding(s.vault.credits)
      && IndexedActive(s.vault.credits, IndexOf(s.vault.userCredits, user)) == UserActive(s.vault.credits, user) <= 10_000_000_000
      && Backed(s)
  {
    NewVaultHolds(initial, book);
    RunKeeps(NewVault(initial, book), ops);
    var s := Run(NewVault(initial, book), ops);
    IndexAgrees(s.vault.credits, s.vault.userCredits, user);
    assert UserActive(s.vault.credits, user) <= MAX_CREDIT;
  }

  /** deposit_sol takes negative amounts: one such call breaks solvency, and the next reimbursement consumes the
      credit without paying. */
  lemma NegativeDepositBreaksSolvency(s: Sys, id: string, relayer: string, tx: string, rid: string, pay: PayClock)
    requires Inv(s) && Consumable(s.vault.credits, id)
    ensures
      var s1 := Deposit(s, -s.vault.reserves, "treasury", 0.0);
      !Covered(s1.vault) && Reimburse(s1, relayer, tx, [id], rid, pay).1 == None
      && Reimburse(s1, relayer, tx, [id], rid, pay).0.vault.credits[id].status == Used
  {
    var s1 := Deposit(s, -s.vault.reserves, "treasury", 0.0);
    ConsumeFlips(s.vault.credits, [id]);
    ConsumeKeeps(s, [id]);
    assert id in PaidIds(s.vault.credits, [id]);
  }

  // ---- Replay of the reserves ----

  function Effect(e: Entry): int {
    match e.data
    case Deposited(amount, _, _) => amount
    case Withdrawn(amount, _, _, _) => -amount
    case Reimbursed(_, amount, _, _) => -amount
    case _ => 0
  }

  /** What the log says happened to the reserves. */
  function Replay(entries: seq<Entry>): int {
    if entries == [] then 0
    else Replay(entries[..|entries| - 1]) + Effect(entries[|entries| - 1])
  }

  lemma ReplayAppend(b: Book, proofType: ProofType, data: Payload, now: real)
    ensures Replay(Appended(b, proofType, data, now).entries)
      == Replay(b.entries) + Effect(SealedEntry(b, proofType, data, now))
  {
    var b' := Appended(b, proofType, data, now);
    assert b'.entries[..|b'.entries| - 1] == b.entries;
  }

  lemma StepReplays(s: Sys, op: Op)
    requires Enabled(s, op)
    ensures Step(s, op).vault.reserves - Replay(Step(s, op).book.entries) == s.vault.reserves - Replay(s.book.entries)
  {
    hide SumOver;
    match op
    case DoDeposit(amount, source, now) =>
      ReplayAppend(s.book, Treasury, Deposited(amount, source, s.vault.reserves + amount), now);
    case DoWithdraw(amount, destination, reason, checked, logged) =>
      ReplayAppend(s.book, Treasury, Withdrawn(amount, destination, reason, s.vault.reserves - amount), logged);
    case DoIssue(user, proof, workScore, id, clock) => IssueReplays(s, user, proof, workScore, id, clock);
    case DoReimburse(relayer, tx, ids, rid, pay) => ReimburseReplays(s, relayer, tx, ids, rid, pay);
    case DoLog(proofType, data, now) => ReplayAppend(s.book, proofType, data, now);
    case _ =>
  }

  lemma IssueReplays(s: Sys, user: string, proof: Hash, workScore: real, id: string, t: IssueClock)
    ensures
      var s' := Issue(s, user, proof, workScore, id, t).0;
      s'.vault.reserves == s.vault.reserves && Replay(s'.book.entries) == Replay(s.book.entries)
  {
    hide SumOver;
    var (s', c) := Issue(s, user, proof, workScore, id, t);
    if c.Some? {
      ReplayAppend(s.book, FeeCredit, CreditIssued(id, user, c.value.amount, proof, c.value.expiresAt), t.logged);
    }
  }

  lemma ReimburseReplays(s: Sys, relayer: string, tx: string, ids: seq<string>, rid: string, t: PayClock)
    ensures
      var s' := Reimburse(s, relayer, tx, ids, rid, t).0;
      s'.vault.reserves - Replay(s'.book.entries) == s.vault.reserves - Replay(s.book.entries)
  {
    hide SumOver;
    var (s', r) := Reimburse(s, relayer, tx, ids, rid, t);
    if r.Some? {
      ReplayAppend(s.book, Treasury, Reimbursed(relayer, r.value.amount, tx, r.value.coverageAfter), t.logged);
    }
  }

  /** The log replays the reserves: in every run reserves equal the initial balance plus the fold of the entries. */
  lemma {:induction false} ReservesReplay(s: Sys, ops: seq<Op>)
    requires ValidRun(s, ops)
    ensures Run(s, ops).vault.reserves == s.vault.reserves + Replay(Run(s, ops).book.entries) - Replay(s.book.entries)
    decreases |ops|
  {
    if ops != [] {
      StepReplays(s, ops[0]);
      ReservesReplay(Step(s, ops[0]), ops[1..]);
    }
  }

  /** The balance an entry states, if it states one. */
  predicate StatesBalance(e: Entry, balance: int) {
    match e.data
    case Deposited(_, _, newReserves) => newReserves == balance
    case Withdrawn(_, _, _, newReserves) => newReserves == balance
    case _ => true
  }

  /** From position n on, every balance stated in the log is the opening balance plus the replay up to that entry. */
  ghost predicate BalancesTrue(entries: seq<Entry>, opening: int, n: nat) {
    forall k :: n <= k < |entries| ==> StatesBalance(entries[k], opening + Replay(entries[..k + 1]))
  }

  lemma AppendBalance(b: Book, proofType: ProofType, data: Payload, now: real, opening: int, n: nat)
    requires BalancesTrue(b.entries, opening, n)
    requires StatesBalance(SealedEntry(b, proofType, data, now), opening + Replay(Appended(b, proofType, data, now).entries))
    ensures BalancesTrue(Appended(b, proofType, data, now).entries, opening, n)
  {
    var b' := Appended(b, proofType, data, now);
    forall k | n <= k < |b'.entries| ensures StatesBalance(b'.entries[k], opening + Replay(b'.entries[..k + 1])) {
      if k < |b.entries| {
        assert b'.entries[..k + 1] == b.entries[..k + 1];
      } else {
        assert b'.entries[..k + 1] == b'.entries;
      }
    }
  }

  lemma StepStatesBalance(s: Sys, op: Op, opening: int, n: nat)
    requires Enabled(s, op) && s.vault.reserves == opening + Replay(s.book.entries) && BalancesTrue(s.book.entries, opening, n)
    ensures BalancesTrue(Step(s, op).book.entries, opening, n)
  {
    hide SumOver, Replay, BalancesTrue, Consume, PaidIds, AmountOf, OfType;
    StepReplays(s, op);
    var s' := Step(s, op);
    if s'.book != s.book {
      var e := s'.book.entries[|s'.book.entries| - 1];
      assert s'.book == Appended(s.book, e.proofType, e.data, e.timestamp);
      assert StatesBalance(e, s'.vault.reserves);
      AppendBalance(s.book, e.proofType, e.data, e.timestamp, opening, n);
    }
  }

  /** Audit: every new_reserves figure that a run logs is the true balance at that entry. */
  lemma {:induction false} LoggedBalancesTrue(s: Sys, ops: seq<Op>, opening: int, n: nat)
    requires ValidRun(s, ops) && s.vault.reserves == opening + Replay(s.book.entries) && BalancesTrue(s.book.entries, opening, n)
    ensures BalancesTrue(Run(s, ops).book.entries, opening, n)
    decreases |ops|
  {
    hide Step, Enabled, Replay, BalancesTrue;
    if ops != [] {
      StepStatesBalance(s, ops[0], opening, n);
      StepReplays(s, ops[0]);
      LoggedBalancesTrue(Step(s, ops[0]), ops[1..], opening, n);
    }
  }

  // ---- Conservation of credits ----

  /** Which credits each reimbursement paid for, and which were consumed directly, recorded along a run. */
  datatype History = History(paid: seq<seq<string>>, direct: seq<string>, directTotal: int)

  ghost function Track(h: History, s: Sys, op: Op): History {
    match op
    case DoConsume(ids) =>
      h.(direct := h.direct + PaidIds(s.vault.credits, ids), directTotal := h.directTotal + ConsumedTotal(s.vault.credits, ids))
    case DoReimburse(relayer, tx, ids, rid, pay) =>
      if Reimburse(s, relayer, tx, ids, rid, pay).1.Some? then h.(paid := h.paid + [PaidIds(s.vault.credits, ids)]) else h
    case _ => h
  }

  ghost function RunHistory(h: History, s: Sys, ops: seq<Op>): History
    decreases |ops|
  {
    if ops == [] then h else RunHistory(Track(h, s, ops[0]), Step(s, ops[0]), ops[1..])
  }

  function ReimbursedTotal(rs: seq<Reimbursement>): int {
    if rs == [] then 0 else ReimbursedTotal(rs[..|rs| - 1]) + rs[|rs| - 1].amount
  }

  /** Credits on record never change amount or user, and a used credit stays used. */
  ghost predicate Persists(credits: map<string, Credit>, credits': map<string, Credit>) {
    forall id :: id in credits ==>
      id in credits' && credits'[id] == credits[id].(status := credits'[id].status)
      && (credits[id].status == Used ==> credits'[id].status == Used)
  }

  lemma PersistsTrans(a: map<string, Credit>, b: map<string, Credit>, c: map<string, Credit>)
    requires Persists(a, b) && Persists(b, c)
    ensures Persists(a, c)
  {
  }

  lemma {:induction false} AmountPersists(credits: map<string, Credit>, credits': map<string, Credit>, ids: seq<string>)
    requires Persists(credits, credits') && forall id :: id in ids ==> id in credits
    ensures AmountOf(credits', ids) == AmountOf(credits, ids)
  {
    if ids != [] {
      AmountPersists(credits, credits', ids[..|ids| - 1]);
    }
  }

  /** From credits to credits', exactly the listed credits, all active before and each listed once, became used. */
  ghost predicate Uses(credits: map<string, Credit>, credits': map<string, Credit>, flipped: seq<string>) {
    Persists(credits, credits') && Distinct(flipped)
    && UsedTotal(credits') == UsedTotal(credits) + AmountOf(credits, flipped)
    && (forall id :: id in flipped ==> Consumable(credits, id) && id in credits' && credits'[id].status == Used)
    && (forall id :: id in credits' && credits'[id].status == Used ==>
          id in flipped || (id in credits && credits[id].status == Used))
  }

  lemma ExpireUses(credits: map<string, Credit>, now: real)
    ensures Uses(credits, ExpireAll(credits, now), [])
  {
    SumCompare(credits, ExpireAll(credits, now), UsedAmount);
    SumCompare(ExpireAll(credits, now), credits, UsedAmount);
  }

  lemma ConsumeUses(credits: map<string, Credit>, ids: seq<string>)
    requires CreditsGood(credits)
    ensures Uses(credits, Consume(credits, ids), PaidIds(credits, ids))
  {
    ConsumeFlips(credits, ids);
    ConsumeMoves(credits, ids);
  }

  lemma UsesThenNone(a: map<string, Credit>, b: map<string, Credit>, c: map<string, Credit>, flipped: seq<string>)
    requires Uses(a, b, flipped) && Uses(b, c, [])
    ensures Uses(a, c, flipped)
  {
    hide SumOver;
    PersistsTrans(a, b, c);
  }

  lemma StoreUses(credits: map<string, Credit>, c: Credit)
    requires c.creditId !in credits && c.status == Active
    ensures Uses(credits, credits[c.creditId := c], [])
  {
    SumPut(credits, UsedAmount, c.creditId, c);
  }

  /** What issuing leaves on the credits: untouched, expired once or twice, or expired and one credit added. */
  lemma IssueShapes(s: Sys, user: string, proof: Hash, workScore: real, id: string, t: IssueClock)
    ensures
      var (s', credit) := Issue(s, user, proof, workScore, id, t);
      var a := s.vault.credits;
      var b := ExpireAll(a, t.capCheck);
      var c := ExpireAll(b, t.coverCheck);
      if credit.Some? then
        s'.vault.credits == c[id := credit.value] && credit.value.creditId == id && credit.value.status == Active
      else s'.vault.credits in [a, b, c]
  {
    hide SumOver;
  }

  lemma IssueUses(s: Sys, user: string, proof: Hash, workScore: real, id: string, t: IssueClock)
    requires id !in s.vault.credits
    ensures Uses(s.vault.credits, Issue(s, user, proof, workScore, id, t).0.vault.credits, [])
  {
    hide SumOver;
    IssueShapes(s, user, proof, workScore, id, t);
    var credit := Issue(s, user, proof, workScore, id, t).1;
    var b := ExpireAll(s.vault.credits, t.capCheck);
    var c := ExpireAll(b, t.coverCheck);
    NoUse(s.vault.credits);
    ExpireUses(s.vault.credits, t.capCheck);
    ExpireUses(b, t.coverCheck);
    UsesThenNone(s.vault.credits, b, c, []);
    if credit.Some? {
      StoreUses(c, credit.value);
      UsesThenNone(s.vault.credits, c, c[id := credit.value], []);
    }
  }

  lemma NoUse(credits: map<string, Credit>)
    ensures Uses(credits, credits, [])
  {
  }

  /** The credits a step turns from active to used. */
  ghost function Flipped(s: Sys, op: Op): seq<string> {
    if op.DoConsume? || op.DoReimburse? then PaidIds(s.vault.credits, op.ids) else []
  }

  lemma StepUses(s: Sys, op: Op)
    requires Inv(s) && Enabled(s, op)
    ensures Uses(s.vault.credits, Step(s, op).vault.credits, Flipped(s, op))
  {
    hide SumOver;
    var credits := s.vault.credits;
    NoUse(credits);
    match op
    case DoConsume(ids) => ConsumeUses(credits, ids);
    case DoReimburse(relayer, tx, ids, rid, pay) =>
      ConsumeUses(credits, ids);
      ReimburseAlwaysPays(s, relayer, tx, ids, rid, pay);
      ExpireUses(Consume(credits, ids), pay.checked);
      if ConsumedTotal(credits, ids) > 0 {
        UsesThenNone(credits, Consume(credits, ids), Step(s, op).vault.credits, Flipped(s, op));
      }
    case DoWithdraw(_, _, _, checked, _) => ExpireUses(credits, checked);
    case DoExpire(now) => ExpireUses(credits, now);
    case DoIssue(user, proof, workScore, id, clock) => IssueUses(s, user, proof, workScore, id, clock);
    case _ =>
  }

  ghost predicate UsedIn(credits: map<string, Credit>, id: string) { id in credits && credits[id].status == Used }

  /** The k-th reimbursement pays exactly the k-th list: used credits, each once, none consumed directly, with
      its amount their sum. */
  ghost predicate ListPaid(v: Vault, h: History, k: nat)
    requires k < |h.paid| == |v.reimbursements|
  {
    Distinct(h.paid[k]) && v.reimbursements[k].amount == AmountOf(v.credits, h.paid[k])
    && forall id :: id in h.paid[k] ==> UsedIn(v.credits, id) && id !in h.direct
  }

  ghost predicate SomewherePaid(h: History, id: string) {
    id in h.direct || exists k :: 0 <= k < |h.paid| && id in h.paid[k]
  }

  /** Every reimbursement pays its own list, no credit is in two lists, and the used credits are exactly those
      in a list or consumed directly. */
  ghost predicate PaidOnce(v: Vault, h: History) {
    |h.paid| == |v.reimbursements|
    && (forall k :: 0 <= k < |h.paid| ==> ListPaid(v, h, k))
    && (forall k, l, id :: 0 <= k < l < |h.paid| && id in h.paid[k] ==> id !in h.paid[l])
    && (forall id :: id in h.direct ==> UsedIn(v.credits, id))
    && (forall id :: UsedIn(v.credits, id) ==> SomewherePaid(h, id))
  }

  /** Everything used was reimbursed or consumed directly. */
  ghost predicate Conserved(v: Vault, h: History) {
    UsedTotal(v.credits) == ReimbursedTotal(v.reimbursements) + h.directTotal
  }

  lemma ListStaysPaid(v: Vault, v': Vault, h: History, h': History, k: nat, flipped: seq<string>)
    requires |h.paid| == |v.reimbursements| && |h'.paid| == |v'.reimbursements|
    requires k < |h.paid| && k < |h'.paid| && ListPaid(v, h, k)
    requires h'.paid[k] == h.paid[k] && v'.reimbursements[k] == v.reimbursements[k]
    requires Uses(v.credits, v'.credits, flipped) && (h'.direct == h.direct || h'.direct == h.direct + flipped)
    ensures ListPaid(v', h', k)
  {
    AmountPersists(v.credits, v'.credits, h.paid[k]);
    forall id | id in h.paid[k] ensures UsedIn(v'.credits, id) && id !in h'.direct {
      assert UsedIn(v.credits, id);
    }
  }

  lemma PaidOnceUnchanged(v: Vault, v': Vault, h: History)
    requires PaidOnce(v, h) && Uses(v.credits, v'.credits, []) && v'.reimbursements == v.reimbursements
    ensures PaidOnce(v', h)
  {
    forall k | 0 <= k < |h.paid| ensures ListPaid(v', h, k) {
      ListStaysPaid(v, v', h, h, k, []);
    }
    forall id | UsedIn(v'.credits, id) ensures SomewherePaid(h, id) {
      assert UsedIn(v.credits, id);
    }
  }

  lemma PaidOnceDirect(v: Vault, v': Vault, h: History, h': History, flipped: seq<string>)
    requires PaidOnce(v, h) && Uses(v.credits, v'.credits, flipped) && v'.reimbursements == v.reimbursements
    requires h'.paid == h.paid && h'.direct == h.direct + flipped
    ensures PaidOnce(v', h')
  {
    forall k | 0 <= k < |h'.paid| ensures ListPaid(v', h', k) {
      ListStaysPaid(v, v', h, h', k, flipped);
    }
    forall id | UsedIn(v'.credits, id) ensures SomewherePaid(h', id) {
      if id !in flipped {
        assert UsedIn(v.credits, id) && SomewherePaid(h, id);
      }
    }
  }

  lemma PaidOnceMore(v: Vault, v': Vault, h: History, h': History, flipped: seq<string>, r: Reimbursement)
    requires PaidOnce(v, h) && Uses(v.credits, v'.credits, flipped)
    requires v'.reimbursements == v.reimbursements + [r] && r.amount == AmountOf(v.credits, flipped)
    requires h' == h.(paid := h.paid + [flipped])
    ensures PaidOnce(v', h')
  {
    var n := |h.paid|;
    forall k | 0 <= k < |h'.paid| ensures ListPaid(v', h', k) {
      if k < n {
        ListStaysPaid(v, v', h, h', k, flipped);
      } else {
        AmountPersists(v.credits, v'.credits, flipped);
      }
    }
    forall k, l, id | 0 <= k < l < |h'.paid| && id in h'.paid[k] ensures id !in h'.paid[l] {
      if l == n {
        assert ListPaid(v, h, k) && UsedIn(v.credits, id);
      }
    }
    forall id | UsedIn(v'.credits, id) ensures SomewherePaid(h', id) {
      if id in flipped {
        assert h'.paid[n] == flipped;
      } else {
        assert UsedIn(v.credits, id) && SomewherePaid(h, id);
        if id !in h.direct {
          var k :| 0 <= k < |h.paid| && id in h.paid[k];
          assert h'.paid[k] == h.paid[k];
        }
      }
    }
  }

  lemma StepAccounts(s: Sys, op: Op, h: History)
    requires Inv(s) && Enabled(s, op) && PaidOnce(s.vault, h) && Conserved(s.vault, h)
    ensures PaidOnce(Step(s, op).vault, Track(h, s, op)) && Conserved(Step(s, op).vault, Track(h, s, op))
  {
    hide SumOver, Inv, PaidOnce, Uses, AmountOf, PaidIds, Consume;
    StepUses(s, op);
    var s' := Step(s, op);
    UsesTotal(s.vault.credits, s'.vault.credits, Flipped(s, op));
    match op
    case DoConsume(ids) =>
      PaidOnceDirect(s.vault, s'.vault, h, Track(h, s, op), Flipped(s, op));
    case DoReimburse(relayer, tx, ids, rid, pay) =>
      ReimburseAlwaysPays(s, relayer, tx, ids, rid, pay);
      var paid := Reimburse(s, relayer, tx, ids, rid, pay).1;
      if paid.Some? {
        PaidOnceMore(s.vault, s'.vault, h, Track(h, s, op), Flipped(s, op), paid.value);
        assert (s.vault.reimbursements + [paid.value])[..|s.vault.reimbursements|] == s.vault.reimbursements;
      } else {
        EmptyAmount(s.vault.credits);
        RefusedUnchanged(s, relayer, tx, ids, rid, pay);
        PaidOnceUnchanged(s.vault, s'.vault, h);
      }
    case _ =>
      EmptyAmount(s.vault.credits);
      PaidOnceUnchanged(s.vault, s'.vault, h);
  }

  lemma UsesTotal(credits: map<string, Credit>, credits': map<string, Credit>, flipped: seq<string>)
    requires Uses(credits, credits', flipped)
    ensures UsedTotal(credits') == UsedTotal(credits) + AmountOf(credits, flipped)
  {
  }

  lemma EmptyAmount(credits: map<string, Credit>)
    ensures AmountOf(credits, []) == 0
  {
  }

  lemma RefusedUnchanged(s: Sys, relayer: string, tx: string, ids: seq<string>, rid: string, t: PayClock)
    requires Reimburse(s, relayer, tx, ids, rid, t).1 == None
    ensures Reimburse(s, relayer, tx, ids, rid, t).0.vault.reimbursements == s.vault.reimbursements
  {
    hide SumOver, AmountOf, PaidIds, Consume;
  }

  lemma {:induction false} RunAccounts(s: Sys, ops: seq<Op>, h: History)
    requires Inv(s) && ValidRun(s, ops) && PaidOnce(s.vault, h) && Conserved(s.vault, h)
    ensures PaidOnce(Run(s, ops).vault, RunHistory(h, s, ops)) && Conserved(Run(s, ops).vault, RunHistory(h, s, ops))
    decreases |ops|
  {
    hide Inv, PaidOnce, Conserved, Step, Track, Enabled;
    if ops != [] {
      StepKeeps(s, ops[0]);
      StepAccounts(s, ops[0], h);
      RunAccounts(Step(s, ops[0]), ops[1..], Track(h, s, ops[0]));
    }
  }

  const NOTHING_PAID: History := History([], [], 0)

  /** Conservation over whole runs of a new vault: each used credit was paid for in exactly one reimbursement or
      consumed directly, and the used total is the reimbursed total plus what was consumed directly. */
  lemma CreditsConserved(initial: int, book: Book, ops: seq<Op>)
    requires initial >= 0 && ValidRun(NewVault(initial, book), ops)
    ensures
      var s := NewVault(initial, book);
      PaidOnce(Run(s, ops).vault, RunHistory(NOTHING_PAID, s, ops))
      && Conserved(Run(s, ops).vault, RunHistory(NOTHING_PAID, s, ops))
  {
    NewVaultHolds(initial, book);
    RunAccounts(NewVault(initial, book), ops, NOTHING_PAID);
  }

  lemma {:induction false} NothingDirect(s: Sys, ops: seq<Op>, h: History)
    requires forall i :: 0 <= i < |ops| ==> !ops[i].DoConsume?
    ensures RunHistory(h, s, ops).directTotal == h.directTotal && RunHistory(h, s, ops).direct == h.direct
    decreases |ops|
  {
    if ops != [] {
      NothingDirect(Step(s, ops[0]), ops[1..], Track(h, s, ops[0]));
    }
  }

  /** When credits are consumed only through reimbursement: reserves replay from the log, the reimbursed total is
      the used total, and every used credit is in the list of exactly one reimbursement. */
  lemma ReimbursementsBalance(initial: int, book: Book, ops: seq<Op>, id: string)
    requires initial >= 0 && ValidRun(NewVault(initial, book), ops)
    requires forall i :: 0 <= i < |ops| ==> !ops[i].DoConsume?
    ensures
      var s := NewVault(initial, book);
      var (v, b, h) := (Run(s, ops).vault, Run(s, ops).book, RunHistory(NOTHING_PAID, s, ops));
      v.reserves == initial + Replay(b.entries) - Replay(book.entries)
      && ReimbursedTotal(v.reimbursements) == UsedTotal(v.credits)
      && |h.paid| == |v.reimbursements|
      && (UsedIn(v.credits, id) <==> exists k :: 0 <= k < |h.paid| && id in h.paid[k])
      && (forall k, l :: 0 <= k < |h.paid| && 0 <= l < |h.paid| && id in h.paid[k] && id in h.paid[l] ==> k == l)
  {
    hide SumOver, Run, RunHistory, ValidRun;
    var s := NewVault(initial, book);
    CreditsConserved(initial, book, ops);
    NothingDirect(s, ops, NOTHING_PAID);
    ReservesReplay(s, ops);
    var v, h := Run(s, ops).vault, RunHistory(NOTHING_PAID, s, ops);
    if k :| 0 <= k < |h.paid| && id in h.paid[k] {
      assert ListPaid(v, h, k);
    }
    if UsedIn(v.credits, id) {
      assert SomewherePaid(h, id);
    }
  }

  // ---- Recorded id lists ----

  /** Every reimbursement on record lists exactly the credits it paid for. */
  ghost predicate RecordsPaid(v: Vault, h: History) {
    |h.paid| == |v.reimbursements| && forall k :: 0 <= k < |h.paid| ==> h.paid[k] == v.reimbursements[k].creditIds
  }

  /** A call that pays names no credit twice and only active ones. */
  ghost predicate NamesActive(s: Sys, op: Op) {
    op.DoReimburse? && Reimburse(s, op.relayer, op.tx, op.ids, op.rid, op.pay).1.Some? ==>
      Distinct(op.ids) && forall id :: id in op.ids ==> Consumable(s.vault.credits, id)
  }

  ghost predicate NamesActiveRun(s: Sys, ops: seq<Op>)
    decreases |ops|
  {
    ops == [] || (NamesActive(s, ops[0]) && NamesActiveRun(Step(s, ops[0]), ops[1..]))
  }

  lemma StepRecords(s: Sys, op: Op, h: History)
    requires |h.paid| == |s.vault.reimbursements|
    ensures
      var v', h' := Step(s, op).vault, Track(h, s, op);
      |h'.paid| == |v'.reimbursements| && (RecordsPaid(v', h') <==> RecordsPaid(s.vault, h) && NamesActive(s, op))
  {
    hide SumOver, PaidIds, Consume, AmountOf, ExpireAll, Distinct, Consumable, OfType;
    if op.DoReimburse? {
      var (s', r) := Reimburse(s, op.relayer, op.tx, op.ids, op.rid, op.pay);
      if r.Some? {
        PaysAllExactly(s.vault.credits, op.ids);
        RecordsMore(s.vault, s'.vault, h, PaidIds(s.vault.credits, op.ids), r.value);
      } else {
        RefusedUnchanged(s, op.relayer, op.tx, op.ids, op.rid, op.pay);
      }
    }
  }

  lemma RecordsMore(v: Vault, v': Vault, h: History, paid: seq<string>, r: Reimbursement)
    requires |h.paid| == |v.reimbursements| && v'.reimbursements == v.reimbursements + [r]
    ensures RecordsPaid(v', h.(paid := h.paid + [paid])) <==> RecordsPaid(v, h) && paid == r.creditIds
  {
    var h' := h.(paid := h.paid + [paid]);
    var n := |h.paid|;
    assert h'.paid[n] == paid && v'.reimbursements[n] == r;
    assert forall k :: 0 <= k < n ==> h'.paid[k] == h.paid[k] && v'.reimbursements[k] == v.reimbursements[k];
  }

  /** Exact, over runs: the recorded lists are the paid lists if and only if every paying call named no credit
      twice and only active ones. */
  lemma {:induction false} RecordsPaidExactly(s: Sys, ops: seq<Op>, h: History)
    requires |h.paid| == |s.vault.reimbursements|
    ensures RecordsPaid(Run(s, ops).vault, RunHistory(h, s, ops)) <==> RecordsPaid(s.vault, h) && NamesActiveRun(s, ops)
    decreases |ops|
  {
    hide Step, Track, NamesActive, RecordsPaid;
    if ops != [] {
      StepRecords(s, ops[0], h);
      RecordsPaidExactly(Step(s, ops[0]), ops[1..], Track(h, s, ops[0]));
    }
  }

  /** Then every recorded list names used credits, each once and in one list only, and its amount is their sum. */
  lemma RecordedListsDisjoint(initial: int, book: Book, ops: seq<Op>, k: nat, l: nat, id: string)
    requires initial >= 0 && ValidRun(NewVault(initial, book), ops) && NamesActiveRun(NewVault(initial, book), ops)
    requires k < |Run(NewVault(initial, book), ops).vault.reimbursements|
    requires l < |Run(NewVault(initial, book), ops).vault.reimbursements|
    ensures
      var v := Run(NewVault(initial, book), ops).vault;
      var r := v.reimbursements[k];
      Distinct(r.creditIds) && r.amount == AmountOf(v.credits, r.creditIds)
      && (id in r.creditIds ==> UsedIn(v.credits, id))
      && (id in r.creditIds && id in v.reimbursements[l].creditIds ==> k == l)
  {
    hide SumOver, Run, RunHistory, ValidRun, NamesActiveRun;
    var s := NewVault(initial, book);
    CreditsConserved(initial, book, ops);
    RecordsPaidExactly(s, ops, NOTHING_PAID);
    var v, h := Run(s, ops).vault, RunHistory(NOTHING_PAID, s, ops);
    assert ListPaid(v, h, k);
    assert h.paid[k] == v.reimbursements[k].creditIds && h.paid[l] == v.reimbursements[l].creditIds;
  }

  /** The id list a reimbursement records is the one the caller sent: it may name a credit that an earlier
      reimbursement already paid for, and that credit is not paid again. */
  lemma RecordedListMayRepeat(s: Sys, a: string, b: string, relayer: string, tx: string, rid: string, t: PayClock)
    requires Inv(s) && UsedIn(s.vault.credits, a) && Consumable(s.vault.credits, b)
    ensures
      var r := Reimburse(s, relayer, tx, [a, b], rid, t).1;
      r.Some? && r.value.creditIds == [a, b] && r.value.amount == s.vault.credits[b].amount
  {
    hide Inv, Consume, PaidIds, AmountOf, SumOver, ExpireAll;
    ReimburseAlwaysPays(s, relayer, tx, [a, b], rid, t);
    SecondOnly(s.vault.credits, a, b);
    GoodCredit(s, b);
    RecordsRequest(s, relayer, tx, [a, b], rid, t);
  }

  lemma SecondOnly(credits: map<string, Credit>, a: string, b: string)
    requires UsedIn(credits, a) && Consumable(credits, b)
    ensures ConsumedTotal(credits, [a, b]) == credits[b].amount
  {
    assert [a, b][..1] == [a] && [a][..0] == [];
    ConsumeFlips(credits, [a]);
    assert PaidIds(credits, [a]) == [];
    assert Consume(credits, [a]) == credits;
    assert PaidIds(credits, [a, b]) == [b];
    AmountOfAppend(credits, [], b);
    assert [] + [b] == [b];
  }

  lemma GoodCredit(s: Sys, id: string)
    requires Inv(s) && id in s.vault.credits
    ensures s.vault.credits[id].amount > 0
  {
    assert CreditGood(id, s.vault.credits[id]);
  }

  lemma RecordsRequest(s: Sys, relayer: string, tx: string, ids: seq<string>, rid: string, t: PayClock)
    ensures
      var r := Reimburse(s, relayer, tx, ids, rid, t).1;
      r.Some? ==> r.value.creditIds == ids
  {
    hide Consume, PaidIds, AmountOf, SumOver, ExpireAll;
  }
}
