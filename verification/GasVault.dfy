/** Fee credits and relayer reimbursement. The transition functions give the meaning of each vault call on the
    pair of vault and shared log; the lemmas speak about every interleaving of calls. Each clock reading of a
    call is a parameter of its own. */
module GasVault {
  import opened Wrappers
  import opened Sums
  import opened ProofBook

  const CREDIT_EXPIRY: real := 86400.0
  const MAX_CREDIT: int := 10_000_000_000
  const PROOF_LOOKBACK: int := 50

  datatype Status = Active | Used | Expired | Revoked

  datatype Credit = Credit(
    creditId: string, user: string, amount: int, issuedAt: real, expiresAt: real, proofRef: Hash, status: Status)

  datatype Reimbursement = Reimbursement(
    reimbursementId: string, relayer: string, amount: int, txSignature: string, creditIds: seq<string>,
    reimbursedAt: real, coverageAfter: Coverage)

  datatype Vault = Vault(
    reserves: int, credits: map<string, Credit>, userCredits: map<string, seq<string>>, reimbursements: seq<Reimbursement>)

  datatype Sys = Sys(vault: Vault, book: Book)

  // ---- Measures ----

  function ActiveAmount(c: Credit): int { if c.status == Active then c.amount else 0 }
  function UsedAmount(c: Credit): int { if c.status == Used then c.amount else 0 }
  function UserAmount(user: string): Credit -> int { (c: Credit) => if c.user == user then ActiveAmount(c) else 0 }

  ghost function Outstanding(credits: map<string, Credit>): int { SumOver(credits, ActiveAmount) }
  ghost function UsedTotal(credits: map<string, Credit>): int { SumOver(credits, UsedAmount) }
  ghost function UserActive(credits: map<string, Credit>, user: string): int { SumOver(credits, UserAmount(user)) }

  function IndexOf(index: map<string, seq<string>>, user: string): seq<string> { if user in index then index[user] else [] }

  /** The sum the vault computes through its per-user index. */
  function IndexedActive(credits: map<string, Credit>, ids: seq<string>): int {
    if ids == [] then 0
    else
      var n := |ids| - 1;
      IndexedActive(credits, ids[..n]) + if ids[n] in credits then ActiveAmount(credits[ids[n]]) else 0
  }

  // ---- Transitions ----

  function ExpireOne(c: Credit, now: real): Credit {
    if c.status == Active && now >= c.expiresAt then c.(status := Expired) else c
  }

  function ExpireAll(credits: map<string, Credit>, now: real): map<string, Credit> {
    map k | k in credits :: ExpireOne(credits[k], now)
  }

  function Expire(v: Vault, now: real): Vault { v.(credits := ExpireAll(v.credits, now)) }

  ghost function CoverageOf(reserves: int, credits: map<string, Credit>): Coverage {
    if Outstanding(credits) == 0 then Unbounded else Ratio(reserves as real / Outstanding(credits) as real)
  }

  predicate BelowMinimum(c: Coverage) { c.Ratio? && c.value < 1.5 }

  function Deposit(s: Sys, amount: int, source: string, now: real): Sys {
    var r := s.vault.reserves + amount;
    Sys(s.vault.(reserves := r), Appended(s.book, Treasury, Deposited(amount, source, r), now))
  }

  ghost function Withdraw(s: Sys, amount: int, destination: string, reason: string, checked: real, logged: real): (Sys, bool) {
    if amount > s.vault.reserves then (s, false)
    else
      var v := Expire(s.vault, checked);
      if BelowMinimum(CoverageOf(v.reserves - amount, v.credits)) then (Sys(v, s.book), false)
      else
        var r := v.reserves - amount;
        (Sys(v.(reserves := r), Appended(s.book, Treasury, Withdrawn(amount, destination, reason, r), logged)), true)
  }

  predicate ProofOnRecord(b: Book, proof: Hash) {
    exists e :: e in Latest(OfType(b.entries, ZkCompute), PROOF_LOOKBACK) && e.entryHash == proof
  }

  /** int(): truncation toward zero. */
  function Truncate(x: real): int { if x >= 0.0 then x.Floor else -((-x).Floor) }

  function CreditFor(workScore: real, userTotal: int): int {
    var earned := Truncate(workScore * 100_000_000.0);
    if earned < MAX_CREDIT - userTotal then earned else MAX_CREDIT - userTotal
  }

  ghost predicate CanCover(v: Vault, extra: int) {
    var total := Outstanding(v.credits) + extra;
    total == 0 || v.reserves as real / total as real >= 1.5
  }

  datatype IssueClock = IssueClock(capCheck: real, coverCheck: real, issued: real, expiryFrom: real, logged: real)

  function WithCredit(v: Vault, c: Credit): Vault {
    v.(credits := v.credits[c.creditId := c],
       userCredits := v.userCredits[c.user := IndexOf(v.userCredits, c.user) + [c.creditId]])
  }

  ghost function Grant(s: Sys, user: string, proof: Hash, amount: int, id: string, t: IssueClock): (Sys, Credit) {
    var c := Credit(id, user, amount, t.issued, t.expiryFrom + CREDIT_EXPIRY, proof, Active);
    (Sys(WithCredit(s.vault, c), Appended(s.book, FeeCredit, CreditIssued(id, user, amount, proof, c.expiresAt), t.logged)), c)
  }

  ghost function Issue(s: Sys, user: string, proof: Hash, workScore: real, id: string, t: IssueClock): (Sys, Option<Credit>) {
    if !ProofOnRecord(s.book, proof) then (s, None)
    else
      var v := Sys(Expire(s.vault, t.capCheck), s.book);
      var userTotal := IndexedActive(v.vault.credits, IndexOf(v.vault.userCredits, user));
      var amount := CreditFor(workScore, userTotal);
      if userTotal >= MAX_CREDIT || amount <= 0 then (v, None)
      else
        var w := Sys(Expire(v.vault, t.coverCheck), s.book);
        if !CanCover(w.vault, amount) then (w, None)
        else
          var (granted, c) := Grant(w, user, proof, amount, id, t);
          (granted, Some(c))
  }

  predicate Consumable(credits: map<string, Credit>, id: string) { id in credits && credits[id].status == Active }

  /** The credits after the ids are consumed in order. */
  function Consume(credits: map<string, Credit>, ids: seq<string>): map<string, Credit> {
    if ids == [] then credits
    else
      var n := |ids| - 1;
      var before := Consume(credits, ids[..n]);
      if Consumable(before, ids[n]) then before[ids[n] := before[ids[n]].(status := Used)] else before
  }

  /** The ids that are actually flipped, in order. */
  function PaidIds(credits: map<string, Credit>, ids: seq<string>): seq<string> {
    if ids == [] then []
    else
      var n := |ids| - 1;
      var before := PaidIds(credits, ids[..n]);
      if Consumable(Consume(credits, ids[..n]), ids[n]) then before + [ids[n]] else before
  }

  function AmountOf(credits: map<string, Credit>, ids: seq<string>): int {
    if ids == [] then 0
    else
      var n := |ids| - 1;
      AmountOf(credits, ids[..n]) + if ids[n] in credits then credits[ids[n]].amount else 0
  }

  function ConsumedTotal(credits: map<string, Credit>, ids: seq<string>): int { AmountOf(credits, PaidIds(credits, ids)) }

  datatype PayClock = PayClock(checked: real, paid: real, logged: real)

  /** The payment itself, on the state whose stale credits are already expired. */
  ghost function Settle(s: Sys, total: int, relayer: string, tx: string, ids: seq<string>, rid: string,
                        t: PayClock): (Sys, Reimbursement) {
    var left := s.vault.reserves - total;
    var coverage := CoverageOf(left, s.vault.credits);
    var r := Reimbursement(rid, relayer, total, tx, ids, t.paid, coverage);
    (Sys(s.vault.(reserves := left, reimbursements := s.vault.reimbursements + [r]),
         Appended(s.book, Treasury, Reimbursed(relayer, total, tx, coverage), t.logged)),
     r)
  }

  ghost function Reimburse(s: Sys, relayer: string, tx: string, ids: seq<string>, rid: string,
                           t: PayClock): (Sys, Option<Reimbursement>) {
    var total := ConsumedTotal(s.vault.credits, ids);
    var v := Sys(s.vault.(credits := Consume(s.vault.credits, ids)), s.book);
    if total <= 0 || total > v.vault.reserves then (v, None)
    else
      var w := Sys(Expire(v.vault, t.checked), v.book);
      if BelowMinimum(CoverageOf(w.vault.reserves - total, w.vault.credits)) then (w, None)
      else
        var (paid, r) := Settle(w, total, relayer, tx, ids, rid, t);
        (paid, Some(r))
  }

  /** What a reimbursement records of its call. */
  ghost predicate Receipted(r: Reimbursement, relayer: string, tx: string, ids: seq<string>, total: int) {
    r.relayer == relayer && r.txSignature == tx && r.creditIds == ids && r.amount == total
  }

  // ---- The invariant ----

  ghost predicate OnLedger(b: Book, proof: Hash) {
    exists i :: 0 <= i < |b.entries| && b.entries[i].proofType == ZkCompute && b.entries[i].entryHash == proof
  }

  ghost predicate CreditGood(id: string, c: Credit) { c.creditId == id && c.amount > 0 }

  ghost predicate CreditsGood(credits: map<string, Credit>) {
    forall id :: id in credits ==> CreditGood(id, credits[id])
  }

  ghost predicate Backed(s: Sys) {
    forall id :: id in s.vault.credits ==> OnLedger(s.book, s.vault.credits[id].proofRef)
  }

  ghost predicate Distinct(ids: seq<string>) { forall i, j :: 0 <= i < j < |ids| ==> ids[i] != ids[j] }

  /** The list of a user holds only credits of that user, each once. */
  ghost predicate ListGood(credits: map<string, Credit>, index: map<string, seq<string>>, u: string) {
    var ids := IndexOf(index, u);
    Distinct(ids) && forall id :: id in ids ==> id in credits && credits[id].user == u
  }

  ghost predicate Listed(credits: map<string, Credit>, index: map<string, seq<string>>, id: string)
    requires id in credits
  {
    id in IndexOf(index, credits[id].user)
  }

  /** The index lists every credit once, under its own user. */
  ghost predicate IndexGood(credits: map<string, Credit>, index: map<string, seq<string>>) {
    (forall u :: ListGood(credits, index, u)) && (forall id :: id in credits ==> Listed(credits, index, id))
  }

  ghost predicate Covered(v: Vault) { 2 * v.reserves >= 3 * Outstanding(v.credits) }

  ghost predicate Capped(credits: map<string, Credit>) { forall u :: UserActive(credits, u) <= MAX_CREDIT }

  ghost predicate Inv(s: Sys) {
    CreditsGood(s.vault.credits) && Backed(s) && IndexGood(s.vault.credits, s.vault.userCredits)
    && Covered(s.vault) && Capped(s.vault.credits)
  }

  // ---- Expiry and consumption only release credits ----

  /** c' differs from c only in status, and an active credit of c' was active in c. */
  ghost predicate Released(c: Credit, c': Credit) {
    c' == c.(status := c'.status) && (c'.status == Active ==> c.status == Active)
  }

  ghost predicate AllReleased(credits: map<string, Credit>, credits': map<string, Credit>) {
    credits'.Keys == credits.Keys && forall id :: id in credits ==> Released(credits[id], credits'[id])
  }

  lemma ReleaseLowersSums(credits: map<string, Credit>, credits': map<string, Credit>)
    requires AllReleased(credits, credits') && CreditsGood(credits)
    ensures CreditsGood(credits')
    ensures 0 <= Outstanding(credits') <= Outstanding(credits)
    ensures forall u :: UserActive(credits', u) <= UserActive(credits, u)
  {
    forall id | id in credits' ensures CreditGood(id, credits'[id]) {
      assert CreditGood(id, credits[id]) && Released(credits[id], credits'[id]);
    }
    forall id | id in credits ensures ActiveAmount(credits'[id]) <= ActiveAmount(credits[id]) {
      assert CreditGood(id, credits[id]) && Released(credits[id], credits'[id]);
    }
    SumCompare(credits', credits, ActiveAmount);
    SumNonNegative(credits', ActiveAmount);
    forall u ensures UserActive(credits', u) <= UserActive(credits, u) {
      SumCompare(credits', credits, UserAmount(u));
    }
  }

  lemma ReleaseKeepsIndex(credits: map<string, Credit>, credits': map<string, Credit>, index: map<string, seq<string>>)
    requires AllReleased(credits, credits') && IndexGood(credits, index)
    ensures IndexGood(credits', index)
  {
    forall u ensures ListGood(credits', index, u) {
      assert ListGood(credits, index, u);
      forall id | id in IndexOf(index, u) ensures id in credits' && credits'[id].user == u {
        assert Released(credits[id], credits'[id]);
      }
    }
    forall id | id in credits' ensures Listed(credits', index, id) {
      assert Listed(credits, index, id) && Released(credits[id], credits'[id]);
    }
  }

  lemma ReleaseKeepsBacking(s: Sys, credits': map<string, Credit>)
    requires Backed(s) && AllReleased(s.vault.credits, credits')
    ensures Backed(Sys(s.vault.(credits := credits'), s.book))
  {
    forall id | id in credits' ensures OnLedger(s.book, credits'[id].proofRef) {
      assert Released(s.vault.credits[id], credits'[id]);
    }
  }

  lemma ReleaseKeeps(s: Sys, credits': map<string, Credit>)
    requires Inv(s) && AllReleased(s.vault.credits, credits')
    ensures Inv(Sys(s.vault.(credits := credits'), s.book))
  {
    hide SumOver;
    ReleaseLowersSums(s.vault.credits, credits');
    ReleaseKeepsBacking(s, credits');
    ReleaseKeepsIndex(s.vault.credits, credits', s.vault.userCredits);
  }

  lemma ExpireReleases(credits: map<string, Credit>, now: real)
    ensures AllReleased(credits, ExpireAll(credits, now))
  {
  }

  // ---- What consumption does ----

  /** Consumption flips exactly the requested credits that were active, each once, and nothing else. */
  lemma {:induction false} ConsumeFlips(credits: map<string, Credit>, ids: seq<string>)
    ensures forall id :: id in PaidIds(credits, ids) <==> id in ids && Consumable(credits, id)
    ensures Distinct(PaidIds(credits, ids))
    ensures Consume(credits, ids).Keys == credits.Keys
    ensures forall id :: id in credits ==>
      Consume(credits, ids)[id] == if id in PaidIds(credits, ids) then credits[id].(status := Used) else credits[id]
    decreases |ids|
  {
    if ids != [] {
      var n := |ids| - 1;
      ConsumeFlips(credits, ids[..n]);
      assert ids == ids[..n] + [ids[n]];
    }
  }

  /** Exact: every requested credit is paid for, in order, if and only if the list has no repetition and every
      credit it names is active. */
  lemma PaysAllExactly(credits: map<string, Credit>, ids: seq<string>)
    ensures PaidIds(credits, ids) == ids <==> Distinct(ids) && forall id :: id in ids ==> Consumable(credits, id)
  {
    ConsumeFlips(credits, ids);
    if Distinct(ids) && forall id :: id in ids ==> Consumable(credits, id) {
      PaysDistinct(credits, ids);
    }
  }

  lemma {:induction false} PaysDistinct(credits: map<string, Credit>, ids: seq<string>)
    requires Distinct(ids) && forall id :: id in ids ==> Consumable(credits, id)
    ensures PaidIds(credits, ids) == ids
    decreases |ids|
  {
    if ids != [] {
      var n := |ids| - 1;
      PaysDistinct(credits, ids[..n]);
      ConsumeFlips(credits, ids[..n]);
      assert ids[n] !in PaidIds(credits, ids[..n]);
      assert ids[n] in ids && Consumable(Consume(credits, ids[..n]), ids[n]);
      assert ids == ids[..n] + [ids[n]];
    }
  }

  lemma ConsumeReleases(credits: map<string, Credit>, ids: seq<string>)
    ensures AllReleased(credits, Consume(credits, ids))
  {
    ConsumeFlips(credits, ids);
  }

  lemma AmountOfAppend(credits: map<string, Credit>, ids: seq<string>, id: string)
    requires id in credits
    ensures AmountOf(credits, ids + [id]) == AmountOf(credits, ids) + credits[id].amount
  {
    assert (ids + [id])[..|ids|] == ids;
  }

  /** Consumption moves its total from the active to the used sum. */
  lemma {:induction false} ConsumeMoves(credits: map<string, Credit>, ids: seq<string>)
    requires CreditsGood(credits)
    ensures Outstanding(Consume(credits, ids)) == Outstanding(credits) - ConsumedTotal(credits, ids)
    ensures UsedTotal(Consume(credits, ids)) == UsedTotal(credits) + ConsumedTotal(credits, ids)
    ensures ConsumedTotal(credits, ids) >= 0
    decreases |ids|
  {
    if ids != [] {
      var n := |ids| - 1;
      var id, before := ids[n], Consume(credits, ids[..n]);
      ConsumeMoves(credits, ids[..n]);
      if Consumable(before, id) {
        ConsumeFlips(credits, ids[..n]);
        assert CreditGood(id, credits[id]) && before[id] == credits[id];
        SumPut(before, ActiveAmount, id, before[id].(status := Used));
        SumPut(before, UsedAmount, id, before[id].(status := Used));
        AmountOfAppend(credits, PaidIds(credits, ids[..n]), id);
      }
    }
  }

  // ---- Coverage as arithmetic ----

  lemma QuotientAtLeast(r: int, total: int)
    requires total > 0
    ensures r as real / total as real >= 1.5 <==> 2 * r >= 3 * total
  {
    var q, t := r as real / total as real, total as real;
    assert q * t == r as real;
    if q >= 1.5 {
      RealScale(1.5, q, t);
    } else {
      RealScale(q, 1.5, t);
      assert q * t != 1.5 * t by { assert (1.5 - q) * t != 0.0; }
    }
  }

  lemma RealScale(a: real, b: real, t: real)
    requires a <= b && t >= 0.0
    ensures a * t <= b * t
  {
    assert (b - a) * t >= 0.0;
  }

  lemma CoverageMeans(r: int, credits: map<string, Credit>)
    requires Outstanding(credits) >= 0
    ensures BelowMinimum(CoverageOf(r, credits)) <==> Outstanding(credits) > 0 && 2 * r < 3 * Outstanding(credits)
  {
    if Outstanding(credits) > 0 {
      QuotientAtLeast(r, Outstanding(credits));
    }
  }

  // ---- The index ----

  lemma {:induction false} IndexedSplit(credits: map<string, Credit>, ids: seq<string>, u: string)
    requires Distinct(ids) && forall id :: id in ids ==> id in credits && credits[id].user == u
    ensures UserActive(credits, u) == IndexedActive(credits, ids) + UserActive(credits - (set id | id in ids), u)
    decreases |ids|
  {
    hide SumOver;
    if ids == [] {
      assert credits - (set id | id in ids) == credits;
    } else {
      var n := |ids| - 1;
      var x, rest := ids[n], credits - (set id | id in ids[..n]);
      IndexedSplit(credits, ids[..n], u);
      assert x in rest by { assert x !in ids[..n]; }
      SumTake(rest, UserAmount(u), x);
      assert rest - {x} == credits - (set id | id in ids) by { assert ids == ids[..n] + [x]; }
    }
  }

  /** The per-user index sums to the same value as filtering all credits by user. */
  lemma IndexAgrees(credits: map<string, Credit>, index: map<string, seq<string>>, u: string)
    requires IndexGood(credits, index)
    ensures IndexedActive(credits, IndexOf(index, u)) == UserActive(credits, u)
  {
    var ids := IndexOf(index, u);
    assert ListGood(credits, index, u);
    IndexedSplit(credits, ids, u);
    var rest := credits - (set id | id in ids);
    forall id | id in rest ensures UserAmount(u)(rest[id]) == 0 {
      assert Listed(credits, index, id);
    }
    SumZero(rest, UserAmount(u));
  }

  // ---- Each call keeps the invariant ----

  lemma AppendKeepsBacking(s: Sys, proofType: ProofType, data: Payload, now: real)
    requires Backed(s)
    ensures Backed(s.(book := Appended(s.book, proofType, data, now)))
  {
    forall id | id in s.vault.credits ensures OnLedger(Appended(s.book, proofType, data, now), s.vault.credits[id].proofRef) {
      LedgerGrows(s.book, proofType, data, now, s.vault.credits[id].proofRef);
    }
  }

  lemma LedgerGrows(b: Book, proofType: ProofType, data: Payload, now: real, proof: Hash)
    requires OnLedger(b, proof)
    ensures OnLedger(Appended(b, proofType, data, now), proof)
  {
    var i :| 0 <= i < |b.entries| && b.entries[i].proofType == ZkCompute && b.entries[i].entryHash == proof;
    var b' := Appended(b, proofType, data, now);
    assert b'.entries[i] == b.entries[i];
  }

  lemma ExpireKeeps(s: Sys, now: real)
    requires Inv(s)
    ensures Inv(Sys(Expire(s.vault, now), s.book))
    ensures 0 <= Outstanding(Expire(s.vault, now).credits) <= Outstanding(s.vault.credits)
    ensures forall u :: UserActive(Expire(s.vault, now).credits, u) <= UserActive(s.vault.credits, u)
  {
    hide SumOver;
    ExpireReleases(s.vault.credits, now);
    ReleaseKeeps(s, ExpireAll(s.vault.credits, now));
    ReleaseLowersSums(s.vault.credits, ExpireAll(s.vault.credits, now));
  }

  /** Any change of reserves that stays covered keeps the invariant. */
  lemma ReservesKeep(s: Sys, reserves: int, rs: seq<Reimbursement>, data: Payload, now: real)
    requires Inv(s) && 2 * reserves >= 3 * Outstanding(s.vault.credits)
    ensures Inv(Sys(s.vault.(reserves := reserves, reimbursements := rs), Appended(s.book, Treasury, data, now)))
  {
    hide SumOver;
    AppendKeepsBacking(s, Treasury, data, now);
  }

  /** The guard that withdraw_sol applies and deposit_sol does not. */
  ghost predicate DepositSafe(v: Vault, amount: int) {
    v.reserves + amount >= 0 && !BelowMinimum(CoverageOf(v.reserves + amount, v.credits))
  }

  /** A deposit, of any sign, keeps the invariant exactly when the withdrawal guard would let it pass; one that is
      not negative always does. */
  lemma DepositKeepsExactly(s: Sys, amount: int, source: string, now: real)
    requires Inv(s)
    ensures Inv(Deposit(s, amount, source, now)) <==> DepositSafe(s.vault, amount)
    ensures amount >= 0 ==> DepositSafe(s.vault, amount)
  {
    hide SumOver;
    var r := s.vault.reserves + amount;
    AllReleasedRefl(s.vault.credits);
    ReleaseLowersSums(s.vault.credits, s.vault.credits);
    CoverageMeans(r, s.vault.credits);
    if DepositSafe(s.vault, amount) {
      ReservesKeep(s, r, s.vault.reimbursements, Deposited(amount, source, r), now);
    }
  }

  lemma WithdrawKeeps(s: Sys, amount: int, destination: string, reason: string, checked: real, logged: real)
    requires Inv(s)
    ensures Inv(Withdraw(s, amount, destination, reason, checked, logged).0)
  {
    hide SumOver, Backed, IndexGood, Capped, CreditsGood, ExpireAll;
    if amount <= s.vault.reserves {
      ExpireKeeps(s, checked);
      var v := Expire(s.vault, checked);
      var r := v.reserves - amount;
      CoverageMeans(r, v.credits);
      if !BelowMinimum(CoverageOf(r, v.credits)) {
        ReservesKeep(Sys(v, s.book), r, v.reimbursements, Withdrawn(amount, destination, reason, r), logged);
      }
    }
  }

  /** A withdrawal is granted exactly when the amount is there and what remains covers the unexpired credits 1.5
      times; then, and only then, the reserves drop by it. */
  lemma WithdrawGrantedExactly(s: Sys, amount: int, destination: string, reason: string, checked: real, logged: real)
    requires Inv(s)
    ensures
      var (s', done) := Withdraw(s, amount, destination, reason, checked, logged);
      var left := s.vault.reserves - amount;
      (done <==> left >= 0 && 2 * left >= 3 * Outstanding(ExpireAll(s.vault.credits, checked)))
      && s'.vault.reserves == if done then left else s.vault.reserves
  {
    hide SumOver;
    ExpireKeeps(s, checked);
    CoverageMeans(s.vault.reserves - amount, ExpireAll(s.vault.credits, checked));
  }

  lemma RecordedOnLedger(b: Book, proof: Hash)
    requires ProofOnRecord(b, proof)
    ensures OnLedger(b, proof)
  {
    OfTypeMembers(b.entries, ZkCompute);
    var e :| e in Latest(OfType(b.entries, ZkCompute), PROOF_LOOKBACK) && e.entryHash == proof;
    assert e in b.entries;
  }

  lemma CreditKeepsIndex(v: Vault, c: Credit)
    requires IndexGood(v.credits, v.userCredits) && c.creditId !in v.credits
    ensures IndexGood(WithCredit(v, c).credits, WithCredit(v, c).userCredits)
  {
    var w := WithCredit(v, c);
    forall u ensures ListGood(w.credits, w.userCredits, u) {
      assert ListGood(v.credits, v.userCredits, u);
      assert IndexOf(w.userCredits, u) == IndexOf(v.userCredits, u) + if u == c.user then [c.creditId] else [];
    }
    forall id | id in w.credits ensures Listed(w.credits, w.userCredits, id) {
      if id != c.creditId { assert Listed(v.credits, v.userCredits, id); }
    }
  }

  lemma CreditKeepsCap(v: Vault, c: Credit)
    requires Capped(v.credits) && c.creditId !in v.credits && c.status == Active
    requires UserActive(v.credits, c.user) + c.amount <= MAX_CREDIT
    ensures Capped(WithCredit(v, c).credits)
    ensures Outstanding(WithCredit(v, c).credits) == Outstanding(v.credits) + c.amount
  {
    forall u ensures UserActive(WithCredit(v, c).credits, u) <= MAX_CREDIT {
      SumPut(v.credits, UserAmount(u), c.creditId, c);
      assert UserActive(v.credits, u) <= MAX_CREDIT;
    }
    SumPut(v.credits, ActiveAmount, c.creditId, c);
  }

  lemma CreditKeeps(s: Sys, c: Credit, now: real)
    requires Inv(s) && c.creditId !in s.vault.credits && c.status == Active && c.amount > 0 && OnLedger(s.book, c.proofRef)
    requires UserActive(s.vault.credits, c.user) + c.amount <= MAX_CREDIT && CanCover(s.vault, c.amount)
    ensures
      var issued := CreditIssued(c.creditId, c.user, c.amount, c.proofRef, c.expiresAt);
      Inv(Sys(WithCredit(s.vault, c), Appended(s.book, FeeCredit, issued, now)))
  {
    hide SumOver;
    CreditKeepsIndex(s.vault, c);
    CreditKeepsCap(s.vault, c);
    var t := Sys(WithCredit(s.vault, c), s.book);
    AllReleasedRefl(s.vault.credits);
    ReleaseLowersSums(s.vault.credits, s.vault.credits);
    QuotientAtLeast(s.vault.reserves, Outstanding(s.vault.credits) + c.amount);
    AppendKeepsBacking(t, FeeCredit, CreditIssued(c.creditId, c.user, c.amount, c.proofRef, c.expiresAt), now);
  }

  lemma AllReleasedRefl(credits: map<string, Credit>)
    ensures AllReleased(credits, credits)
  {
  }

  lemma IssueKeeps(s: Sys, user: string, proof: Hash, workScore: real, id: string, t: IssueClock)
    requires Inv(s) && id !in s.vault.credits
    ensures Inv(Issue(s, user, proof, workScore, id, t).0)
  {
    hide SumOver;
    if ProofOnRecord(s.book, proof) {
      RecordedOnLedger(s.book, proof);
      var v := Sys(Expire(s.vault, t.capCheck), s.book);
      ExpireKeeps(s, t.capCheck);
      IndexAgrees(v.vault.credits, v.vault.userCredits, user);
      var userTotal := IndexedActive(v.vault.credits, IndexOf(v.vault.userCredits, user));
      var amount := CreditFor(workScore, userTotal);
      if userTotal < MAX_CREDIT && amount > 0 {
        GrantKeeps(v, user, proof, amount, id, t);
        assert Issue(s, user, proof, workScore, id, t).0
          == (var w := Sys(Expire(v.vault, t.coverCheck), s.book);
              if CanCover(w.vault, amount) then Grant(w, user, proof, amount, id, t).0 else w);
      } else {
        assert Issue(s, user, proof, workScore, id, t).0 == v;
      }
    }
  }

  /** A credit is issued exactly when the proof is on record, the user is below the cap, the work earns something and
      the reserves cover the new total 1.5 times; its amount is what was earned, cut at the rest of the cap. */
  lemma IssueGrantedExactly(s: Sys, user: string, proof: Hash, workScore: real, id: string, t: IssueClock)
    requires Inv(s)
    ensures
      var once := ExpireAll(s.vault.credits, t.capCheck);
      var earned, room := Truncate(workScore * 100_000_000.0), 10_000_000_000 - UserActive(once, user);
      var amount := if earned < room then earned else room;
      var issued := Issue(s, user, proof, workScore, id, t).1;
      (issued.Some? <==>
         ProofOnRecord(s.book, proof) && room > 0 && earned > 0
         && 2 * s.vault.reserves >= 3 * (Outstanding(ExpireAll(once, t.coverCheck)) + amount))
      && (issued.Some? ==> issued.value.amount == amount && issued.value.user == user && issued.value.proofRef == proof)
  {
    hide SumOver, IndexedActive, Truncate, ProofOnRecord;
    var v := Sys(Expire(s.vault, t.capCheck), s.book);
    ExpireKeeps(s, t.capCheck);
    ExpireKeeps(v, t.coverCheck);
    IndexAgrees(v.vault.credits, v.vault.userCredits, user);
    var total := Outstanding(ExpireAll(v.vault.credits, t.coverCheck))
                 + CreditFor(workScore, IndexedActive(v.vault.credits, IndexOf(v.vault.userCredits, user)));
    if total > 0 {
      QuotientAtLeast(s.vault.reserves, total);
    }
  }

  lemma GrantKeeps(s: Sys, user: string, proof: Hash, amount: int, id: string, t: IssueClock)
    requires Inv(s) && id !in s.vault.credits && OnLedger(s.book, proof)
    requires 0 < amount <= MAX_CREDIT - UserActive(s.vault.credits, user)
    ensures
      var w := Sys(Expire(s.vault, t.coverCheck), s.book);
      Inv(w) && (CanCover(w.vault, amount) ==> Inv(Grant(w, user, proof, amount, id, t).0))
  {
    hide SumOver;
    ExpireKeeps(s, t.coverCheck);
    var w := Sys(Expire(s.vault, t.coverCheck), s.book);
    if CanCover(w.vault, amount) {
      CreditKeeps(w, Credit(id, user, amount, t.issued, t.expiryFrom + CREDIT_EXPIRY, proof, Active), t.logged);
    }
  }

  lemma ConsumeKeeps(s: Sys, ids: seq<string>)
    requires Inv(s)
    ensures Inv(Sys(s.vault.(credits := Consume(s.vault.credits, ids)), s.book))
    ensures Outstanding(Consume(s.vault.credits, ids)) == Outstanding(s.vault.credits) - ConsumedTotal(s.vault.credits, ids)
    ensures 0 <= |PaidIds(s.vault.credits, ids)| <= ConsumedTotal(s.vault.credits, ids) <= Outstanding(s.vault.credits)
  {
    hide SumOver, Consume, PaidIds, AmountOf;
    ConsumeReleases(s.vault.credits, ids);
    ConsumeMoves(s.vault.credits, ids);
    ConsumePositive(s.vault.credits, ids);
    ReleaseKeeps(s, Consume(s.vault.credits, ids));
    ReleaseLowersSums(s.vault.credits, Consume(s.vault.credits, ids));
  }

  /** A covered vault can pay out any positive part of what it owes and stay covered. */
  lemma SettleKeeps(v: Sys, total: int, relayer: string, tx: string, ids: seq<string>, rid: string, t: PayClock)
    requires Inv(v) && total > 0 && 2 * v.vault.reserves >= 3 * (Outstanding(v.vault.credits) + total)
    ensures
      var w := Sys(Expire(v.vault, t.checked), v.book);
      total <= v.vault.reserves && !BelowMinimum(CoverageOf(w.vault.reserves - total, w.vault.credits))
      && Inv(Settle(w, total, relayer, tx, ids, rid, t).0)
  {
    hide SumOver;
    var w := Sys(Expire(v.vault, t.checked), v.book);
    ExpireKeeps(v, t.checked);
    var left := w.vault.reserves - total;
    CoverageMeans(left, w.vault.credits);
    var (paid, r) := Settle(w, total, relayer, tx, ids, rid, t);
    ReservesKeep(w, left, paid.vault.reimbursements, Reimbursed(relayer, total, tx, r.coverageAfter), t.logged);
  }

  /** Solvency makes both refusals after consumption unreachable: whatever is consumed is paid. */
  lemma ReimburseAlwaysPays(s: Sys, relayer: string, tx: string, ids: seq<string>, rid: string, t: PayClock)
    requires Inv(s)
    ensures
      var (s', paid) := Reimburse(s, relayer, tx, ids, rid, t);
      var total := ConsumedTotal(s.vault.credits, ids);
      Inv(s')
      && (paid.Some? <==> total > 0) && (total == 0 ==> PaidIds(s.vault.credits, ids) == [])
      && s'.vault.reserves == s.vault.reserves - total
      && (paid.Some? ==> Receipted(paid.value, relayer, tx, ids, total)
                         && s'.vault.reimbursements == s.vault.reimbursements + [paid.value])
      && var consumed := Consume(s.vault.credits, ids);
      s'.vault.credits == if total > 0 then ExpireAll(consumed, t.checked) else consumed
  {
    hide SumOver, Consume, PaidIds, AmountOf;
    var total := ConsumedTotal(s.vault.credits, ids);
    var v := Sys(s.vault.(credits := Consume(s.vault.credits, ids)), s.book);
    ConsumeKeeps(s, ids);
    if total > 0 {
      SettleKeeps(v, total, relayer, tx, ids, rid, t);
    }
    ReimburseShape(s, relayer, tx, ids, rid, t);
  }

  /** The result of a reimbursement that is not refused for lack of reserves or coverage. */
  lemma ReimburseShape(s: Sys, relayer: string, tx: string, ids: seq<string>, rid: string, t: PayClock)
    requires
      var total := ConsumedTotal(s.vault.credits, ids);
      var w := Sys(Expire(s.vault.(credits := Consume(s.vault.credits, ids)), t.checked), s.book);
      total > 0 ==> total <= s.vault.reserves && !BelowMinimum(CoverageOf(w.vault.reserves - total, w.vault.credits))
    ensures
      var total := ConsumedTotal(s.vault.credits, ids);
      var v := Sys(s.vault.(credits := Consume(s.vault.credits, ids)), s.book);
      var (paid, r) := Settle(Sys(Expire(v.vault, t.checked), s.book), total, relayer, tx, ids, rid, t);
      Reimburse(s, relayer, tx, ids, rid, t) == if total > 0 then (paid, Some(r)) else (v, None)
  {
    hide SumOver, Consume, PaidIds, AmountOf;
  }

  lemma {:induction false} AmountPositive(credits: map<string, Credit>, ids: seq<string>)
    requires CreditsGood(credits) && forall id :: id in ids ==> id in credits
    ensures AmountOf(credits, ids) >= |ids|
  {
    if ids != [] {
      var n := |ids| - 1;
      AmountPositive(credits, ids[..n]);
      assert CreditGood(ids[n], credits[ids[n]]);
    }
  }

  /** Nothing consumed means nothing flipped. */
  lemma ConsumePositive(credits: map<string, Credit>, ids: seq<string>)
    requires CreditsGood(credits)
    ensures ConsumedTotal(credits, ids) >= |PaidIds(credits, ids)|
  {
    ConsumeFlips(credits, ids);
    AmountPositive(credits, PaidIds(credits, ids));
  }
}
