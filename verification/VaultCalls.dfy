/** What each vault call does to credits, reserves, index and log, in plain terms and numbers. */
module VaultCalls {
  import opened Wrappers
  import opened Sums
  import opened ProofBook
  import opened GasVault
  import opened VaultObject

  // ---- Expiry ----

  lemma {:induction false} SpendableMembers(credits: map<string, Credit>, ids: seq<string>, now: real, c: Credit)
    ensures c in SpendableOf(credits, ids, now)
      <==> exists k :: 0 <= k < |ids| && ids[k] in credits && credits[ids[k]] == c && Spendable(c, now)
  {
    if ids != [] {
      var n := |ids| - 1;
      SpendableMembers(credits, ids[..n], now, c);
      assert forall k :: 0 <= k < n ==> ids[..n][k] == ids[k];
    }
  }

  /** An issued credit is returned to its user exactly until 86400 seconds after the reading its expiry is taken from. */
  lemma IssuedCreditLifetime(s: Sys, user: string, proof: Hash, workScore: real, id: string, t: IssueClock, now: real)
    requires Issue(s, user, proof, workScore, id, t).1.Some?
    ensures
      var (s', c) := Issue(s, user, proof, workScore, id, t);
      var returned := ActiveOf(ExpireAll(s'.vault.credits, now), IndexOf(s'.vault.userCredits, user));
      c.value in returned <==> now < t.expiryFrom + 86400.0
  {
    hide SumOver, ExpireAll, ActiveOf, SpendableOf, Truncate, ProofOnRecord, IndexedActive;
    IssueExactly(s, user, proof, workScore, id, t);
    var (s', c) := Issue(s, user, proof, workScore, id, t);
    var credits, ids := s'.vault.credits, IndexOf(s'.vault.userCredits, user);
    ReturnedExactly(credits, ids, now);
    SpendableMembers(credits, ids, now, c.value);
    assert ids[|ids| - 1] == id;
  }

  // ---- Proofs and amounts ----

  /** A proof backs a credit exactly when it is a logged compute receipt with fewer than 50 later ones. */
  lemma ProofOnRecordExactly(b: Book, proof: Hash)
    ensures ProofOnRecord(b, proof) <==> exists i: nat :: RecentAt(b.entries, ZkCompute, proof, 50, i)
  {
    hide OfType, Latest, CountOf;
    LatestFindsExactly(b.entries, ZkCompute, proof, 50);
  }

  /** int() drops the fraction, toward zero on either side. */
  lemma TruncateExactly(x: real)
    ensures x >= 0.0 ==> Truncate(x) as real <= x < Truncate(x) as real + 1.0
    ensures x < 0.0 ==> Truncate(x) as real - 1.0 < x <= Truncate(x) as real
  {
  }

  // ---- The calls ----

  lemma DepositExactly(s: Sys, amount: int, source: string, now: real)
    ensures
      var s' := Deposit(s, amount, source, now);
      s'.vault == s.vault.(reserves := s.vault.reserves + amount)
      && Logs(s.book, s'.book, Treasury, Deposited(amount, source, s.vault.reserves + amount), now)
  {
    AppendLogs(s.book, Treasury, Deposited(amount, source, s.vault.reserves + amount), now);
  }

  /** A withdrawal takes the amount and logs it, or takes nothing; stale credits expire once the reserves suffice. */
  lemma WithdrawExactly(s: Sys, amount: int, destination: string, reason: string, checked: real, logged: real)
    requires Inv(s)
    ensures
      var (s', done) := Withdraw(s, amount, destination, reason, checked, logged);
      var left, expired := s.vault.reserves - amount, ExpireAll(s.vault.credits, checked);
      (done <==> left >= 0 && 2 * left >= 3 * Outstanding(expired))
      && s'.vault == (if left < 0 then s.vault else s.vault.(credits := expired, reserves := if done then left else s.vault.reserves))
      && (done ==> Logs(s.book, s'.book, Treasury, Withdrawn(amount, destination, reason, left), logged))
      && (!done ==> s'.book == s.book)
  {
    hide SumOver, ExpireAll;
    WithdrawGrantedExactly(s, amount, destination, reason, checked, logged);
    AppendLogs(s.book, Treasury, Withdrawn(amount, destination, reason, s.vault.reserves - amount), logged);
  }

  /** An issued credit is stored, indexed last under its user and logged; a refusal leaves at most expired credits. */
  lemma IssueExactly(s: Sys, user: string, proof: Hash, workScore: real, id: string, t: IssueClock)
    ensures
      var (s', c) := Issue(s, user, proof, workScore, id, t);
      var once := ExpireAll(s.vault.credits, t.capCheck);
      var twice := ExpireAll(once, t.coverCheck);
      s'.vault.reserves == s.vault.reserves && s'.vault.reimbursements == s.vault.reimbursements
      && (c.None? ==> s'.book == s.book && s'.vault.userCredits == s.vault.userCredits
                      && s'.vault.credits in [s.vault.credits, once, twice])
      && (c.Some? ==>
            c.value == Credit(id, user, c.value.amount, t.issued, t.expiryFrom + 86400.0, proof, Active)
            && s'.vault.credits == twice[id := c.value]
            && s'.vault.userCredits
               == s.vault.userCredits[user := (if user in s.vault.userCredits then s.vault.userCredits[user] else []) + [id]]
            && Logs(s.book, s'.book, FeeCredit,
                    CreditIssued(id, user, c.value.amount, proof, t.expiryFrom + 86400.0), t.logged))
  {
    hide SumOver, ExpireAll, Truncate, ProofOnRecord, IndexedActive, Logs;
    var (s', c) := Issue(s, user, proof, workScore, id, t);
    if c.Some? {
      AppendLogs(s.book, FeeCredit, CreditIssued(id, user, c.value.amount, proof, c.value.expiresAt), t.logged);
    }
  }

  /** A reimbursement that consumed anything is recorded and logged with the coverage it leaves, reserves over the
      credits still active; one that consumed nothing leaves no trace. */
  lemma ReimburseExactly(s: Sys, relayer: string, tx: string, ids: seq<string>, rid: string, t: PayClock)
    requires Inv(s)
    ensures
      var (s', paid) := Reimburse(s, relayer, tx, ids, rid, t);
      var total, active := ConsumedTotal(s.vault.credits, ids), Outstanding(s'.vault.credits);
      s'.vault.userCredits == s.vault.userCredits
      && (total == 0 ==> paid.None? && s'.book == s.book && s'.vault.reserves == s.vault.reserves
                         && s'.vault.reimbursements == s.vault.reimbursements)
      && (total > 0 ==>
            paid.Some?
            && paid.value.reimbursementId == rid && paid.value.reimbursedAt == t.paid
            && paid.value.coverageAfter
               == (if active == 0 then Unbounded else Ratio((s.vault.reserves - total) as real / active as real))
            && Logs(s.book, s'.book, Treasury, Reimbursed(relayer, total, tx, paid.value.coverageAfter), t.logged))
  {
    hide SumOver, ExpireAll, Consume, PaidIds, AmountOf, Logs, Inv;
    ReimburseAlwaysPays(s, relayer, tx, ids, rid, t);
    ConsumedNonNegative(s, ids);
    var (s', paid) := Reimburse(s, relayer, tx, ids, rid, t);
    if paid.Some? {
      AppendLogs(s.book, Treasury, Reimbursed(relayer, paid.value.amount, tx, paid.value.coverageAfter), t.logged);
    }
  }

  lemma ConsumedNonNegative(s: Sys, ids: seq<string>)
    requires Inv(s)
    ensures ConsumedTotal(s.vault.credits, ids) >= 0
  {
    ConsumeMoves(s.vault.credits, ids);
  }
}
