/** The gas vault as an object: reserves, credits, the per-user index and the reimbursement list updated in
    place, every call proved against its transition function. */
module VaultObject {
  import opened Sums
  import opened Wrappers
  import opened ProofBook
  import opened GasVault

  /** The active credits among the ids, in order. */
  function ActiveOf(credits: map<string, Credit>, ids: seq<string>): seq<Credit> {
    if ids == [] then []
    else
      var n := |ids| - 1;
      var before := ActiveOf(credits, ids[..n]);
      if Consumable(credits, ids[n]) then before + [credits[ids[n]]] else before
  }

  // ---- Expiry ----

  /** Exactly the active credits whose time has come expire; every other credit is as it was. */
  lemma ExpirePointwise(credits: map<string, Credit>, now: real)
    ensures ExpireAll(credits, now).Keys == credits.Keys
    ensures forall id :: id in credits ==>
      ExpireAll(credits, now)[id]
      == if credits[id].status == Active && credits[id].expiresAt <= now then credits[id].(status := Expired) else credits[id]
  {
  }

  predicate Spendable(c: Credit, now: real) { c.status == Active && now < c.expiresAt }

  /** The spendable credits among the ids, in order. */
  function SpendableOf(credits: map<string, Credit>, ids: seq<string>, now: real): seq<Credit> {
    if ids == [] then []
    else
      var n := |ids| - 1;
      SpendableOf(credits, ids[..n], now)
      + if ids[n] in credits && Spendable(credits[ids[n]], now) then [credits[ids[n]]] else []
  }

  /** get_user_credits returns, in index order, exactly the credits that are active and not yet past their time. */
  lemma {:induction false} ReturnedExactly(credits: map<string, Credit>, ids: seq<string>, now: real)
    ensures ActiveOf(ExpireAll(credits, now), ids) == SpendableOf(credits, ids, now)
  {
    if ids != [] {
      ReturnedExactly(credits, ids[..|ids| - 1], now);
      ExpirePointwise(credits, now);
    }
  }

  class GasVaultLedger {
    const book: ProofLog
    var reserves: int
    var credits: map<string, Credit>
    var userCredits: map<string, seq<string>>
    var reimbursements: seq<Reimbursement>

    ghost function View(): Sys
      reads this, book
    {
      Sys(Vault(reserves, credits, userCredits, reimbursements), book.View())
    }

    constructor (book: ProofLog, initial: int)
      ensures this.book == book
      ensures View() == Sys(Vault(initial, map[], map[], []), book.View())
    {
      this.book := book;
      reserves, credits, userCredits, reimbursements := initial, map[], map[], [];
    }

    method DepositSol(amount: int, source: string, now: real)
      modifies this, book
      ensures View() == Deposit(old(View()), amount, source, now)
    {
      reserves := reserves + amount;
      var _ := book.Append(Treasury, Deposited(amount, source, reserves), now);
    }

    method ExpireStaleCredits(now: real)
      modifies this`credits
      ensures credits == ExpireAll(old(credits), now)
      ensures credits.Keys == old(credits).Keys
      ensures forall id :: id in credits ==>
        credits[id]
        == if old(credits)[id].status == Active && old(credits)[id].expiresAt <= now then old(credits)[id].(status := Expired)
           else old(credits)[id]
    {
      var left := credits.Keys;
      while left != {}
        invariant credits.Keys == old(credits).Keys && left <= credits.Keys
        invariant forall k :: k in credits ==>
          credits[k] == if k in left then old(credits)[k] else ExpireOne(old(credits)[k], now)
        decreases |left|
      {
        var k :| k in left;
        if credits[k].status == Active && now >= credits[k].expiresAt {
          credits := credits[k := credits[k].(status := Expired)];
        }
        left := left - {k};
      }
    }

    method TotalOutstanding(now: real) returns (total: int)
      modifies this`credits
      ensures credits == ExpireAll(old(credits), now) && total == Outstanding(credits)
    {
      ExpireStaleCredits(now);
      total := 0;
      var rest := credits;
      while rest != map[]
        invariant total + Outstanding(rest) == Outstanding(credits)
        invariant credits == ExpireAll(old(credits), now)
        decreases rest.Keys
      {
        var k :| k in rest;
        SumTake(rest, ActiveAmount, k);
        if rest[k].status == Active {
          total := total + rest[k].amount;
        }
        rest := rest - {k};
      }
    }

    method UserOutstanding(user: string, now: real) returns (total: int)
      modifies this`credits
      ensures credits == ExpireAll(old(credits), now) && total == IndexedActive(credits, IndexOf(userCredits, user))
    {
      ExpireStaleCredits(now);
      var ids := if user in userCredits then userCredits[user] else [];
      total := 0;
      var i := 0;
      while i < |ids|
        invariant 0 <= i <= |ids| && credits == ExpireAll(old(credits), now)
        invariant total == IndexedActive(credits, ids[..i])
      {
        assert ids[..i + 1][..i] == ids[..i];
        if ids[i] in credits && credits[ids[i]].status == Active {
          total := total + credits[ids[i]].amount;
        }
        i := i + 1;
      }
      assert ids[..i] == ids;
    }

    method GetUserCredits(user: string, now: real) returns (found: seq<Credit>)
      modifies this`credits
      ensures credits == ExpireAll(old(credits), now) && found == ActiveOf(credits, IndexOf(userCredits, user))
      ensures found == SpendableOf(old(credits), IndexOf(userCredits, user), now)
    {
      ReturnedExactly(credits, IndexOf(userCredits, user), now);
      ExpireStaleCredits(now);
      var ids := if user in userCredits then userCredits[user] else [];
      found := [];
      var i := 0;
      while i < |ids|
        invariant 0 <= i <= |ids| && credits == ExpireAll(old(credits), now)
        invariant found == ActiveOf(credits, ids[..i])
      {
        assert ids[..i + 1][..i] == ids[..i];
        if ids[i] in credits && credits[ids[i]].status == Active {
          found := found + [credits[ids[i]]];
        }
        i := i + 1;
      }
      assert ids[..i] == ids;
    }

    method CoverageRatioAfter(delta: int, now: real) returns (coverage: Coverage)
      modifies this`credits
      ensures credits == ExpireAll(old(credits), now) && coverage == CoverageOf(reserves + delta, credits)
    {
      var outstanding := TotalOutstanding(now);
      coverage := if outstanding == 0 then Unbounded else Ratio((reserves + delta) as real / outstanding as real);
    }

    method WithdrawSol(amount: int, destination: string, reason: string, checked: real, logged: real) returns (done: bool)
      modifies this, book
      ensures (View(), done) == Withdraw(old(View()), amount, destination, reason, checked, logged)
    {
      if amount > reserves {
        return false;
      }
      var coverage := CoverageRatioAfter(-amount, checked);
      if BelowMinimum(coverage) {
        return false;
      }
      reserves := reserves - amount;
      var _ := book.Append(Treasury, Withdrawn(amount, destination, reason, reserves), logged);
      return true;
    }

    method IssueCredit(user: string, proof: Hash, workScore: real, id: string, t: IssueClock) returns (credit: Option<Credit>)
      modifies this, book
      ensures (View(), credit) == Issue(old(View()), user, proof, workScore, id, t)
    {
      hide SumOver, ProofOnRecord, CreditFor, IndexedActive, ExpireAll;
      if !ProofOnRecord(Book(book.entries, book.lastHash), proof) {
        return None;
      }
      var userTotal := UserOutstanding(user, t.capCheck);
      if userTotal >= MAX_CREDIT {
        return None;
      }
      var amount := CreditFor(workScore, userTotal);
      if amount <= 0 {
        return None;
      }
      var outstanding := TotalOutstanding(t.coverCheck);
      var total := outstanding + amount;
      if total != 0 && reserves as real / total as real < 1.5 {
        return None;
      }
      var c := Credit(id, user, amount, t.issued, t.expiryFrom + CREDIT_EXPIRY, proof, Active);
      credits := credits[id := c];
      userCredits := userCredits[user := (if user in userCredits then userCredits[user] else []) + [id]];
      var _ := book.Append(FeeCredit, CreditIssued(id, user, amount, proof, c.expiresAt), t.logged);
      return Some(c);
    }

    method ConsumeCredits(ids: seq<string>) returns (total: int)
      modifies this`credits
      ensures credits == Consume(old(credits), ids) && total == ConsumedTotal(old(credits), ids)
    {
      ghost var before := credits;
      total := 0;
      var i := 0;
      while i < |ids|
        invariant 0 <= i <= |ids|
        invariant credits == Consume(before, ids[..i]) && total == ConsumedTotal(before, ids[..i])
      {
        assert ids[..i + 1][..i] == ids[..i];
        ConsumeFlips(before, ids[..i]);
        if ids[i] in credits && credits[ids[i]].status == Active {
          AmountOfAppend(before, PaidIds(before, ids[..i]), ids[i]);
          total := total + credits[ids[i]].amount;
          credits := credits[ids[i] := credits[ids[i]].(status := Used)];
        }
        i := i + 1;
      }
      assert ids[..i] == ids;
    }

    method ReimburseRelayer(relayer: string, tx: string, ids: seq<string>, rid: string, t: PayClock)
      returns (paid: Option<Reimbursement>)
      modifies this, book
      ensures (View(), paid) == Reimburse(old(View()), relayer, tx, ids, rid, t)
    {
      hide SumOver, Consume, PaidIds, AmountOf;
      var total := ConsumeCredits(ids);
      if total <= 0 {
        return None;
      }
      if total > reserves {
        return None;
      }
      var coverage := CoverageRatioAfter(-total, t.checked);
      if BelowMinimum(coverage) {
        return None;
      }
      reserves := reserves - total;
      var r := Reimbursement(rid, relayer, total, tx, ids, t.paid, coverage);
      reimbursements := reimbursements + [r];
      var _ := book.Append(Treasury, Reimbursed(relayer, total, tx, coverage), t.logged);
      return Some(r);
    }
  }
}
