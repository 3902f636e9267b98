/** Settling an intent: risk limit, fee credits, greedy selection, claim, confirmation, reimbursement. The code
    has no rollback; solvency of the vault makes it all-or-nothing all the same. */
module Relayer {
  import opened Wrappers
  import opened ProofBook
  import opened GasVault
  import opened VaultObject
  import opened VaultCalls
  import opened IntentNetwork

  datatype RelayerConfig = RelayerConfig(address: string, minProfit: int, maxGas: int)

  datatype Counters = Counters(relayed: nat, profit: int, gasSpent: int)

  datatype Reason = ExceedsRiskLimit | NoFeeCredits | GasTooHigh | NotProfitable | ClaimFailed | ReimbursementFailed

  datatype RelayResult =
    | Refused(reason: Reason)
    | Relayed(txSignature: string, gas: int, reimbursement: int, profit: int)

  datatype RelayClock = RelayClock(queried: real, claimCheck: real, claimed: real, settled: real, pay: PayClock)

  datatype RelayState = RelayState(sys: Sys, net: Network, counters: Counters)

  // ---- Selection ----

  function TotalAmount(cs: seq<Credit>): int {
    if cs == [] then 0 else TotalAmount(cs[..|cs| - 1]) + cs[|cs| - 1].amount
  }

  ghost predicate SortedByAmount(cs: seq<Credit>) {
    forall i, j :: 0 <= i < j < |cs| ==> cs[i].amount <= cs[j].amount
  }

  /** Inserts behind every credit that is not larger, so that equal credits keep their order. */
  function Insert(cs: seq<Credit>, c: Credit): seq<Credit> {
    if cs == [] || cs[|cs| - 1].amount <= c.amount then cs + [c]
    else Insert(cs[..|cs| - 1], c) + [cs[|cs| - 1]]
  }

  function SortByAmount(cs: seq<Credit>): seq<Credit> {
    if cs == [] then [] else Insert(SortByAmount(cs[..|cs| - 1]), cs[|cs| - 1])
  }

  lemma TotalAppend(cs: seq<Credit>, c: Credit)
    ensures TotalAmount(cs + [c]) == TotalAmount(cs) + c.amount
  {
    assert (cs + [c])[..|cs|] == cs;
  }

  lemma {:induction false} InsertTotal(cs: seq<Credit>, c: Credit)
    ensures TotalAmount(Insert(cs, c)) == TotalAmount(cs) + c.amount
  {
    if cs == [] || cs[|cs| - 1].amount <= c.amount {
      TotalAppend(cs, c);
    } else {
      var n := |cs| - 1;
      InsertTotal(cs[..n], c);
      TotalAppend(Insert(cs[..n], c), cs[n]);
    }
  }

  lemma {:induction false} InsertPermutes(cs: seq<Credit>, c: Credit)
    ensures multiset(Insert(cs, c)) == multiset(cs) + multiset{c}
  {
    if !(cs == [] || cs[|cs| - 1].amount <= c.amount) {
      var n := |cs| - 1;
      InsertPermutes(cs[..n], c);
      assert cs == cs[..n] + [cs[n]];
    }
  }

  lemma {:induction false} InsertBounded(cs: seq<Credit>, c: Credit, top: int)
    requires c.amount <= top && forall i :: 0 <= i < |cs| ==> cs[i].amount <= top
    ensures forall i :: 0 <= i < |Insert(cs, c)| ==> Insert(cs, c)[i].amount <= top
  {
    if !(cs == [] || cs[|cs| - 1].amount <= c.amount) {
      InsertBounded(cs[..|cs| - 1], c, top);
    }
  }

  lemma {:induction false} InsertSorted(cs: seq<Credit>, c: Credit)
    requires SortedByAmount(cs)
    ensures SortedByAmount(Insert(cs, c))
  {
    if !(cs == [] || cs[|cs| - 1].amount <= c.amount) {
      var n := |cs| - 1;
      InsertSorted(cs[..n], c);
      InsertBounded(cs[..n], c, cs[n].amount);
    }
  }

  lemma {:induction false} SortSorts(cs: seq<Credit>)
    ensures SortedByAmount(SortByAmount(cs)) && multiset(SortByAmount(cs)) == multiset(cs)
    ensures TotalAmount(SortByAmount(cs)) == TotalAmount(cs)
  {
    hide Insert;
    if cs != [] {
      var n := |cs| - 1;
      SortSorts(cs[..n]);
      var front := SortByAmount(cs[..n]);
      InsertSorted(front, cs[n]);
      InsertTotal(front, cs[n]);
      InsertPermutes(front, cs[n]);
      assert cs == cs[..n] + [cs[n]];
    }
  }

  /** How many of the sorted credits the loop takes: at least one, stopping at the first total that reaches the target. */
  function TakenFrom(cs: seq<Credit>, target: int, k: nat): nat
    requires k <= |cs|
    decreases |cs| - k
  {
    if k == |cs| || (k > 0 && TotalAmount(cs[..k]) >= target) then k else TakenFrom(cs, target, k + 1)
  }

  function Select(cs: seq<Credit>, target: int): seq<Credit> {
    var sorted := SortByAmount(cs);
    TakenBound(sorted, target, 0);
    sorted[..TakenFrom(sorted, target, 0)]
  }

  lemma {:induction false} TakenBound(cs: seq<Credit>, target: int, k: nat)
    requires k <= |cs|
    ensures k <= TakenFrom(cs, target, k) <= |cs|
    decreases |cs| - k
  {
    if !(k == |cs| || (k > 0 && TotalAmount(cs[..k]) >= target)) {
      TakenBound(cs, target, k + 1);
    }
  }

  lemma {:induction false} TakenStops(cs: seq<Credit>, target: int, k: nat)
    requires k <= |cs| && forall j :: 0 < j < k ==> TotalAmount(cs[..j]) < target
    ensures
      var m := TakenFrom(cs, target, k);
      k <= m <= |cs| && (cs != [] ==> m > 0) && (m < |cs| ==> TotalAmount(cs[..m]) >= target)
      && forall j :: 0 < j < m ==> TotalAmount(cs[..j]) < target
    decreases |cs| - k
  {
    if !(k == |cs| || (k > 0 && TotalAmount(cs[..k]) >= target)) {
      TakenStops(cs, target, k + 1);
    }
  }

  /** Greedy selection: the shortest non-empty prefix, in order of amount, that reaches the target, or everything;
      and it reaches the target exactly when all credits together do. */
  lemma SelectionIsShortest(cs: seq<Credit>, target: int)
    requires forall c :: c in cs ==> c.amount > 0
    ensures
      var sorted, chosen := SortByAmount(cs), Select(cs, target);
      SortedByAmount(sorted) && multiset(sorted) == multiset(cs) && chosen <= sorted && (cs != [] ==> chosen != [])
      && (TotalAmount(chosen) >= target || chosen == sorted)
      && (forall j :: 0 < j < |chosen| ==> TotalAmount(sorted[..j]) < target)
      && (cs != [] ==> (TotalAmount(chosen) >= target <==> TotalAmount(cs) >= target))
  {
    hide TotalAmount, SortByAmount, TakenFrom, SortedByAmount;
    SortSorts(cs);
    var sorted := SortByAmount(cs);
    TakenStops(sorted, target, 0);
    var m := TakenFrom(sorted, target, 0);
    var chosen := Select(cs, target);
    assert |sorted| == |cs| by { assert |multiset(sorted)| == |sorted| && |multiset(cs)| == |cs|; }
    forall c | c in sorted ensures c.amount > 0 { assert c in multiset(cs); }
    PrefixLess(sorted, m);
    if m == |sorted| {
      assert chosen == sorted;
    }
    forall j | 0 < j < |chosen| ensures TotalAmount(sorted[..j]) < target {}
  }

  lemma {:induction false} PrefixLess(cs: seq<Credit>, m: nat)
    requires m <= |cs| && forall c :: c in cs ==> c.amount > 0
    ensures TotalAmount(cs[..m]) <= TotalAmount(cs)
    decreases |cs|
  {
    if m < |cs| {
      var n := |cs| - 1;
      PrefixLess(cs[..n], m);
      assert cs[..n][..m] == cs[..m];
    } else {
      assert cs[..m] == cs;
    }
  }

  // ---- The relay ----

  function EstimateGas(i: PaymentIntent): int { if i.token != "SOL" then 15000 else 5000 }

  /** Amount in dollars at the fixed demonstration prices. */
  function AmountUsd(token: string, decimals: nat, amount: int): real {
    Pow10Positive(decimals);
    var units := amount as real / Pow10(decimals) as real;
    if token == "SOL" then units * 150.0 else if token == "MEMBRA" then units * 0.01 else units
  }

  predicate WithinLimit(i: PaymentIntent, maxTransfer: real) {
    Decimals(i.token).None? || AmountUsd(i.token, Decimals(i.token).value, i.amount) <= maxTransfer
  }

  function CreditIds(cs: seq<Credit>): seq<string> { seq(|cs|, k requires 0 <= k < |cs| => cs[k].creditId) }

  /** The user's active credits once stale ones are expired. */
  function UserCredits(v: Vault, user: string, now: real): seq<Credit> {
    ActiveOf(ExpireAll(v.credits, now), IndexOf(v.userCredits, user))
  }

  function Chosen(v: Vault, cfg: RelayerConfig, i: PaymentIntent, now: real): seq<Credit> {
    Select(UserCredits(v, i.sender, now), EstimateGas(i) + cfg.minProfit)
  }

  /** Steps 6 to 9: claim, confirm, reimburse. */
  ghost function SettleIntent(s: RelayState, cfg: RelayerConfig, i: PaymentIntent, chosen: seq<Credit>,
                              tx: string, rid: string, t: RelayClock): (RelayState, RelayResult) {
    var ids, gas := CreditIds(chosen), EstimateGas(i);
    var profit := TotalAmount(chosen) - gas;
    var (claimed, ok) := Claim(s.net, i.intentId, t.claimCheck, t.claimed);
    if !ok then (s, Refused(ClaimFailed))
    else
      var (net, book, _) := Confirm(claimed, s.sys.book, i.intentId, tx, cfg.address, ids, t.settled);
      var (sys, paid) := Reimburse(Sys(s.sys.vault, book), cfg.address, tx, ids, rid, t.pay);
      if paid.None? then (RelayState(sys, net, s.counters), Refused(ReimbursementFailed))
      else
        (RelayState(sys, net, Counters(s.counters.relayed + 1, s.counters.profit + profit, s.counters.gasSpent + gas)),
         Relayed(tx, gas, paid.value.amount, profit))
  }

  ghost function Relay(s: RelayState, cfg: RelayerConfig, i: PaymentIntent, maxTransfer: real,
                       tx: string, rid: string, t: RelayClock): (RelayState, RelayResult) {
    if !WithinLimit(i, maxTransfer) then (s, Refused(ExceedsRiskLimit))
    else
      var s1 := s.(sys := Sys(Expire(s.sys.vault, t.queried), s.sys.book));
      var chosen := Chosen(s.sys.vault, cfg, i, t.queried);
      if UserCredits(s.sys.vault, i.sender, t.queried) == [] then (s1, Refused(NoFeeCredits))
      else if EstimateGas(i) > cfg.maxGas then (s1, Refused(GasTooHigh))
      else if TotalAmount(chosen) - EstimateGas(i) < cfg.minProfit then (s1, Refused(NotProfitable))
      else SettleIntent(s1, cfg, i, chosen, tx, rid, t)
  }

  // ---- Facts about the chosen credits ----

  lemma {:induction false} ActiveOfTotal(credits: map<string, Credit>, ids: seq<string>)
    ensures TotalAmount(ActiveOf(credits, ids)) == IndexedActive(credits, ids)
  {
    if ids != [] {
      var n := |ids| - 1;
      ActiveOfTotal(credits, ids[..n]);
      if Consumable(credits, ids[n]) { TotalAppend(ActiveOf(credits, ids[..n]), credits[ids[n]]); }
    }
  }

  lemma {:induction false} ActiveOfMembers(credits: map<string, Credit>, ids: seq<string>)
    requires CreditsGood(credits)
    ensures forall c :: c in ActiveOf(credits, ids) ==>
      c.creditId in ids && Consumable(credits, c.creditId) && credits[c.creditId] == c && c.amount > 0
  {
    if ids != [] {
      var n := |ids| - 1;
      ActiveOfMembers(credits, ids[..n]);
      assert ids == ids[..n] + [ids[n]];
      if Consumable(credits, ids[n]) { assert CreditGood(ids[n], credits[ids[n]]); }
    }
  }

  lemma {:induction false} ActiveOfDistinct(credits: map<string, Credit>, ids: seq<string>)
    requires CreditsGood(credits) && Distinct(ids)
    ensures DistinctIds(ActiveOf(credits, ids))
  {
    if ids != [] {
      var n := |ids| - 1;
      ActiveOfDistinct(credits, ids[..n]);
      ActiveOfMembers(credits, ids[..n]);
      if Consumable(credits, ids[n]) {
        assert CreditGood(ids[n], credits[ids[n]]);
        forall c | c in ActiveOf(credits, ids[..n]) ensures c.creditId != ids[n] {}
      }
    }
  }

  /** Distinct active credits are all flipped, and their sum is what is consumed. */
  lemma {:induction false} AllFlipped(credits: map<string, Credit>, cs: seq<Credit>)
    requires forall c :: c in cs ==> Consumable(credits, c.creditId) && credits[c.creditId] == c
    requires Distinct(CreditIds(cs))
    ensures PaidIds(credits, CreditIds(cs)) == CreditIds(cs) && AmountOf(credits, CreditIds(cs)) == TotalAmount(cs)
    decreases |cs|
  {
    if cs != [] {
      var n, ids := |cs| - 1, CreditIds(cs);
      assert CreditIds(cs[..n]) == ids[..n];
      AllFlipped(credits, cs[..n]);
      ConsumeFlips(credits, ids[..n]);
      assert ids == ids[..n] + [cs[n].creditId];
    }
  }

  ghost predicate DistinctIds(cs: seq<Credit>) {
    forall i, j :: 0 <= i < j < |cs| ==> cs[i].creditId != cs[j].creditId
  }

  lemma InsertMembers(cs: seq<Credit>, c: Credit)
    ensures forall x :: x in Insert(cs, c) <==> x in cs || x == c
  {
    InsertPermutes(cs, c);
    forall x ensures x in Insert(cs, c) <==> x in cs || x == c {
      assert x in Insert(cs, c) <==> x in multiset(Insert(cs, c));
    }
  }

  lemma {:induction false} InsertDistinct(cs: seq<Credit>, c: Credit)
    requires DistinctIds(cs) && forall x :: x in cs ==> x.creditId != c.creditId
    ensures DistinctIds(Insert(cs, c))
  {
    if !(cs == [] || cs[|cs| - 1].amount <= c.amount) {
      var n := |cs| - 1;
      InsertDistinct(cs[..n], c);
      InsertMembers(cs[..n], c);
      forall x | x in Insert(cs[..n], c) ensures x.creditId != cs[n].creditId {}
    }
  }

  lemma {:induction false} SortDistinct(cs: seq<Credit>)
    requires DistinctIds(cs)
    ensures DistinctIds(SortByAmount(cs))
  {
    if cs != [] {
      var n := |cs| - 1;
      SortDistinct(cs[..n]);
      SortSorts(cs[..n]);
      forall x | x in SortByAmount(cs[..n]) ensures x.creditId != cs[n].creditId {
        assert x in multiset(cs[..n]);
      }
      InsertDistinct(SortByAmount(cs[..n]), cs[n]);
    }
  }

  /** What the relayer works with: the user's active credits, all positive, summing to the user's active total. */
  lemma UserCreditsFacts(s: Sys, user: string, now: real)
    requires Inv(s)
    ensures
      var w, cs := ExpireAll(s.vault.credits, now), UserCredits(s.vault, user, now);
      TotalAmount(cs) == UserActive(w, user) && DistinctIds(cs)
      && forall c :: c in cs ==> c.amount > 0 && Consumable(w, c.creditId) && w[c.creditId] == c
  {
    hide Sums.SumOver, ActiveOf, TotalAmount, IndexedActive;
    ExpireKeeps(s, now);
    var w := Expire(s.vault, now);
    IndexAgrees(w.credits, w.userCredits, user);
    assert ListGood(w.credits, w.userCredits, user);
    ActiveOfTotal(w.credits, IndexOf(w.userCredits, user));
    ActiveOfMembers(w.credits, IndexOf(w.userCredits, user));
    ActiveOfDistinct(w.credits, IndexOf(w.userCredits, user));
  }

  lemma ChosenFacts(s: Sys, cfg: RelayerConfig, i: PaymentIntent, now: real)
    requires Inv(s) && UserCredits(s.vault, i.sender, now) != []
    ensures
      var w, chosen := ExpireAll(s.vault.credits, now), Chosen(s.vault, cfg, i, now);
      chosen != [] && Distinct(CreditIds(chosen))
      && PaidIds(w, CreditIds(chosen)) == CreditIds(chosen) && ConsumedTotal(w, CreditIds(chosen)) == TotalAmount(chosen)
      && var target := EstimateGas(i) + cfg.minProfit;
      (TotalAmount(chosen) >= target <==> UserActive(w, i.sender) >= target)
  {
    hide Sums.SumOver, ActiveOf, TotalAmount, SortByAmount, TakenFrom, Inv, PaidIds, AmountOf;
    var cs, w := UserCredits(s.vault, i.sender, now), ExpireAll(s.vault.credits, now);
    var chosen := Chosen(s.vault, cfg, i, now);
    UserCreditsFacts(s, i.sender, now);
    SelectionIsShortest(cs, EstimateGas(i) + cfg.minProfit);
    SortDistinct(cs);
    forall c | c in chosen ensures Consumable(w, c.creditId) && w[c.creditId] == c {
      assert c in SortByAmount(cs);
      assert c in multiset(cs);
    }
    AllFlipped(w, chosen);
  }

  // ---- All or nothing ----

  /** Nothing happened but the expiry of stale credits. */
  ghost predicate Untouched(s: RelayState, s': RelayState, now: real) {
    s'.net == s.net && s'.counters == s.counters && s'.sys.book == s.sys.book
    && s'.sys.vault.reserves == s.sys.vault.reserves && s'.sys.vault.reimbursements == s.sys.vault.reimbursements
    && s'.sys.vault.userCredits == s.sys.vault.userCredits
    && s'.sys.vault.credits in {s.sys.vault.credits, ExpireAll(s.sys.vault.credits, now)}
  }

  /** The intent is claimed by this relayer, and no other intent changed. */
  ghost predicate ClaimedBy(n: Network, n': Network, id: string, relayer: string, tx: string, ids: seq<string>) {
    id in n.intents && n.intents[id].status == Pending && n'.nonces == n.nonces && n'.intents.Keys == n.intents.Keys
    && n'.intents[id].status == Claimed && n'.intents[id].relayer == Some(relayer)
    && n'.intents[id].settlementTx == Some(tx) && n'.intents[id].feeCreditIds == ids
    && forall k :: k in n.intents && k != id ==> n'.intents[k] == n.intents[k]
  }

  /** Exactly these credits became used; the rest changed at most by expiring. */
  ghost predicate ExactlyUsed(credits: map<string, Credit>, credits': map<string, Credit>, ids: seq<string>) {
    credits'.Keys == credits.Keys
    && (forall id :: id in ids ==> Consumable(credits, id) && credits'[id] == credits[id].(status := Used))
    && (forall id :: id in credits && id !in ids ==>
          credits'[id] == credits[id]
          || (credits[id].status == Active && credits'[id] == credits[id].(status := GasVault.Expired)))
  }

  /** One more reimbursement is on record, with this call's data. */
  ghost predicate PaidOut(v: Vault, v': Vault, relayer: string, tx: string, ids: seq<string>, amount: int) {
    var n := |v.reimbursements|;
    |v'.reimbursements| == n + 1 && v'.reimbursements[..n] == v.reimbursements
    && Receipted(v'.reimbursements[n], relayer, tx, ids, amount)
  }

  /** The whole outcome of a successful relay. */
  ghost predicate SettledWith(s: RelayState, s': RelayState, cfg: RelayerConfig, i: PaymentIntent, chosen: seq<Credit>,
                              tx: string, reimbursement: int, profit: int) {
    var gas := EstimateGas(i);
    ClaimedBy(s.net, s'.net, i.intentId, cfg.address, tx, CreditIds(chosen))
    && ExactlyUsed(s.sys.vault.credits, s'.sys.vault.credits, CreditIds(chosen))
    && reimbursement == gas + profit == TotalAmount(chosen) && profit >= cfg.minProfit
    && s'.sys.vault.reserves == s.sys.vault.reserves - reimbursement
    && Distinct(CreditIds(chosen))
    && PaidOut(s.sys.vault, s'.sys.vault, cfg.address, tx, CreditIds(chosen), reimbursement)
    && s'.counters == Counters(s.counters.relayed + 1, s.counters.profit + profit, s.counters.gasSpent + gas)
  }

  lemma ClaimThenConfirm(n: Network, b: Book, id: string, t: RelayClock, tx: string, relayer: string, ids: seq<string>)
    requires Claim(n, id, t.claimCheck, t.claimed).1
    ensures
      var claimed := Claim(n, id, t.claimCheck, t.claimed).0;
      var (net, book, ok) := Confirm(claimed, b, id, tx, relayer, ids, t.settled);
      ok && ClaimedBy(n, net, id, relayer, tx, ids)
      && book == Appended(b, GovernanceAction, IntentSettled(id, tx, relayer, ids), t.settled)
  {
  }

  lemma ExpireConsumeExpire(credits: map<string, Credit>, t1: real, ids: seq<string>, t2: real)
    requires PaidIds(ExpireAll(credits, t1), ids) == ids
    ensures ExactlyUsed(credits, ExpireAll(Consume(ExpireAll(credits, t1), ids), t2), ids)
  {
    var w := ExpireAll(credits, t1);
    ConsumeFlips(w, ids);
    forall id | id in ids ensures Consumable(credits, id) && w[id] == credits[id] {
      assert Consumable(w, id);
    }
  }

  /** The settlement half, from a vault whose stale credits are expired: once the claim succeeds everything does. */
  lemma SettlementSucceeds(s: RelayState, cfg: RelayerConfig, i: PaymentIntent, chosen: seq<Credit>,
                           tx: string, rid: string, t: RelayClock)
    requires Inv(s.sys) && chosen != [] && PaidIds(s.sys.vault.credits, CreditIds(chosen)) == CreditIds(chosen)
    requires ConsumedTotal(s.sys.vault.credits, CreditIds(chosen)) == TotalAmount(chosen)
    ensures
      var (s', r) := SettleIntent(s, cfg, i, chosen, tx, rid, t);
      if Claim(s.net, i.intentId, t.claimCheck, t.claimed).1 then
        r == Relayed(tx, EstimateGas(i), TotalAmount(chosen), TotalAmount(chosen) - EstimateGas(i))
        && ClaimedBy(s.net, s'.net, i.intentId, cfg.address, tx, CreditIds(chosen))
        && s'.sys.vault.credits == ExpireAll(Consume(s.sys.vault.credits, CreditIds(chosen)), t.pay.checked)
        && s'.sys.vault.reserves == s.sys.vault.reserves - TotalAmount(chosen)
        && PaidOut(s.sys.vault, s'.sys.vault, cfg.address, tx, CreditIds(chosen), TotalAmount(chosen)) && Inv(s'.sys)
        && s'.counters == Counters(s.counters.relayed + 1, s.counters.profit + r.profit, s.counters.gasSpent + r.gas)
      else (s', r) == (s, Refused(ClaimFailed))
  {
    hide Inv, Claim, Confirm, ClaimedBy, Reimburse, ConsumedTotal, PaidIds, Consume, TotalAmount, ExpireAll;
    if Claim(s.net, i.intentId, t.claimCheck, t.claimed).1 {
      var ids := CreditIds(chosen);
      ClaimThenConfirm(s.net, s.sys.book, i.intentId, t, tx, cfg.address, ids);
      var data := IntentSettled(i.intentId, tx, cfg.address, ids);
      var sys := Sys(s.sys.vault, Appended(s.sys.book, GovernanceAction, data, t.settled));
      LogKeeps(s.sys, GovernanceAction, data, t.settled);
      ReimburseAlwaysPays(sys, cfg.address, tx, ids, rid, t.pay);
      PositiveTotal(s.sys, ids);
      assert |ids| > 0;
    }
  }

  lemma LogKeeps(s: Sys, proofType: ProofType, data: Payload, now: real)
    requires Inv(s)
    ensures Inv(Sys(s.vault, Appended(s.book, proofType, data, now)))
  {
    AppendKeepsBacking(s, proofType, data, now);
  }

  lemma PositiveTotal(s: Sys, ids: seq<string>)
    requires Inv(s) && PaidIds(s.vault.credits, ids) == ids
    ensures ConsumedTotal(s.vault.credits, ids) >= |ids|
  {
    ConsumePositive(s.vault.credits, ids);
  }

  /** All or nothing: from any vault state that satisfies its invariant, a relay either leaves intent, unexpired
      credits, reserves, log and counters untouched, or does all of it; it never ends in a failed reimbursement;
      and it is refused as unprofitable exactly when the user's active credits sum below gas plus minimum profit. */
  lemma RelayAllOrNothing(s: RelayState, cfg: RelayerConfig, i: PaymentIntent, maxTransfer: real,
                          tx: string, rid: string, t: RelayClock)
    requires Inv(s.sys)
    ensures
      var (s', r) := Relay(s, cfg, i, maxTransfer, tx, rid, t);
      var w := ExpireAll(s.sys.vault.credits, t.queried);
      Inv(s'.sys) && r != Refused(ReimbursementFailed)
      && (r.Refused? ==> Untouched(s, s', t.queried))
      && (r.Relayed? ==>
            SettledWith(s, s', cfg, i, Chosen(s.sys.vault, cfg, i, t.queried), tx, r.reimbursement, r.profit))
      && (r == Refused(NotProfitable) <==>
            WithinLimit(i, maxTransfer) && UserCredits(s.sys.vault, i.sender, t.queried) != []
            && EstimateGas(i) <= cfg.maxGas && UserActive(w, i.sender) < EstimateGas(i) + cfg.minProfit)
  {
    hide Inv, WithinLimit, UserCredits, Chosen, SettleIntent, ExactlyUsed, ClaimedBy, TotalAmount,
         PaidIds, AmountOf, Consume, Sums.SumOver, ConsumedTotal, CreditIds;
    if WithinLimit(i, maxTransfer) {
      ExpireKeeps(s.sys, t.queried);
      if UserCredits(s.sys.vault, i.sender, t.queried) != [] {
        var s1 := s.(sys := Sys(Expire(s.sys.vault, t.queried), s.sys.book));
        var chosen := Chosen(s.sys.vault, cfg, i, t.queried);
        ChosenFacts(s.sys, cfg, i, t.queried);
        SettlementSucceeds(s1, cfg, i, chosen, tx, rid, t);
        ExpireConsumeExpire(s.sys.vault.credits, t.queried, CreditIds(chosen), t.pay.checked);
      }
    }
  }

  // ---- The relay in numbers ----

  /** The dollar value of an amount at the fixed prices: SOL at 150, MEMBRA at a cent, WETH and the stable coins at one. */
  function DollarValue(token: string, amount: int): real {
    if token == "SOL" then amount as real * 150.0 / 1_000_000_000.0
    else if token == "MEMBRA" then amount as real * 0.01 / 1_000_000_000.0
    else if token == "WETH" then amount as real / 1_000_000_000_000_000_000.0
    else amount as real / 1_000_000.0
  }

  lemma LimitExactly(i: PaymentIntent, maxTransfer: real)
    ensures WithinLimit(i, maxTransfer) <==>
      i.token !in {"MEMBRA", "SOL", "USDC", "USDT", "USDC_ETH", "WETH"} || DollarValue(i.token, i.amount) <= maxTransfer
  {
    hide Decimals;
    TokensExactly(i.token);
    PowersOfTen();
  }

  lemma GasExactly(i: PaymentIntent)
    ensures EstimateGas(i) == if i.token == "SOL" then 5000 else 15000
  {
  }

  lemma PowersOfTen()
    ensures Pow10(6) == 1_000_000 && Pow10(9) == 1_000_000_000 && Pow10(18) == 1_000_000_000_000_000_000
  {
    assert Pow10(3) == 1000;
    assert Pow10(6) == 1000 * Pow10(3);
    assert Pow10(9) == 1000 * Pow10(6);
    assert Pow10(12) == 1000 * Pow10(9);
    assert Pow10(15) == 1000 * Pow10(12);
    assert Pow10(18) == 1000 * Pow10(15);
  }

  /** Which answer a relay gives, in order: over the limit, no spendable credit, gas above the maximum, active credits
      below gas plus minimum profit, intent not claimable; gas is 5000 for SOL and 15000 otherwise. */
  lemma RelayInNumbers(s: RelayState, cfg: RelayerConfig, i: PaymentIntent, maxTransfer: real, tx: string, rid: string,
                       t: RelayClock)
    requires Inv(s.sys)
    ensures
      var r := Relay(s, cfg, i, maxTransfer, tx, rid, t).1;
      var v := s.sys.vault;
      var gas := if i.token == "SOL" then 5000 else 15000;
      var limited := i.token in {"MEMBRA", "SOL", "USDC", "USDT", "USDC_ETH", "WETH"}
                     && DollarValue(i.token, i.amount) > maxTransfer;
      var penniless := SpendableOf(v.credits, IndexOf(v.userCredits, i.sender), t.queried) == [];
      var short := UserActive(ExpireAll(v.credits, t.queried), i.sender) < gas + cfg.minProfit;
      var claimable := i.intentId in s.net.intents && s.net.intents[i.intentId].status == Pending
                   && t.claimCheck < s.net.intents[i.intentId].expiresAt;
      (r == Refused(ExceedsRiskLimit) <==> limited)
      && (r == Refused(NoFeeCredits) <==> !limited && penniless)
      && (r == Refused(GasTooHigh) <==> !limited && !penniless && gas > cfg.maxGas)
      && (r == Refused(NotProfitable) <==> !limited && !penniless && gas <= cfg.maxGas && short)
      && (r == Refused(ClaimFailed) <==> !limited && !penniless && gas <= cfg.maxGas && !short && !claimable)
      && (r.Relayed? <==> !limited && !penniless && gas <= cfg.maxGas && !short && claimable)
      && (r.Relayed? ==> r.txSignature == tx && r.gas == gas && r.reimbursement == r.gas + r.profit && r.profit >= cfg.minProfit)
  {
    hide Inv, WithinLimit, UserCredits, Chosen, SettleIntent, ExactlyUsed, ClaimedBy, TotalAmount, DollarValue,
         PaidIds, AmountOf, Consume, Sums.SumOver, ConsumedTotal, CreditIds, SpendableOf, ExpireAll;
    LimitExactly(i, maxTransfer);
    RelayAllOrNothing(s, cfg, i, maxTransfer, tx, rid, t);
    UserCreditsReturned(s.sys.vault, i.sender, t.queried);
    if WithinLimit(i, maxTransfer) && UserCredits(s.sys.vault, i.sender, t.queried) != [] {
      var s1 := s.(sys := Sys(Expire(s.sys.vault, t.queried), s.sys.book));
      ExpireKeeps(s.sys, t.queried);
      ChosenFacts(s.sys, cfg, i, t.queried);
      SettlementSucceeds(s1, cfg, i, Chosen(s.sys.vault, cfg, i, t.queried), tx, rid, t);
      ClaimExactly(s1.net, i.intentId, t.claimCheck, t.claimed);
    }
  }

  lemma UserCreditsReturned(v: Vault, user: string, now: real)
    ensures UserCredits(v, user, now) == SpendableOf(v.credits, IndexOf(v.userCredits, user), now)
  {
    ReturnedExactly(v.credits, IndexOf(v.userCredits, user), now);
  }

  // ---- The object ----

  function ActiveOnly(cs: seq<Credit>): seq<Credit> {
    if cs == [] then []
    else
      var before := ActiveOnly(cs[..|cs| - 1]);
      if cs[|cs| - 1].status == Active then before + [cs[|cs| - 1]] else before
  }

  lemma {:induction false} ActiveOnlyIsAll(cs: seq<Credit>)
    requires forall c :: c in cs ==> c.status == Active
    ensures ActiveOnly(cs) == cs
  {
    if cs != [] {
      ActiveOnlyIsAll(cs[..|cs| - 1]);
      assert cs == cs[..|cs| - 1] + [cs[|cs| - 1]];
    }
  }

  lemma {:induction false} ActiveOfActive(credits: map<string, Credit>, ids: seq<string>)
    ensures forall c :: c in ActiveOf(credits, ids) ==> c.status == Active
  {
    if ids != [] {
      ActiveOfActive(credits, ids[..|ids| - 1]);
    }
  }

  method SelectCredits(cs: seq<Credit>, gasNeeded: int, minProfit: int) returns (selected: seq<Credit>)
    ensures selected == Select(ActiveOnly(cs), gasNeeded + minProfit)
  {
    var active := [];
    var k := 0;
    while k < |cs|
      invariant 0 <= k <= |cs| && active == ActiveOnly(cs[..k])
    {
      assert cs[..k + 1][..k] == cs[..k];
      if cs[k].status == Active {
        active := active + [cs[k]];
      }
      k := k + 1;
    }
    assert cs[..k] == cs;
    active := SortByAmount(active);
    selected := [];
    var total := 0;
    k := 0;
    while k < |active|
      invariant 0 <= k <= |active| && selected == active[..k] && total == TotalAmount(active[..k])
      invariant TakenFrom(active, gasNeeded + minProfit, k) == TakenFrom(active, gasNeeded + minProfit, 0)
      invariant k > 0 ==> total < gasNeeded + minProfit
    {
      selected := selected + [active[k]];
      total := total + active[k].amount;
      assert active[..k + 1][..k] == active[..k];
      k := k + 1;
      if total >= gasNeeded + minProfit {
        break;
      }
    }
  }

  method SumAmounts(cs: seq<Credit>) returns (total: int)
    ensures total == TotalAmount(cs)
  {
    total := 0;
    var k := 0;
    while k < |cs|
      invariant 0 <= k <= |cs| && total == TotalAmount(cs[..k])
    {
      assert cs[..k + 1][..k] == cs[..k];
      total := total + cs[k].amount;
      k := k + 1;
    }
    assert cs[..k] == cs;
  }

  class RelayAgent {
    const config: RelayerConfig
    const vault: GasVaultLedger
    const board: IntentBoard
    var relayed: nat
    var profit: int
    var gasSpent: int

    ghost function View(): RelayState
      reads this, vault, vault.book, board
    {
      RelayState(vault.View(), board.View(), Counters(relayed, profit, gasSpent))
    }

    constructor (config: RelayerConfig, vault: GasVaultLedger, board: IntentBoard)
      ensures this.config == config && this.vault == vault && this.board == board
      ensures View() == RelayState(vault.View(), board.View(), Counters(0, 0, 0))
    {
      this.config, this.vault, this.board := config, vault, board;
      relayed, profit, gasSpent := 0, 0, 0;
    }

    method RelayIntent(i: PaymentIntent, maxTransfer: real, tx: string, rid: string, t: RelayClock) returns (r: RelayResult)
      requires vault.book == board.book
      modifies this, vault, board, vault.book
      ensures (View(), r) == Relay(old(View()), config, i, maxTransfer, tx, rid, t)
      ensures r.Relayed? ==> r.gas == if i.token == "SOL" then 5000 else 15000
    {
      hide Sums.SumOver, ActiveOf, ActiveOnly, Select, TotalAmount, Reimburse, Confirm, WithinLimit, EstimateGas,
           CreditIds, ExpireAll, SpendableOf, SortByAmount;
      if !WithinLimit(i, maxTransfer) {
        return Refused(ExceedsRiskLimit);
      }
      var found := vault.GetUserCredits(i.sender, t.queried);
      assert found == UserCredits(old(View()).sys.vault, i.sender, t.queried);
      if found == [] {
        return Refused(NoFeeCredits);
      }
      var gas := EstimateGas(i);
      GasExactly(i);
      if gas > config.maxGas {
        return Refused(GasTooHigh);
      }
      ActiveOfActive(vault.credits, IndexOf(vault.userCredits, i.sender));
      ActiveOnlyIsAll(found);
      var chosen := SelectCredits(found, gas, config.minProfit);
      var total := SumAmounts(chosen);
      var gain := total - gas;
      if gain < config.minProfit {
        return Refused(NotProfitable);
      }
      var claimed := board.ClaimIntent(i.intentId, t.claimCheck, t.claimed);
      if !claimed {
        return Refused(ClaimFailed);
      }
      var ids := CreditIds(chosen);
      var _ := board.ConfirmSettlement(i.intentId, tx, config.address, ids, t.settled);
      var paid := vault.ReimburseRelayer(config.address, tx, ids, rid, t.pay);
      if paid.None? {
        return Refused(ReimbursementFailed);
      }
      relayed, profit, gasSpent := relayed + 1, profit + gain, gasSpent + gas;
      return Relayed(tx, gas, paid.value.amount, gain);
    }
  }
}
