/** Escrow of buyer funds and the published split of a release. */
module Escrow {
  import opened Wrappers
  import opened Sums

  datatype State = Held | Released | Refunded | Frozen

  datatype Movement =
    | ReleaseReceipt(jobId: string, artifactHash: Option<string>, testPassed: bool, buyerApproved: bool,
                     settlementConfirmed: bool, validatorConsensus: bool, timestamp: real)
    | RefundNote(reason: string, noted: real)

  datatype Payment = Payment(amount: real, way: string, timestamp: real, status: string)

  datatype Account = Account(
    jobId: string, buyer: string, builder: Option<string>, amount: real, state: State, deposits: seq<Payment>,
    releases: seq<Movement>, createdAt: real, releasedAt: Option<real>)

  type Accounts = map<string, Account>

  /** f"esc-{job_id}" */
  function Key(jobId: string): string { "esc-" + jobId }

  lemma KeyInjective(a: string, b: string)
    requires Key(a) == Key(b)
    ensures a == b
  {
    assert Key(a)[4..] == a && Key(b)[4..] == b;
  }

  /** A deposit always opens a new account, whatever was stored for the job before. */
  function Deposit(a: Accounts, jobId: string, buyer: string, builder: Option<string>, amount: real, way: string,
                   created: real, paid: real): Accounts {
    a[Key(jobId) := Account(jobId, buyer, builder, amount, Held, [Payment(amount, way, paid, "confirmed")], [], created, None)]
  }

  predicate IsHeld(a: Accounts, key: string) { key in a && a[key].state == Held }

  function Release(a: Accounts, key: string, m: Movement, now: real): Accounts {
    if IsHeld(a, key) then a[key := a[key].(state := Released, releasedAt := Some(now), releases := a[key].releases + [m])] else a
  }

  function Refund(a: Accounts, key: string, reason: string, now: real): Accounts {
    if IsHeld(a, key) then a[key := a[key].(state := Refunded, releases := a[key].releases + [RefundNote(reason, now)])] else a
  }

  function Freeze(a: Accounts, key: string): Accounts {
    if IsHeld(a, key) then a[key := a[key].(state := Frozen)] else a
  }

  // ---- What each call does ----

  /** A deposit opens a held account with one confirmed payment under esc- and the job id; nothing else changes. */
  lemma DepositExactly(a: Accounts, jobId: string, buyer: string, builder: Option<string>, amount: real, way: string,
                       created: real, paid: real)
    ensures
      var (a', key) := (Deposit(a, jobId, buyer, builder, amount, way, created, paid), "esc-" + jobId);
      key in a' && a'.Keys == a.Keys + {key} && (forall k :: k in a && k != key ==> a'[k] == a[k])
      && a'[key] == Account(jobId, buyer, builder, amount, Held, [Payment(amount, way, paid, "confirmed")], [], created, None)
  {
  }

  /** Release, refund and freeze act exactly on a held account, which keeps its parties, amount and payments; a second
      one of any kind then does nothing. */
  lemma OnlyHeldMoves(a: Accounts, key: string, m: Movement, reason: string, now: real)
    ensures
      var (released, refunded, frozen) := (Release(a, key, m, now), Refund(a, key, reason, now), Freeze(a, key));
      if key in a && a[key].state == Held then
        var h := a[key];
        released == a[key := h.(state := Released, releasedAt := Some(now), releases := h.releases + [m])]
        && refunded == a[key := h.(state := Refunded, releases := h.releases + [RefundNote(reason, now)])]
        && frozen == a[key := h.(state := Frozen)]
        && Release(refunded, key, m, now) == refunded && Refund(frozen, key, reason, now) == frozen
        && Freeze(released, key) == released && Release(released, key, m, now) == released
      else released == a && refunded == a && frozen == a
  {
  }

  // ---- Where the money is ----

  function HeldAmount(a: Account): real { if a.state == Held then a.amount else 0.0 }

  /** Held, or frozen until a dispute is resolved. */
  function CustodyAmount(a: Account): real { if a.state in {Held, Frozen} then a.amount else 0.0 }

  ghost function HeldTotal(a: Accounts): real { Total(a, HeldAmount) }
  ghost function CustodyTotal(a: Accounts): real { Total(a, CustodyAmount) }

  /** What the account of a job holds in either sense; 0 without an account. */
  function HeldAt(a: Accounts, key: string): real { if key in a then HeldAmount(a[key]) else 0.0 }
  function CustodyAt(a: Accounts, key: string): real { if key in a then CustodyAmount(a[key]) else 0.0 }

  /** A deposit replaces whatever the job's account held: the total rises by its amount less what was there, so by
      exactly its amount if and only if the job had no held (or frozen) account, or an empty one. */
  lemma DepositAddsExactly(a: Accounts, jobId: string, buyer: string, builder: Option<string>, amount: real, way: string,
                           created: real, paid: real)
    ensures
      var (a', key) := (Deposit(a, jobId, buyer, builder, amount, way, created, paid), Key(jobId));
      HeldTotal(a') == HeldTotal(a) + amount - HeldAt(a, key)
      && CustodyTotal(a') == CustodyTotal(a) + amount - CustodyAt(a, key)
      && (HeldTotal(a') == HeldTotal(a) + amount <==> !IsHeld(a, key) || a[key].amount == 0.0)
      && (CustodyTotal(a') == CustodyTotal(a) + amount
          <==> !(key in a && a[key].state in {Held, Frozen}) || a[key].amount == 0.0)
  {
    hide Total;
    var a' := Deposit(a, jobId, buyer, builder, amount, way, created, paid);
    TotalPut(a, HeldAmount, Key(jobId), a'[Key(jobId)]);
    TotalPut(a, CustodyAmount, Key(jobId), a'[Key(jobId)]);
  }

  /** A second deposit loses the first: both were paid in, one is held. */
  lemma SecondDepositReplaces(a: Accounts, jobId: string, buyer: string, builder: Option<string>, first: real,
                              second: real, way: string, created: real, paid: real)
    requires Key(jobId) !in a
    ensures
      var once := Deposit(a, jobId, buyer, builder, first, way, created, paid);
      var twice := Deposit(once, jobId, buyer, builder, second, way, created, paid);
      HeldTotal(once) == HeldTotal(a) + first && HeldTotal(twice) == HeldTotal(a) + second
  {
    hide HeldTotal;
    DepositAddsExactly(a, jobId, buyer, builder, first, way, created, paid);
    var once := Deposit(a, jobId, buyer, builder, first, way, created, paid);
    DepositAddsExactly(once, jobId, buyer, builder, second, way, created, paid);
  }

  /** Release and refund take exactly the held amount of the account out of custody; freezing takes nothing. */
  lemma PayoutsTakeHeld(a: Accounts, key: string, m: Movement, reason: string, now: real)
    ensures CustodyTotal(Release(a, key, m, now)) == CustodyTotal(a) - HeldAt(a, key)
    ensures CustodyTotal(Refund(a, key, reason, now)) == CustodyTotal(a) - HeldAt(a, key)
    ensures CustodyTotal(Freeze(a, key)) == CustodyTotal(a)
  {
    hide Total;
    if IsHeld(a, key) {
      TotalPut(a, CustodyAmount, key, Release(a, key, m, now)[key]);
      TotalPut(a, CustodyAmount, key, Refund(a, key, reason, now)[key]);
      TotalPut(a, CustodyAmount, key, Freeze(a, key)[key]);
    }
  }

  // ---- The split ----

  /** round(): to the nearest integer, ties to even. */
  function RoundHalfEven(x: real): int {
    var f := x.Floor;
    var d := x - f as real;
    if d < 0.5 then f else if d > 0.5 then f + 1 else if f % 2 == 0 then f else f + 1
  }

  function Cents(usd: real): int { RoundHalfEven(usd * 100.0) }

  datatype Distribution = Distribution(
    infrastructure: int, validators: int, builder: int, treasury: int, risk: int, total: int)

  /** The shares in cents. */
  function Distribute(amount: real): Distribution {
    Distribution(Cents(amount * 0.15), Cents(amount * 0.20), Cents(amount * 0.45),
                 Cents(amount * 0.10), Cents(amount * 0.10), Cents(amount))
  }

  function Shared(d: Distribution): int { d.infrastructure + d.validators + d.builder + d.treasury + d.risk }

  ghost predicate Near(k: int, y: real) { -0.5 <= k as real - y <= 0.5 }

  ghost predicate TieToEven(k: int, y: real) { k as real - y == 0.5 || k as real - y == -0.5 ==> k % 2 == 0 }

  lemma RoundIsNear(x: real)
    ensures Near(RoundHalfEven(x), x) && TieToEven(RoundHalfEven(x), x)
  {
  }

  /** One period of the five roundings: for x in [0, 1) the shares of 20x cents miss the rounded total by at most one. */
  lemma UnitShares(x: real, a: int, b: int, c: int, d: int, t: int)
    requires 0.0 <= x < 1.0
    requires Near(a, 2.0 * x) && Near(b, 4.0 * x) && Near(c, 3.0 * x) && Near(d, 9.0 * x)
    requires Near(t, 20.0 * x) && TieToEven(t, 20.0 * x)
    ensures -1 <= 2 * a + b + c + d - t <= 1
  {
  }

  lemma SharesFrom(amount: real, n: int, x: real)
    requires 0.0 <= x < 1.0 && 5.0 * amount == n as real + x
    ensures -1 <= Shared(Distribute(amount)) - Distribute(amount).total <= 1
  {
    hide RoundHalfEven, Near, TieToEven;
    var r := Distribute(amount);
    Scaled(amount, n, x, 0.10, 2);
    Scaled(amount, n, x, 0.20, 4);
    Scaled(amount, n, x, 0.15, 3);
    Scaled(amount, n, x, 0.45, 9);
    Scaled(amount, n, x, 1.0, 20);
    UnitShares(x, r.treasury - 2 * n, r.validators - 4 * n, r.infrastructure - 3 * n, r.builder - 9 * n, r.total - 20 * n);
  }

  /** The share `part` of the amount, with whole periods taken out. */
  lemma Scaled(amount: real, n: int, x: real, part: real, k: int)
    requires 5.0 * amount == n as real + x && part * 20.0 == k as real
    ensures
      var rounded := Cents(amount * part) - k * n;
      Near(rounded, k as real * x) && (k % 2 == 0 ==> TieToEven(rounded, k as real * x))
  {
    hide RoundHalfEven, Near, TieToEven;
    calc {
      amount * part * 100.0;
      amount * 5.0 * (part * 20.0);
      (n as real + x) * k as real;
      n as real * k as real + x * k as real;
    }
    Product(n, k);
    EvenMultiple(k, n);
    Shifted(amount * part * 100.0, k * n, k as real * x);
  }

  lemma Product(n: int, k: int)
    ensures n as real * k as real == (k * n) as real
  {
  }

  lemma EvenMultiple(k: int, n: int)
    ensures k % 2 == 0 ==> k * n % 2 == 0
  {
    if k % 2 == 0 {
      assert k * n == 2 * (k / 2 * n);
    }
  }

  /** The five rounded shares differ from the rounded total by at most one cent, for every amount. */
  lemma SharesWithinOneCent(amount: real)
    ensures -1 <= Shared(Distribute(amount)) - Distribute(amount).total <= 1
  {
    var n := (5.0 * amount).Floor;
    SharesFrom(amount, n, 5.0 * amount - n as real);
  }

  lemma Shifted(y: real, s: int, rest: real)
    requires y - s as real == rest
    ensures Near(RoundHalfEven(y) - s, rest) && (s % 2 == 0 ==> TieToEven(RoundHalfEven(y) - s, rest))
  {
    RoundIsNear(y);
  }

  /** One cent is reached on both sides: six cents are shared out as seven, one cent as none. */
  lemma OneCentIsReached()
    ensures Shared(Distribute(0.06)) == Distribute(0.06).total + 1
    ensures Shared(Distribute(0.01)) == Distribute(0.01).total - 1
  {
    var six, one := Distribute(0.06), Distribute(0.01);
    assert six == Distribution(1, 1, 3, 1, 1, 6);
    assert one == Distribution(0, 0, 0, 0, 0, 1);
  }

  /** Rounding a number of twentieths, in integers. */
  function RoundTwentieths(a: int): int {
    var q, r := a / 20, a % 20;
    if r < 10 then q else if r > 10 then q + 1 else if q % 2 == 0 then q else q + 1
  }

  lemma TwentiethsRound(a: int, y: real)
    requires y * 20.0 == a as real
    ensures RoundHalfEven(y) == RoundTwentieths(a)
  {
    var q := a / 20;
    assert y == q as real + (a % 20) as real / 20.0;
    assert y.Floor == q;
  }

  /** The shares of a whole number of cents, in integers. */
  lemma CentShares(cents: int)
    ensures
      var d := Distribute(cents as real / 100.0);
      d.total == cents && d.treasury == d.risk == RoundTwentieths(2 * cents) && d.validators == RoundTwentieths(4 * cents)
      && d.infrastructure == RoundTwentieths(3 * cents) && d.builder == RoundTwentieths(9 * cents)
  {
    hide RoundHalfEven, RoundTwentieths;
    var amount := cents as real / 100.0;
    TwentiethsRound(2 * cents, amount * 0.10 * 100.0);
    TwentiethsRound(4 * cents, amount * 0.20 * 100.0);
    TwentiethsRound(3 * cents, amount * 0.15 * 100.0);
    TwentiethsRound(9 * cents, amount * 0.45 * 100.0);
    TwentiethsRound(20 * cents, amount * 100.0);
    WholeRounds(cents);
  }

  lemma WholeRounds(n: int)
    ensures RoundTwentieths(20 * n) == n
  {
  }

  /** Exact, for every whole number of cents, of either sign: the shares add up to the total if and only if the cents
      left over from whole fifths of a dollar are among these eight. */
  lemma SharesAddUpExactly(cents: int)
    ensures
      var d := Distribute(cents as real / 100.0);
      Shared(d) == d.total <==> cents % 20 in {0, 4, 7, 9, 10, 11, 13, 16}
  {
    hide RoundHalfEven, RoundTwentieths;
    CentShares(cents);
    var n, j := cents / 20, cents % 20;
    Shift(2 * j, 2 * n);
    Shift(4 * j, 4 * n);
    OddShares(n, j);
    Period(j);
  }

  /** Whole periods come out of the rounding, but for a tie by an even number of them only. */
  lemma Shift(a: int, periods: int)
    requires a % 20 != 10 || periods % 2 == 0
    ensures RoundTwentieths(20 * periods + a) == periods + RoundTwentieths(a)
  {
    assert (20 * periods + a) / 20 == periods + a / 20 && (20 * periods + a) % 20 == a % 20;
  }

  /** The two odd shares tie together, at half a period, and then round to opposite sides. */
  lemma OddShares(n: int, j: int)
    requires 0 <= j < 20
    ensures RoundTwentieths(20 * (3 * n) + 3 * j) + RoundTwentieths(20 * (9 * n) + 9 * j)
      == 12 * n + RoundTwentieths(3 * j) + RoundTwentieths(9 * j)
  {
    hide RoundTwentieths;
    if j == 10 {
      TieShares(n);
    } else {
      Shift(3 * j, 3 * n);
      Shift(9 * j, 9 * n);
    }
  }

  lemma TieShares(n: int)
    ensures RoundTwentieths(20 * (3 * n) + 30) + RoundTwentieths(20 * (9 * n) + 90)
      == 12 * n + RoundTwentieths(30) + RoundTwentieths(90)
  {
    hide RoundTwentieths;
    TieRounds(3 * n + 1);
    TieRounds(9 * n + 4);
    TieRounds(1);
    TieRounds(4);
  }

  lemma TieRounds(q: int)
    ensures RoundTwentieths(20 * q + 10) == if q % 2 == 0 then q else q + 1
  {
    assert (20 * q + 10) / 20 == q && (20 * q + 10) % 20 == 10;
  }

  lemma RoundsTo(a: int, q: int)
    requires 20 * q - 10 < a < 20 * q + 10 || (q % 2 == 0 && 20 * q - 10 <= a <= 20 * q + 10)
    ensures RoundTwentieths(a) == q
  {
    if a < 20 * q {
      assert a / 20 == q - 1 && a % 20 == a - 20 * (q - 1);
    } else {
      assert a / 20 == q && a % 20 == a - 20 * q;
    }
  }

  lemma Period(j: int)
    requires 0 <= j < 20
    ensures 2 * RoundTwentieths(2 * j) + RoundTwentieths(4 * j) + RoundTwentieths(3 * j) + RoundTwentieths(9 * j) == j
      <==> j in {0, 4, 7, 9, 10, 11, 13, 16}
  {
    hide RoundTwentieths;
    RoundsTo(2 * j, if j <= 5 then 0 else if j <= 14 then 1 else 2);
    RoundsTo(4 * j, if j <= 2 then 0 else if j <= 7 then 1 else if j <= 12 then 2 else if j <= 17 then 3 else 4);
    RoundsTo(3 * j, if j <= 3 then 0 else if j <= 9 then 1 else if j <= 16 then 2 else 3);
    RoundsTo(9 * j, (9 * j + 9) / 20);
  }

  // ---- The object ----

  class EscrowManager {
    var accounts: Accounts

    constructor ()
      ensures accounts == map[]
    {
      accounts := map[];
    }

    method OpenDeposit(jobId: string, buyer: string, builder: Option<string>, amount: real, way: string,
                       created: real, paid: real)
      modifies this
      ensures accounts == Deposit(old(accounts), jobId, buyer, builder, amount, way, created, paid)
    {
      var account := Account(jobId, buyer, builder, amount, Held, [], [], created, None);
      var payment := Payment(amount, way, paid, "confirmed");
      account := account.(deposits := account.deposits + [payment]);
      assert account.deposits == [payment];
      accounts := accounts["esc-" + jobId := account];
    }

    method ReleaseFunds(key: string, m: Movement, now: real) returns (released: bool, d: Distribution)
      modifies this
      ensures accounts == Release(old(accounts), key, m, now) && released == IsHeld(old(accounts), key)
      ensures released ==> d == Distribute(old(accounts)[key].amount)
      ensures released ==> -1 <= Shared(d) - d.total <= 1
    {
      if key !in accounts || accounts[key].state != Held {
        return false, Distribution(0, 0, 0, 0, 0, 0);
      }
      var account := accounts[key].(state := Released);
      account := account.(releasedAt := Some(now), releases := account.releases + [m]);
      accounts := accounts[key := account];
      SharesWithinOneCent(account.amount);
      return true, Distribute(account.amount);
    }

    method RefundBuyer(key: string, reason: string, now: real) returns (ok: bool)
      modifies this
      ensures accounts == Refund(old(accounts), key, reason, now) && ok == IsHeld(old(accounts), key)
    {
      if key !in accounts || accounts[key].state != Held {
        return false;
      }
      var account := accounts[key].(state := Refunded);
      accounts := accounts[key := account.(releases := account.releases + [RefundNote(reason, now)])];
      return true;
    }

    method FreezeFunds(key: string) returns (ok: bool)
      modifies this
      ensures accounts == Freeze(old(accounts), key) && ok == IsHeld(old(accounts), key)
    {
      if key !in accounts || accounts[key].state != Held {
        return false;
      }
      accounts := accounts[key := accounts[key].(state := Frozen)];
      return true;
    }
  }
}
