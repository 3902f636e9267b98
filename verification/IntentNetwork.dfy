/** Gas-deferred payment intents: create, claim, confirm, cancel, expire, with per-sender nonces. */
module IntentNetwork {
  import opened Wrappers
  import opened ProofBook

  const CLAIM_WINDOW: real := 604800.0

  datatype Status = Pending | Claimed | Expired | Cancelled | Settling

  datatype PaymentIntent = PaymentIntent(
    intentId: string, sender: string, receiver: string, token: string, amount: int,
    createdAt: real, expiresAt: real, nonce: nat, signature: string, status: Status,
    claimedAt: Option<real>, settlementTx: Option<string>, relayer: Option<string>, feeCreditIds: seq<string>)

  datatype Network = Network(intents: map<string, PaymentIntent>, nonces: map<string, nat>)

  const EMPTY_NETWORK: Network := Network(map[], map[])

  /** Decimals of the default approved tokens. */
  function Decimals(token: string): Option<nat> {
    if token == "MEMBRA" || token == "SOL" then Some(9)
    else if token == "USDC" || token == "USDT" || token == "USDC_ETH" then Some(6)
    else if token == "WETH" then Some(18)
    else None
  }

  predicate Claimable(i: PaymentIntent, now: real) { i.status == Pending && now < i.expiresAt }

  function NextNonce(n: Network, sender: string): nat { if sender in n.nonces then n.nonces[sender] else 0 }

  // ---- Transitions ----

  datatype CreateClock = CreateClock(created: real, logged: real)

  function Create(n: Network, b: Book, sender: string, receiver: string, token: string, amount: int,
                  signature: string, id: string, t: CreateClock): (Network, Book, Option<PaymentIntent>) {
    if Decimals(token).None? || amount <= 0 then (n, b, None)
    else
      var nonce := NextNonce(n, sender);
      var i := PaymentIntent(id, sender, receiver, token, amount, t.created, t.created + CLAIM_WINDOW, nonce,
                             signature, Pending, None, None, None, []);
      (Network(n.intents[id := i], n.nonces[sender := nonce + 1]),
       Appended(b, GovernanceAction, IntentCreated(id, sender, receiver, token, amount, i.expiresAt), t.logged),
       Some(i))
  }

  function Claim(n: Network, id: string, checked: real, claimed: real): (Network, bool) {
    if id !in n.intents || !Claimable(n.intents[id], checked) then (n, false)
    else (n.(intents := n.intents[id := n.intents[id].(status := Settling, claimedAt := Some(claimed))]), true)
  }

  function Confirm(n: Network, b: Book, id: string, tx: string, relayer: string, creditIds: seq<string>,
                   logged: real): (Network, Book, bool) {
    if id !in n.intents || n.intents[id].status != Settling then (n, b, false)
    else
      var i := n.intents[id].(status := Claimed, settlementTx := Some(tx), relayer := Some(relayer), feeCreditIds := creditIds);
      (n.(intents := n.intents[id := i]),
       Appended(b, GovernanceAction, IntentSettled(id, tx, relayer, creditIds), logged),
       true)
  }

  function Cancel(n: Network, b: Book, id: string, sender: string, checked: real, logged: real): (Network, Book, bool) {
    if id !in n.intents || n.intents[id].sender != sender || !Claimable(n.intents[id], checked) then (n, b, false)
    else
      (n.(intents := n.intents[id := n.intents[id].(status := Cancelled)]),
       Appended(b, GovernanceAction, IntentCancelled(id), logged),
       true)
  }

  function ExpireOne(i: PaymentIntent, now: real): PaymentIntent {
    if i.status == Pending && now >= i.expiresAt then i.(status := Expired) else i
  }

  /** The clock is read once for each intent. */
  function ExpireIntents(n: Network, readings: string -> real): Network {
    n.(intents := map k | k in n.intents :: ExpireOne(n.intents[k], readings(k)))
  }

  // ---- Runs ----

  datatype Op =
    | DoCreate(sender: string, receiver: string, token: string, amount: int, signature: string, id: string, t: CreateClock)
    | DoClaim(id: string, checked: real, claimed: real)
    | DoConfirm(id: string, tx: string, relayer: string, creditIds: seq<string>, logged: real)
    | DoCancel(id: string, sender: string, checked: real, logged: real)
    | DoExpire(readings: string -> real)

  function Step(n: Network, b: Book, op: Op): (Network, Book) {
    match op
    case DoCreate(sender, receiver, token, amount, signature, id, t) =>
      var r := Create(n, b, sender, receiver, token, amount, signature, id, t); (r.0, r.1)
    case DoClaim(id, checked, claimed) => (Claim(n, id, checked, claimed).0, b)
    case DoConfirm(id, tx, relayer, creditIds, logged) =>
      var r := Confirm(n, b, id, tx, relayer, creditIds, logged); (r.0, r.1)
    case DoCancel(id, sender, checked, logged) =>
      var r := Cancel(n, b, id, sender, checked, logged); (r.0, r.1)
    case DoExpire(readings) => (ExpireIntents(n, readings), b)
  }

  /** Generated intent ids are fresh. */
  predicate Enabled(n: Network, op: Op) { op.DoCreate? ==> op.id !in n.intents }

  ghost predicate HasNonce(n: Network, sender: string, nonce: nat) {
    exists id :: id in n.intents && n.intents[id].sender == sender && n.intents[id].nonce == nonce
  }

  /** The nonces of each sender's intents are exactly 0, 1, ..., next - 1, each used once. */
  ghost predicate NoncesExact(n: Network) {
    (forall u, k: nat :: HasNonce(n, u, k) <==> k < NextNonce(n, u))
    && (forall id, id' :: id in n.intents && id' in n.intents ==>
          (n.intents[id].sender == n.intents[id'].sender && n.intents[id].nonce == n.intents[id'].nonce ==> id == id'))
  }

  /** Same intents up to the fields that settlement changes, and each intent moves forward only. */
  ghost predicate Advances(i: PaymentIntent, i': PaymentIntent) {
    i' == i.(status := i'.status, claimedAt := i'.claimedAt, settlementTx := i'.settlementTx,
             relayer := i'.relayer, feeCreditIds := i'.feeCreditIds)
    && (i.status in {Claimed, Expired, Cancelled} ==> i' == i)
    && (i.status == Settling ==> i'.status in {Settling, Claimed})
  }

  ghost predicate NetworkAdvances(n: Network, n': Network) {
    forall id :: id in n.intents ==> id in n'.intents && Advances(n.intents[id], n'.intents[id])
  }

  lemma StepAdvances(n: Network, b: Book, op: Op)
    requires Enabled(n, op)
    ensures NetworkAdvances(n, Step(n, b, op).0)
  {
  }

  lemma SameIdentityKeepsNonces(n: Network, n': Network)
    requires NoncesExact(n) && n'.nonces == n.nonces && n'.intents.Keys == n.intents.Keys && NetworkAdvances(n, n')
    ensures NoncesExact(n')
  {
    forall u, k: nat ensures HasNonce(n', u, k) <==> k < NextNonce(n', u) {
      assert HasNonce(n, u, k) <==> k < NextNonce(n, u);
      if HasNonce(n, u, k) {
        var id :| id in n.intents && n.intents[id].sender == u && n.intents[id].nonce == k;
        assert Advances(n.intents[id], n'.intents[id]);
      }
      if HasNonce(n', u, k) {
        var id :| id in n'.intents && n'.intents[id].sender == u && n'.intents[id].nonce == k;
        assert Advances(n.intents[id], n'.intents[id]);
      }
    }
    forall id, id' | id in n'.intents && id' in n'.intents && n'.intents[id].sender == n'.intents[id'].sender
        && n'.intents[id].nonce == n'.intents[id'].nonce
      ensures id == id'
    {
      assert Advances(n.intents[id], n'.intents[id]) && Advances(n.intents[id'], n'.intents[id']);
    }
  }

  lemma CreateKeepsNonces(n: Network, n': Network, i: PaymentIntent)
    requires NoncesExact(n) && i.intentId !in n.intents && i.nonce == NextNonce(n, i.sender)
    requires n' == Network(n.intents[i.intentId := i], n.nonces[i.sender := i.nonce + 1])
    ensures NoncesExact(n')
  {
    forall u, k: nat ensures HasNonce(n', u, k) <==> k < NextNonce(n', u) {
      assert HasNonce(n, u, k) <==> k < NextNonce(n, u);
      if HasNonce(n, u, k) {
        var id :| id in n.intents && n.intents[id].sender == u && n.intents[id].nonce == k;
        assert n'.intents[id] == n.intents[id];
      }
      if u == i.sender && k == i.nonce {
        assert n'.intents[i.intentId] == i;
      }
      if HasNonce(n', u, k) {
        var id :| id in n'.intents && n'.intents[id].sender == u && n'.intents[id].nonce == k;
        if id != i.intentId { assert n.intents[id].nonce == k; }
      }
    }
    forall id | id in n.intents && n.intents[id].sender == i.sender ensures n.intents[id].nonce < i.nonce {
      assert HasNonce(n, i.sender, n.intents[id].nonce);
    }
  }

  lemma StepKeepsNonces(n: Network, b: Book, op: Op)
    requires NoncesExact(n) && Enabled(n, op)
    ensures NoncesExact(Step(n, b, op).0)
  {
    hide NoncesExact;
    StepAdvances(n, b, op);
    var n' := Step(n, b, op).0;
    if op.DoCreate? {
      if Decimals(op.token).Some? && op.amount > 0 {
        CreateKeepsNonces(n, n', n'.intents[op.id]);
      }
    } else {
      SameIdentityKeepsNonces(n, n');
    }
  }

  /** The claim window: an accepted intent carries the sender's next nonce, can be claimed before seven days are over
      and not after, and a claim confirmed by a relayer is final. */
  lemma ClaimWindow(n: Network, b: Book, sender: string, receiver: string, token: string, amount: int, signature: string,
                    id: string, t: CreateClock, checked: real, tx: string, relayer: string, ids: seq<string>)
    ensures
      var (n1, b1, created) := Create(n, b, sender, receiver, token, amount, signature, id, t);
      (created.Some? <==> Decimals(token).Some? && amount > 0)
      && (created.Some? ==>
            var (n2, claimed) := Claim(n1, id, checked, checked);
            var (n3, b3, settled) := Confirm(n2, b1, id, tx, relayer, ids, checked);
            created.value.nonce == NextNonce(n, sender) && NextNonce(n1, sender) == created.value.nonce + 1
            && (claimed <==> checked < t.created + 604800.0) && (settled <==> claimed)
            && (settled ==> n3.intents[id].status == Claimed && n3.intents[id].relayer == Some(relayer)
                            && !Claim(n3, id, checked, checked).1 && !Cancel(n3, b3, id, sender, checked, checked).2))
  {
  }

  // ---- What each call does ----

  /** Six tokens are approved, with 9, 18 or 6 decimals. */
  lemma TokensExactly(token: string)
    ensures Decimals(token).Some? <==> token in {"MEMBRA", "SOL", "USDC", "USDT", "USDC_ETH", "WETH"}
    ensures Decimals(token).Some? ==>
      Decimals(token).value == if token in {"MEMBRA", "SOL"} then 9 else if token == "WETH" then 18 else 6
  {
  }

  /** An intent is created exactly for an approved token and a positive amount; it is pending for 604800 seconds, takes the
      sender's next nonce and is logged. */
  lemma CreateExactly(n: Network, b: Book, sender: string, receiver: string, token: string, amount: int,
                      signature: string, id: string, t: CreateClock)
    ensures
      var (n', b', created) := Create(n, b, sender, receiver, token, amount, signature, id, t);
      var nonce := if sender in n.nonces then n.nonces[sender] else 0;
      (created.Some? <==> token in {"MEMBRA", "SOL", "USDC", "USDT", "USDC_ETH", "WETH"} && amount > 0)
      && (created.None? ==> n' == n && b' == b)
      && (created.Some? ==>
            created.value == PaymentIntent(id, sender, receiver, token, amount, t.created, t.created + 604800.0, nonce, signature,
                                           Pending, None, None, None, [])
            && n' == Network(n.intents[id := created.value], n.nonces[sender := nonce + 1])
            && Logs(b, b', GovernanceAction, IntentCreated(id, sender, receiver, token, amount, t.created + 604800.0), t.logged))
  {
    TokensExactly(token);
    AppendLogs(b, GovernanceAction, IntentCreated(id, sender, receiver, token, amount, t.created + 604800.0), t.logged);
  }

  /** A claim succeeds exactly for a pending intent whose window is open, and only marks it as settling. */
  lemma ClaimExactly(n: Network, id: string, checked: real, claimed: real)
    ensures
      var (n', ok) := Claim(n, id, checked, claimed);
      (ok <==> id in n.intents && n.intents[id].status == Pending && checked < n.intents[id].expiresAt) && (!ok ==> n' == n)
      && (ok ==> n'.nonces == n.nonces
                 && n'.intents == n.intents[id := n.intents[id].(status := Settling, claimedAt := Some(claimed))])
  {
  }

  /** A confirmation succeeds exactly for a settling intent, records transaction, relayer and credits, and is logged. */
  lemma ConfirmExactly(n: Network, b: Book, id: string, tx: string, relayer: string, ids: seq<string>, logged: real)
    ensures
      var (n', b', ok) := Confirm(n, b, id, tx, relayer, ids, logged);
      (ok <==> id in n.intents && n.intents[id].status == Settling) && (!ok ==> n' == n && b' == b)
      && (ok ==>
            n'.nonces == n.nonces
            && n'.intents == n.intents[id := n.intents[id].(status := Claimed, settlementTx := Some(tx), relayer := Some(relayer),
                                                            feeCreditIds := ids)]
            && Logs(b, b', GovernanceAction, IntentSettled(id, tx, relayer, ids), logged))
  {
    AppendLogs(b, GovernanceAction, IntentSettled(id, tx, relayer, ids), logged);
  }

  /** A cancellation succeeds exactly for the sender of a pending intent whose window is open, and is logged. */
  lemma CancelExactly(n: Network, b: Book, id: string, sender: string, checked: real, logged: real)
    ensures
      var (n', b', ok) := Cancel(n, b, id, sender, checked, logged);
      (ok <==> id in n.intents && n.intents[id].sender == sender && n.intents[id].status == Pending
               && checked < n.intents[id].expiresAt)
      && (!ok ==> n' == n && b' == b)
      && (ok ==> n'.nonces == n.nonces && n'.intents == n.intents[id := n.intents[id].(status := Cancelled)]
                 && Logs(b, b', GovernanceAction, IntentCancelled(id), logged))
  {
    AppendLogs(b, GovernanceAction, IntentCancelled(id), logged);
  }

  /** Exactly the pending intents whose window is over at their reading expire; nothing else changes. */
  lemma ExpirePointwise(n: Network, readings: string -> real)
    ensures
      var n' := ExpireIntents(n, readings);
      n'.nonces == n.nonces && n'.intents.Keys == n.intents.Keys
      && forall id :: id in n.intents ==>
           n'.intents[id]
           == if n.intents[id].status == Pending && n.intents[id].expiresAt <= readings(id)
              then n.intents[id].(status := Expired) else n.intents[id]
  {
  }

  // ---- The object ----

  class IntentBoard {
    const book: ProofLog
    var intents: map<string, PaymentIntent>
    var nonces: map<string, nat>

    ghost function View(): Network
      reads this
    {
      Network(intents, nonces)
    }

    constructor (book: ProofLog)
      ensures this.book == book && View() == EMPTY_NETWORK
    {
      this.book := book;
      intents, nonces := map[], map[];
    }

    method CreateIntent(sender: string, receiver: string, token: string, amount: int, signature: string,
                        id: string, t: CreateClock) returns (created: Option<PaymentIntent>)
      modifies this, book
      ensures (View(), book.View(), created)
        == Create(old(View()), old(book.View()), sender, receiver, token, amount, signature, id, t)
    {
      if Decimals(token).None? {
        return None;
      }
      if amount <= 0 {
        return None;
      }
      var nonce := if sender in nonces then nonces[sender] else 0;
      var i := PaymentIntent(id, sender, receiver, token, amount, t.created, t.created + CLAIM_WINDOW, nonce,
                             signature, Pending, None, None, None, []);
      intents := intents[id := i];
      nonces := nonces[sender := nonce + 1];
      var _ := book.Append(GovernanceAction, IntentCreated(id, sender, receiver, token, amount, i.expiresAt), t.logged);
      return Some(i);
    }

    method ClaimIntent(id: string, checked: real, claimed: real) returns (ok: bool)
      modifies this
      ensures (View(), ok) == Claim(old(View()), id, checked, claimed)
    {
      if id !in intents {
        return false;
      }
      var i := intents[id];
      if !Claimable(i, checked) {
        return false;
      }
      i := i.(status := Settling);
      intents := intents[id := i.(claimedAt := Some(claimed))];
      return true;
    }

    method ConfirmSettlement(id: string, tx: string, relayer: string, creditIds: seq<string>, logged: real) returns (ok: bool)
      modifies this, book
      ensures (View(), book.View(), ok) == Confirm(old(View()), old(book.View()), id, tx, relayer, creditIds, logged)
    {
      if id !in intents || intents[id].status != Settling {
        return false;
      }
      var i := intents[id].(status := Claimed);
      i := i.(settlementTx := Some(tx), relayer := Some(relayer), feeCreditIds := creditIds);
      intents := intents[id := i];
      var _ := book.Append(GovernanceAction, IntentSettled(id, tx, relayer, creditIds), logged);
      return true;
    }

    method CancelIntent(id: string, sender: string, checked: real, logged: real) returns (ok: bool)
      modifies this, book
      ensures (View(), book.View(), ok) == Cancel(old(View()), old(book.View()), id, sender, checked, logged)
    {
      if id !in intents {
        return false;
      }
      if intents[id].sender != sender {
        return false;
      }
      if !Claimable(intents[id], checked) {
        return false;
      }
      intents := intents[id := intents[id].(status := Cancelled)];
      var _ := book.Append(GovernanceAction, IntentCancelled(id), logged);
      return true;
    }

    method ExpireAll(readings: string -> real)
      modifies this`intents
      ensures View() == ExpireIntents(old(View()), readings)
    {
      var left := intents.Keys;
      while left != {}
        invariant intents.Keys == old(intents).Keys && left <= intents.Keys
        invariant forall k :: k in intents ==>
          intents[k] == if k in left then old(intents)[k] else ExpireOne(old(intents)[k], readings(k))
        decreases |left|
      {
        var k :| k in left;
        if intents[k].status == Pending && readings(k) >= intents[k].expiresAt {
          intents := intents[k := intents[k].(status := Expired)];
        }
        left := left - {k};
      }
    }
  }
}
