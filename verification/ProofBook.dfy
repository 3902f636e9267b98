/** The append-only, hash-chained log shared by the gas vault, the intent network and governance.
    Hashing is a term algebra over the hashed fields: collision free and never the genesis hash. */
module ProofBook {

  datatype ProofType =
    | Volatility | Development | ZkCompute | GovernanceAction | FeeCredit
    | RouteValidation | OracleUpdate | Treasury | IdentityLink

  datatype Choice = For | Against | Abstain

  datatype Coverage = Unbounded | Ratio(value: real)

  /** What an entry records, one constructor for each action; Other stands for entries of other modules. */
  datatype Payload =
    | Deposited(amount: int, source: string, newReserves: int)
    | Withdrawn(amount: int, destination: string, reason: string, newReserves: int)
    | Reimbursed(relayer: string, amount: int, txSignature: string, coverageAfter: Coverage)
    | CreditIssued(creditId: string, user: string, amount: int, proofRef: Hash, expiresAt: real)
    | IntentCreated(intentId: string, sender: string, receiver: string, token: string, amount: int, expiresAt: real)
    | IntentSettled(intentId: string, txSignature: string, relayer: string, creditIds: seq<string>)
    | IntentCancelled(intentId: string)
    | ProposalCreated(proposalId: string, proposalType: string, title: string, proposer: string, requiredProofs: seq<Hash>)
    | VoteCast(proposalId: string, voter: string, choice: Choice, weight: real)
    | ProposalFinalized(proposalId: string, approved: bool, votesFor: real, votesAgainst: real, votesAbstain: real)
    | ProposalExecuted(proposalId: string, executor: string)
    | Other(text: string)

  datatype Hash = Genesis | Sealed(proofType: ProofType, data: Payload, timestamp: real, prev: Hash)

  datatype Entry = Entry(proofType: ProofType, data: Payload, timestamp: real, prevHash: Hash, entryHash: Hash)

  function ComputeHash(e: Entry): Hash { Sealed(e.proofType, e.data, e.timestamp, e.prevHash) }

  /** The log as a value. */
  datatype Book = Book(entries: seq<Entry>, lastHash: Hash)

  const EMPTY_BOOK: Book := Book([], Genesis)

  function SealedEntry(b: Book, proofType: ProofType, data: Payload, now: real): Entry {
    Entry(proofType, data, now, b.lastHash, Sealed(proofType, data, now, b.lastHash))
  }

  function Appended(b: Book, proofType: ProofType, data: Payload, now: real): Book {
    var e := SealedEntry(b, proofType, data, now);
    Book(b.entries + [e], e.entryHash)
  }

  // ---- The chain ----

  function LastHash(entries: seq<Entry>): Hash {
    if entries == [] then Genesis else ComputeHash(entries[|entries| - 1])
  }

  /** What verify_chain checks: each link and each stored hash. */
  predicate Chained(entries: seq<Entry>) {
    forall i :: 0 <= i < |entries| ==>
      entries[i].prevHash == LastHash(entries[..i]) && entries[i].entryHash == ComputeHash(entries[i])
  }

  ghost predicate WellFormed(b: Book) { Chained(b.entries) && b.lastHash == LastHash(b.entries) }

  lemma AppendKeepsChain(b: Book, proofType: ProofType, data: Payload, now: real)
    requires WellFormed(b)
    ensures WellFormed(Appended(b, proofType, data, now))
  {
    var b' := Appended(b, proofType, data, now);
    forall i | 0 <= i < |b'.entries|
      ensures b'.entries[i].prevHash == LastHash(b'.entries[..i]) && b'.entries[i].entryHash == ComputeHash(b'.entries[i])
    {
      assert b'.entries[..i] == b.entries[..i];
      if i == |b.entries| {
        assert b.entries[..i] == b.entries;
      }
    }
  }

  /** Binding: the last hash determines the whole verified log. */
  lemma {:induction false} LastHashBinds(a: seq<Entry>, b: seq<Entry>)
    requires Chained(a) && Chained(b) && LastHash(a) == LastHash(b)
    ensures a == b
    decreases |a|
  {
    if a != [] && b != [] {
      var m, n := |a| - 1, |b| - 1;
      assert Chained(a[..m]) by { forall i | 0 <= i < m ensures a[..m][..i] == a[..i] {} }
      assert Chained(b[..n]) by { forall i | 0 <= i < n ensures b[..n][..i] == b[..i] {} }
      LastHashBinds(a[..m], b[..n]);
      assert a == a[..m] + [a[m]] && b == b[..n] + [b[n]];
    }
  }

  datatype Record = Record(proofType: ProofType, data: Payload, now: real)

  function AppendAll(b: Book, records: seq<Record>): Book
    decreases |records|
  {
    if records == [] then b
    else AppendAll(Appended(b, records[0].proofType, records[0].data, records[0].now), records[1..])
  }

  predicate Records(e: Entry, r: Record) { e.proofType == r.proofType && e.data == r.data && e.timestamp == r.now }

  /** Every append sequence verifies, keeps the log before it and records itself in order. */
  lemma {:induction false} AppendsVerify(b: Book, records: seq<Record>)
    requires WellFormed(b)
    ensures WellFormed(AppendAll(b, records))
    ensures b.entries <= AppendAll(b, records).entries && |AppendAll(b, records).entries| == |b.entries| + |records|
    ensures forall k :: 0 <= k < |records| ==> Records(AppendAll(b, records).entries[|b.entries| + k], records[k])
    decreases |records|
  {
    hide WellFormed;
    if records != [] {
      var r := records[0];
      var b' := Appended(b, r.proofType, r.data, r.now);
      AppendKeepsChain(b, r.proofType, r.data, r.now);
      AppendsVerify(b', records[1..]);
      forall k | 0 <= k < |records| ensures Records(AppendAll(b, records).entries[|b.entries| + k], records[k]) {
        if k == 0 {
          assert b'.entries[|b.entries|] == AppendAll(b, records).entries[|b.entries|];
        } else {
          assert records[1..][k - 1] == records[k];
        }
      }
    }
  }

  /** Logs built by appends have equal last hashes if and only if the append sequences are equal. */
  lemma LogsWithEqualHashAreEqual(first: seq<Record>, second: seq<Record>)
    ensures AppendAll(EMPTY_BOOK, first).lastHash == AppendAll(EMPTY_BOOK, second).lastHash <==> first == second
  {
    hide AppendAll, Chained;
    EmptyBookVerifies();
    AppendsVerify(EMPTY_BOOK, first);
    AppendsVerify(EMPTY_BOOK, second);
    var a, b := AppendAll(EMPTY_BOOK, first), AppendAll(EMPTY_BOOK, second);
    if a.lastHash == b.lastHash {
      LastHashBinds(a.entries, b.entries);
      forall k | 0 <= k < |first| ensures first[k] == second[k] {
        assert Records(a.entries[k], first[k]) && Records(b.entries[k], second[k]);
      }
    }
  }

  lemma EmptyBookVerifies()
    ensures WellFormed(EMPTY_BOOK)
  {
  }

  // ---- Queries ----

  function OfType(entries: seq<Entry>, proofType: ProofType): seq<Entry> {
    if entries == [] then []
    else
      var n := |entries| - 1;
      OfType(entries[..n], proofType) + if entries[n].proofType == proofType then [entries[n]] else []
  }

  /** results[-limit:], with Python's reading of a limit that is not positive. */
  function Latest(entries: seq<Entry>, limit: int): (tail: seq<Entry>)
    ensures forall e :: e in tail ==> e in entries
  {
    var n := |entries|;
    if limit > 0 then entries[if n < limit then 0 else n - limit..]
    else entries[if n < -limit then n else -limit..]
  }

  /** The last so many entries, in order. */
  lemma LatestIsSuffix(entries: seq<Entry>, limit: nat)
    requires limit > 0
    ensures
      var tail := Latest(entries, limit);
      |tail| == (if |entries| < limit then |entries| else limit)
      && forall k :: 0 <= k < |tail| ==> tail[k] == entries[|entries| - |tail| + k]
  {
  }

  /** The log grew by one entry with these data, linked to what was there and sealed over all of them. */
  ghost predicate Logs(b: Book, b': Book, proofType: ProofType, data: Payload, now: real) {
    var n := |b.entries|;
    |b'.entries| == n + 1 && b'.entries[..n] == b.entries
    && b'.entries[n] == Entry(proofType, data, now, b.lastHash, Sealed(proofType, data, now, b.lastHash))
    && b'.lastHash == b'.entries[n].entryHash
  }

  lemma AppendLogs(b: Book, proofType: ProofType, data: Payload, now: real)
    ensures Logs(b, Appended(b, proofType, data, now), proofType, data, now)
  {
  }

  function CountOf(entries: seq<Entry>, proofType: ProofType): nat {
    if entries == [] then 0
    else CountOf(entries[..|entries| - 1], proofType) + if entries[|entries| - 1].proofType == proofType then 1 else 0
  }

  lemma {:induction false} OfTypeMembers(entries: seq<Entry>, proofType: ProofType)
    ensures forall e :: e in OfType(entries, proofType) <==> e in entries && e.proofType == proofType
  {
    if entries != [] {
      var n := |entries| - 1;
      OfTypeMembers(entries[..n], proofType);
      assert entries == entries[..n] + [entries[n]];
    }
  }

  lemma {:induction false} OfTypeCounts(entries: seq<Entry>, proofType: ProofType)
    ensures |OfType(entries, proofType)| == CountOf(entries, proofType)
  {
    if entries != [] { OfTypeCounts(entries[..|entries| - 1], proofType); }
  }

  lemma {:induction false} OfTypeSplits(a: seq<Entry>, b: seq<Entry>, proofType: ProofType)
    ensures OfType(a + b, proofType) == OfType(a, proofType) + OfType(b, proofType)
    decreases |b|
  {
    if b == [] {
      assert a + b == a;
    } else {
      var n := |b| - 1;
      OfTypeSplits(a, b[..n], proofType);
      assert (a + b)[..|a + b| - 1] == a + b[..n];
    }
  }

  /** Entry i is the hash, of the type, and fewer than so many of its type come after it. */
  ghost predicate RecentAt(entries: seq<Entry>, proofType: ProofType, hash: Hash, limit: nat, i: nat) {
    i < |entries| && entries[i].proofType == proofType && entries[i].entryHash == hash
    && CountOf(entries[i + 1..], proofType) < limit
  }

  lemma RecentIsLatest(entries: seq<Entry>, proofType: ProofType, hash: Hash, limit: nat, i: nat)
    requires limit > 0 && RecentAt(entries, proofType, hash, limit, i)
    ensures entries[i] in Latest(OfType(entries, proofType), limit)
  {
    hide OfType, CountOf, Latest;
    var before, after := OfType(entries[..i], proofType), OfType(entries[i + 1..], proofType);
    assert entries == entries[..i] + [entries[i]] + entries[i + 1..];
    OfTypeSplits(entries[..i] + [entries[i]], entries[i + 1..], proofType);
    OfTypeSplits(entries[..i], [entries[i]], proofType);
    OneOfType(entries[i], proofType);
    OfTypeCounts(entries[i + 1..], proofType);
    var all := OfType(entries, proofType);
    var tail := Latest(all, limit);
    LatestIsSuffix(all, limit);
    assert all == before + [entries[i]] + after;
    assert tail[|tail| - |after| - 1] == entries[i];
  }

  lemma OneOfType(e: Entry, proofType: ProofType)
    ensures OfType([e], proofType) == if e.proofType == proofType then [e] else []
  {
    assert [e][..0] == [];
  }

  lemma {:induction false} OfTypeAt(entries: seq<Entry>, proofType: ProofType, k: nat) returns (i: nat)
    requires k < |OfType(entries, proofType)|
    ensures i < |entries| && entries[i].proofType == proofType && entries[i] == OfType(entries, proofType)[k]
    ensures CountOf(entries[i + 1..], proofType) == |OfType(entries, proofType)| - 1 - k
    decreases |entries|
  {
    var n := |entries| - 1;
    var front := OfType(entries[..n], proofType);
    if k < |front| {
      i := OfTypeAt(entries[..n], proofType, k);
      var after := entries[i + 1..];
      assert after[..|after| - 1] == entries[..n][i + 1..];
    } else {
      i := n;
      assert entries[n + 1..] == [];
    }
  }

  /** The query for the latest entries of a type finds a hash exactly when an entry of the type has it and fewer than
      the limit of its type were logged after it. */
  lemma LatestFindsExactly(entries: seq<Entry>, proofType: ProofType, hash: Hash, limit: nat)
    requires limit > 0
    ensures (exists e :: e in Latest(OfType(entries, proofType), limit) && e.entryHash == hash)
      <==> exists i: nat :: RecentAt(entries, proofType, hash, limit, i)
  {
    hide OfType, CountOf, Latest;
    var all := OfType(entries, proofType);
    var tail := Latest(all, limit);
    LatestIsSuffix(all, limit);
    if e :| e in tail && e.entryHash == hash {
      var k :| 0 <= k < |tail| && tail[k] == e;
      var i := OfTypeAt(entries, proofType, |all| - |tail| + k);
      assert RecentAt(entries, proofType, hash, limit, i);
    }
    if i: nat :| RecentAt(entries, proofType, hash, limit, i) {
      RecentIsLatest(entries, proofType, hash, limit, i);
    }
  }

  // ---- The object ----

  class ProofLog {
    var entries: seq<Entry>
    var lastHash: Hash

    ghost function View(): Book
      reads this
    {
      Book(entries, lastHash)
    }

    constructor ()
      ensures View() == EMPTY_BOOK && WellFormed(View())
    {
      entries, lastHash := [], Genesis;
    }

    method Append(proofType: ProofType, data: Payload, now: real) returns (entry: Entry)
      modifies this
      ensures View() == Appended(old(View()), proofType, data, now)
      ensures entry == SealedEntry(old(View()), proofType, data, now)
      ensures old(WellFormed(View())) ==> WellFormed(View())
    {
      ghost var before := View();
      entry := Entry(proofType, data, now, lastHash, Genesis);
      entry := entry.(entryHash := ComputeHash(entry));
      entries := entries + [entry];
      lastHash := entry.entryHash;
      if WellFormed(before) {
        AppendKeepsChain(before, proofType, data, now);
      }
    }

    method VerifyChain() returns (ok: bool)
      ensures ok == Chained(entries)
    {
      var expected := Genesis;
      var i := 0;
      while i < |entries|
        invariant 0 <= i <= |entries|
        invariant expected == LastHash(entries[..i])
        invariant forall j :: 0 <= j < i ==>
          entries[j].prevHash == LastHash(entries[..j]) && entries[j].entryHash == ComputeHash(entries[j])
      {
        var entry := entries[i];
        if entry.prevHash != expected {
          return false;
        }
        expected := ComputeHash(entry);
        if entry.entryHash != expected {
          return false;
        }
        i := i + 1;
      }
      return true;
    }
  }
}
