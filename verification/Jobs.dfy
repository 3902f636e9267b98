/** The job board: a build job from posting to validator consensus. */
module Jobs {
  import opened Wrappers

  datatype Status = Open | Claimed | Building | Delivered | Tested | Approved | Paid | Finalized | Disputed | Cancelled

  datatype Receipt = Receipt(receiptId: string, processor: string, txId: string, amount: real, verified: bool)

  datatype Vote = Vote(validator: string, receiptValid: bool, timestamp: real)

  datatype JobSpec = JobSpec(
    title: string, description: string, requirements: seq<string>, deliverables: seq<string>, budget: real, buyer: string)

  datatype Job = Job(
    jobId: string, spec: JobSpec, builder: Option<string>,
    artifactPath: Option<string>, artifactHash: Option<string>, testPassed: Option<bool>, receipt: Option<Receipt>,
    status: Status, createdAt: real, deliveredAt: Option<real>, approvedAt: Option<real>, finalizedAt: Option<real>,
    votes: seq<Vote>)

  type Board = map<string, Job>

  function NewJob(id: string, spec: JobSpec, now: real): Job {
    Job(id, spec, None, None, None, None, None, Open, now, None, None, None, [])
  }

  predicate InStatus(b: Board, id: string, s: Status) { id in b && b[id].status == s }

  function Claim(b: Board, id: string, builder: string): Board {
    if InStatus(b, id, Open) then b[id := b[id].(builder := Some(builder), status := Claimed)] else b
  }

  function SubmitArtifact(b: Board, id: string, path: string, hash: string, now: real): Board {
    if InStatus(b, id, Claimed) || InStatus(b, id, Building)
    then b[id := b[id].(artifactPath := Some(path), artifactHash := Some(hash), status := Delivered, deliveredAt := Some(now))]
    else b
  }

  function SubmitTests(b: Board, id: string, passed: bool): Board {
    if InStatus(b, id, Delivered)
    then b[id := b[id].(testPassed := Some(passed), status := if passed then Tested else Delivered)]
    else b
  }

  function Approve(b: Board, id: string, now: real): Board {
    if InStatus(b, id, Tested) then b[id := b[id].(status := Approved, approvedAt := Some(now))] else b
  }

  function SubmitReceipt(b: Board, id: string, r: Receipt): Board {
    if InStatus(b, id, Approved) then b[id := b[id].(receipt := Some(r), status := Paid)] else b
  }

  function ValidVotes(votes: seq<Vote>): nat {
    if votes == [] then 0 else ValidVotes(votes[..|votes| - 1]) + if votes[|votes| - 1].receiptValid then 1 else 0
  }

  /** At least three votes, at least two thirds of them valid. */
  predicate Consensus(votes: seq<Vote>) { |votes| >= 3 && ValidVotes(votes) * 3 >= |votes| * 2 }

  function CastVote(b: Board, id: string, v: Vote, now: real): Board {
    if !InStatus(b, id, Paid) then b
    else
      var votes := b[id].votes + [v];
      if Consensus(votes) then b[id := b[id].(votes := votes, status := Finalized, finalizedAt := Some(now))]
      else b[id := b[id].(votes := votes)]
  }

  function CastVotes(b: Board, id: string, votes: seq<Vote>, now: real): Board {
    if votes == [] then b else CastVote(CastVotes(b, id, votes[..|votes| - 1], now), id, votes[|votes| - 1], now)
  }

  // ---- What a status proves about a job ----

  ghost predicate NoConsensusBefore(votes: seq<Vote>, k: nat) {
    forall j :: 0 <= j < k && j <= |votes| ==> !Consensus(votes[..j])
  }

  ghost predicate Evident(j: Job) {
    (j.status in {Tested, Approved, Paid, Finalized} ==> j.testPassed == Some(true))
    && (j.status in {Approved, Paid, Finalized} ==> j.approvedAt.Some?)
    && (j.status in {Paid, Finalized} <==> j.receipt.Some?)
    && (j.status !in {Paid, Finalized} ==> j.votes == [])
    && (j.status == Paid ==> NoConsensusBefore(j.votes, |j.votes| + 1))
    && (j.status == Finalized ==> Consensus(j.votes) && NoConsensusBefore(j.votes, |j.votes|))
  }

  ghost predicate AllEvident(b: Board) { forall id :: id in b ==> Evident(b[id]) }

  lemma VoteEvident(j: Job, v: Vote, now: real)
    requires Evident(j) && j.status == Paid
    ensures
      var votes := j.votes + [v];
      Evident(if Consensus(votes) then j.(votes := votes, status := Finalized, finalizedAt := Some(now)) else j.(votes := votes))
  {
    var votes := j.votes + [v];
    forall k | 0 <= k <= |j.votes| ensures !Consensus(votes[..k]) {
      assert votes[..k] == j.votes[..k];
    }
    assert votes[..|votes|] == votes;
  }

  lemma CastVoteKeeps(b: Board, id: string, v: Vote, now: real)
    requires AllEvident(b)
    ensures AllEvident(CastVote(b, id, v, now)) && CastVote(b, id, v, now).Keys == b.Keys
    ensures forall x :: x in b && b[x].status == Finalized ==> CastVote(b, id, v, now)[x] == b[x]
  {
    if InStatus(b, id, Paid) {
      VoteEvident(b[id], v, now);
    }
  }

  lemma {:induction false} CastVotesKeeps(b: Board, id: string, votes: seq<Vote>, now: real)
    requires AllEvident(b)
    ensures AllEvident(CastVotes(b, id, votes, now)) && CastVotes(b, id, votes, now).Keys == b.Keys
    ensures forall x :: x in b && x != id ==> CastVotes(b, id, votes, now)[x] == b[x]
    ensures id in b && b[id].status !in {Paid} ==> CastVotes(b, id, votes, now)[id] == b[id]
    ensures id in b && b[id].status == Paid ==> CastVotes(b, id, votes, now)[id].status in {Paid, Finalized}
    decreases |votes|
  {
    if votes != [] {
      var n := |votes| - 1;
      CastVotesKeeps(b, id, votes[..n], now);
      CastVoteKeeps(CastVotes(b, id, votes[..n], now), id, votes[n], now);
    }
  }

  /** Some prefix of the votes reaches consensus. */
  ghost predicate Agreed(votes: seq<Vote>) { exists k :: 0 <= k <= |votes| && Consensus(votes[..k]) }

  /** A paid job without votes is finalized by a list of votes exactly when some prefix of it reaches consensus. */
  lemma {:induction false} VotesFinalizeExactly(b: Board, id: string, votes: seq<Vote>, now: real)
    requires InStatus(b, id, Paid) && b[id].votes == []
    ensures
      var after := CastVotes(b, id, votes, now);
      if Agreed(votes) then InStatus(after, id, Finalized) else after == b[id := b[id].(votes := votes)]
    decreases |votes|
  {
    hide Consensus, Agreed, CastVote;
    if votes == [] {
      NoneAgreed();
    } else {
      var n := |votes| - 1;
      VotesFinalizeExactly(b, id, votes[..n], now);
      assert votes == votes[..n] + [votes[n]];
      AgreedStep(votes[..n], votes[n]);
      LastVoteDecides(b, id, votes[..n], votes[n], now);
      FinalizedRefuses(CastVotes(b, id, votes[..n], now), id, votes[n], now);
    }
  }

  lemma LastVoteDecides(b: Board, id: string, front: seq<Vote>, v: Vote, now: real)
    requires InStatus(b, id, Paid)
    ensures
      var after := CastVote(b[id := b[id].(votes := front)], id, v, now);
      if Consensus(front + [v]) then InStatus(after, id, Finalized) else after == b[id := b[id].(votes := front + [v])]
  {
    hide Consensus;
  }

  lemma FinalizedRefuses(b: Board, id: string, v: Vote, now: real)
    ensures InStatus(b, id, Finalized) ==> CastVote(b, id, v, now) == b
  {
  }

  lemma NoneAgreed()
    ensures !Agreed([])
  {
  }

  lemma AgreedStep(front: seq<Vote>, v: Vote)
    ensures Agreed(front + [v]) <==> Agreed(front) || Consensus(front + [v])
  {
    hide Consensus;
    var votes := front + [v];
    assert votes[..|votes|] == votes;
    assert forall k :: 0 <= k <= |front| ==> votes[..k] == front[..k];
  }

  /** Votes are counted, not validators: one validator voting three times finalizes a paid job. */
  lemma OneValidatorFinalizes(b: Board, id: string, validator: string, now: real)
    requires InStatus(b, id, Paid) && b[id].votes == []
    ensures
      var v := Vote(validator, true, now);
      InStatus(CastVotes(b, id, [v, v, v], now), id, Finalized)
  {
    hide CastVotes;
    var v := Vote(validator, true, now);
    var votes := [v, v, v];
    assert votes[..2] == [v, v] && [v, v][..1] == [v] && [v][..0] == [];
    assert ValidVotes([v]) == 1 && ValidVotes([v, v]) == 2 && ValidVotes(votes) == 3;
    assert votes[..3] == votes && Consensus(votes[..3]);
    VotesFinalizeExactly(b, id, votes, now);
  }

  // ---- The life of a job ----

  /** Only the job named changes, and never what was posted. */
  ghost predicate OnlyChanges(b: Board, b': Board, id: string) {
    b'.Keys == b.Keys && (forall x :: x in b && x != id ==> b'[x] == b[x])
    && (id in b ==> b'[id].jobId == b[id].jobId && b'[id].spec == b[id].spec && b'[id].createdAt == b[id].createdAt)
  }

  /** Each call takes effect exactly in its own status and moves the job to the next one; otherwise nothing changes. */
  lemma CallsMoveExactly(b: Board, id: string, builder: string, path: string, hash: string, passed: bool, r: Receipt, now: real)
    requires id in b
    ensures
      var (status, claimed, delivered) := (b[id].status, Claim(b, id, builder), SubmitArtifact(b, id, path, hash, now));
      var (tested, approved, paid) := (SubmitTests(b, id, passed), Approve(b, id, now), SubmitReceipt(b, id, r));
      (if status == Open then OnlyChanges(b, claimed, id) && claimed[id].status == Claimed else claimed == b)
      && (if status in {Claimed, Building} then OnlyChanges(b, delivered, id) && delivered[id].status == Delivered else delivered == b)
      && (if status == Delivered then OnlyChanges(b, tested, id) && tested[id].testPassed == Some(passed)
                                      && tested[id].status == (if passed then Tested else Delivered) else tested == b)
      && (if status == Tested then OnlyChanges(b, approved, id) && approved[id].status == Approved else approved == b)
      && (if status == Approved then OnlyChanges(b, paid, id) && paid[id].status == Paid else paid == b)
  {
  }

  /** Unknown jobs are left alone. */
  lemma UnknownJob(b: Board, id: string, builder: string, path: string, hash: string, passed: bool, r: Receipt, v: Vote, now: real)
    requires id !in b
    ensures Claim(b, id, builder) == SubmitArtifact(b, id, path, hash, now) == SubmitTests(b, id, passed) == b
    ensures Approve(b, id, now) == SubmitReceipt(b, id, r) == CastVote(b, id, v, now) == b
  {
  }

  /** The whole record of a job that was posted, claimed, delivered, passed, approved and paid. */
  lemma PaidRecord(b: Board, id: string, spec: JobSpec, posted: real, builder: string, path: string, hash: string,
                   delivered: real, approved: real, r: Receipt)
    ensures
      var b1 := Claim(b[id := NewJob(id, spec, posted)], id, builder);
      var b2 := SubmitTests(SubmitArtifact(b1, id, path, hash, delivered), id, true);
      var b3 := SubmitReceipt(Approve(b2, id, approved), id, r);
      b3 == b[id := Job(id, spec, Some(builder), Some(path), Some(hash), Some(true), Some(r), Paid, posted, Some(delivered),
                        Some(approved), None, [])]
  {
  }

  /** The positions of the valid votes. */
  ghost function ValidAt(votes: seq<Vote>): set<int> { set k | 0 <= k < |votes| && votes[k].receiptValid }

  lemma {:induction false} ValidVotesCount(votes: seq<Vote>)
    ensures ValidVotes(votes) == |ValidAt(votes)|
  {
    if votes != [] {
      var n := |votes| - 1;
      ValidVotesCount(votes[..n]);
      assert ValidAt(votes) == ValidAt(votes[..n]) + if votes[n].receiptValid then {n} else {};
    }
  }

  /** A vote on a paid job is recorded last; the job is finalized exactly when there are then at least three votes and
      three times the valid ones are at least twice all. Other jobs refuse votes. */
  lemma VoteExactly(b: Board, id: string, v: Vote, now: real)
    requires id in b
    ensures
      var (j, b') := (b[id], CastVote(b, id, v, now));
      if j.status == Paid then
        OnlyChanges(b, b', id)
        && var (votes, j') := (j.votes + [v], b'[id]);
        var done := |votes| >= 3 && 3 * |ValidAt(votes)| >= 2 * |votes|;
        j' == j.(votes := votes, status := if done then Finalized else Paid, finalizedAt := if done then Some(now) else j.finalizedAt)
      else b' == b
  {
    hide ValidAt, ValidVotes;
    ValidVotesCount(b[id].votes + [v]);
  }

  // ---- Votes and validators ----

  function Validators(votes: seq<Vote>): set<string> { set v | v in votes :: v.validator }

  /** The validators with a valid vote. */
  function Confirming(votes: seq<Vote>): set<string> { set v | v in votes && v.receiptValid :: v.validator }

  ghost predicate NoRepeat(votes: seq<Vote>) {
    forall i, j :: 0 <= i < j < |votes| ==> votes[i].validator != votes[j].validator
  }

  lemma LastVote(votes: seq<Vote>)
    requires votes != []
    ensures
      var (front, v) := (votes[..|votes| - 1], votes[|votes| - 1]);
      Validators(votes) == Validators(front) + {v.validator}
      && Confirming(votes) == Confirming(front) + (if v.receiptValid then {v.validator} else {})
      && (NoRepeat(votes) <==> NoRepeat(front) && v.validator !in Validators(front))
  {
    var n := |votes| - 1;
    var front, v := votes[..n], votes[n];
    assert votes == front + [v];
    if NoRepeat(votes) {
      forall w | w in front ensures w.validator != v.validator {
        var k :| 0 <= k < n && front[k] == w;
        assert votes[k] == w;
      }
    }
    if NoRepeat(front) && v.validator !in Validators(front) {
      forall i, j | 0 <= i < j < |votes| ensures votes[i].validator != votes[j].validator {
        assert front[i] in front;
        if j < n { assert front[j] == votes[j]; }
      }
    }
  }

  /** Exact: votes stand for validators if and only if no validator repeats. */
  lemma {:induction false} VotesAreValidatorsExactly(votes: seq<Vote>)
    ensures |Validators(votes)| <= |votes| && |Confirming(votes)| <= ValidVotes(votes)
    ensures |Validators(votes)| == |votes| <==> NoRepeat(votes)
    ensures NoRepeat(votes) ==> |Confirming(votes)| == ValidVotes(votes)
  {
    hide NoRepeat;
    if votes == [] {
      NoVotes();
    } else {
      var n := |votes| - 1;
      VotesAreValidatorsExactly(votes[..n]);
      LastVote(votes);
      ConfirmingAreValidators(votes[..n]);
    }
  }

  lemma NoVotes()
    ensures Validators([]) == {} && Confirming([]) == {} && NoRepeat([])
  {
  }

  lemma ConfirmingAreValidators(votes: seq<Vote>)
    ensures Confirming(votes) <= Validators(votes)
  {
  }

  /** Two thirds of at least three different validators confirmed. */
  ghost predicate ValidatorConsensus(votes: seq<Vote>) {
    |Validators(votes)| >= 3 && |Confirming(votes)| * 3 >= |Validators(votes)| * 2
  }

  lemma ConsensusOfValidators(votes: seq<Vote>)
    requires NoRepeat(votes)
    ensures Consensus(votes) <==> ValidatorConsensus(votes)
  {
    hide NoRepeat, Validators, Confirming;
    VotesAreValidatorsExactly(votes);
  }

  /** Exact, before the call: a recorded vote keeps the list free of repetition if and only if its validator is not
      on it yet. */
  lemma VoteKeepsNoRepeatExactly(b: Board, id: string, v: Vote, now: real)
    requires InStatus(b, id, Paid) && NoRepeat(b[id].votes)
    ensures NoRepeat(CastVote(b, id, v, now)[id].votes) <==> v.validator !in Validators(b[id].votes)
  {
    hide Consensus, Validators, NoRepeat;
    var votes := b[id].votes + [v];
    assert votes[..|votes| - 1] == b[id].votes;
    LastVote(votes);
  }

  /** Casting a list records a prefix of it. */
  lemma {:induction false} CastVotesRecords(b: Board, id: string, votes: seq<Vote>, now: real) returns (k: nat)
    requires id in b
    ensures k <= |votes| && id in CastVotes(b, id, votes, now)
    ensures CastVotes(b, id, votes, now)[id].votes == b[id].votes + votes[..k]
    ensures k < |votes| ==> !InStatus(CastVotes(b, id, votes, now), id, Paid)
    decreases |votes|
  {
    hide Consensus;
    if votes == [] {
      k := 0;
    } else {
      var n := |votes| - 1;
      k := CastVotesRecords(b, id, votes[..n], now);
      assert votes[..n][..k] == votes[..k];
      if InStatus(CastVotes(b, id, votes[..n], now), id, Paid) {
        assert votes[..n] + [votes[n]] == votes[..n + 1];
        k := n + 1;
      }
    }
  }

  // ---- The object ----

  class JobBoard {
    var jobs: Board

    constructor ()
      ensures jobs == map[]
    {
      jobs := map[];
    }

    method PostJob(id: string, spec: JobSpec, now: real)
      modifies this
      ensures jobs == old(jobs)[id := NewJob(id, spec, now)]
    {
      jobs := jobs[id := Job(id, spec, None, None, None, None, None, Open, now, None, None, None, [])];
    }

    method ClaimJob(id: string, builder: string) returns (ok: bool)
      modifies this
      ensures jobs == Claim(old(jobs), id, builder) && ok == InStatus(old(jobs), id, Open)
    {
      if id !in jobs || jobs[id].status != Open {
        return false;
      }
      jobs := jobs[id := jobs[id].(builder := Some(builder))];
      jobs := jobs[id := jobs[id].(status := Claimed)];
      return true;
    }

    method DeliverArtifact(id: string, path: string, hash: string, now: real)
      modifies this
      ensures jobs == SubmitArtifact(old(jobs), id, path, hash, now)
    {
      if id !in jobs || jobs[id].status !in {Claimed, Building} {
        return;
      }
      var j := jobs[id].(artifactPath := Some(path), artifactHash := Some(hash));
      jobs := jobs[id := j.(status := Delivered, deliveredAt := Some(now))];
    }

    method ReportTests(id: string, passed: bool)
      modifies this
      ensures jobs == SubmitTests(old(jobs), id, passed)
    {
      if id !in jobs || jobs[id].status != Delivered {
        return;
      }
      var j := jobs[id].(testPassed := Some(passed));
      jobs := jobs[id := j.(status := if passed then Tested else Delivered)];
    }

    method BuyerApprove(id: string, now: real)
      modifies this
      ensures jobs == Approve(old(jobs), id, now)
    {
      if id !in jobs || jobs[id].status != Tested {
        return;
      }
      jobs := jobs[id := jobs[id].(status := Approved, approvedAt := Some(now))];
    }

    method SubmitPaymentReceipt(id: string, r: Receipt)
      modifies this
      ensures jobs == SubmitReceipt(old(jobs), id, r)
    {
      if id !in jobs || jobs[id].status != Approved {
        return;
      }
      jobs := jobs[id := jobs[id].(receipt := Some(r), status := Paid)];
    }

    method CheckConsensus(votes: seq<Vote>) returns (reached: bool)
      ensures reached == Consensus(votes)
    {
      if |votes| < 3 {
        return false;
      }
      var valid, k := 0, 0;
      while k < |votes|
        invariant 0 <= k <= |votes| && valid == ValidVotes(votes[..k])
      {
        assert votes[..k + 1][..k] == votes[..k];
        if votes[k].receiptValid {
          valid := valid + 1;
        }
        k := k + 1;
      }
      assert votes[..k] == votes;
      return valid * 3 >= |votes| * 2;
    }

    method ValidatorVote(id: string, v: Vote, now: real)
      modifies this
      ensures jobs == CastVote(old(jobs), id, v, now)
    {
      if id !in jobs || jobs[id].status != Paid {
        return;
      }
      var j := jobs[id].(votes := jobs[id].votes + [v]);
      var reached := CheckConsensus(j.votes);
      if reached {
        j := j.(status := Finalized, finalizedAt := Some(now));
      }
      jobs := jobs[id := j];
    }
  }
}
