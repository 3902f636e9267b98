/** Proposals, votes, finalization and execution over the shared log. */
module Governance {
  import opened ProofBook

  const REVIEW_WINDOW: real := 259200.0
  const VOTING_WINDOW: real := 172800.0

  datatype Status = Draft | Review | Voting | Approved | Rejected | Executed | Cancelled

  datatype Ballot = Ballot(voter: string, choice: Choice, weight: real)

  datatype Vote = Vote(ballot: Ballot, timestamp: real, reason: string)

  datatype Proposal = Proposal(
    proposalId: string, proposalType: string, title: string, description: string, proposer: string,
    requiredProofs: seq<Hash>, params: string, status: Status, createdAt: real, reviewEndsAt: real,
    votingEndsAt: real, votes: seq<Vote>, executedAt: real, executor: string)

  datatype Gov = Gov(proposals: map<string, Proposal>, power: map<string, real>, book: Book)

  // ---- Tally ----

  datatype Tally = Tally(votesFor: real, votesAgainst: real, votesAbstain: real)

  const NO_VOTES: Tally := Tally(0.0, 0.0, 0.0)

  function Count(t: Tally, b: Ballot): Tally {
    match b.choice
    case For => t.(votesFor := t.votesFor + b.weight)
    case Against => t.(votesAgainst := t.votesAgainst + b.weight)
    case Abstain => t.(votesAbstain := t.votesAbstain + b.weight)
  }

  function TallyOf(ballots: seq<Ballot>): Tally {
    if ballots == [] then NO_VOTES else Count(TallyOf(ballots[..|ballots| - 1]), ballots[|ballots| - 1])
  }

  function Ballots(votes: seq<Vote>): (ballots: seq<Ballot>)
    ensures |ballots| == |votes| && forall k :: 0 <= k < |votes| ==> ballots[k] == votes[k].ballot
  {
    seq(|votes|, k requires 0 <= k < |votes| => votes[k].ballot)
  }

  function TallyFor(p: Proposal): Tally { TallyOf(Ballots(p.votes)) }

  datatype Verdict = Passed | Failed | DivisionByZero

  /** is_approved with its default quorum and threshold; with no vote for or against it divides by zero. */
  function Judge(t: Tally): Verdict {
    var total := t.votesFor + t.votesAgainst + t.votesAbstain;
    if total < 0.2 then Failed
    else if total == 0.0 then Failed
    else if t.votesFor + t.votesAgainst == 0.0 then DivisionByZero
    else if t.votesFor / (t.votesFor + t.votesAgainst) >= 0.6 then Passed
    else Failed
  }

  // ---- Transitions ----

  /** The hash is among the latest 200 entries. */
  predicate ProofKnown(entries: seq<Entry>, proof: Hash) {
    exists e :: e in Latest(entries, 200) && e.entryHash == proof
  }

  predicate ProofsKnown(b: Book, proofs: seq<Hash>) {
    forall k :: 0 <= k < |proofs| ==> ProofKnown(b.entries, proofs[k])
  }

  datatype NewProposal = NewProposal(
    proposalType: string, title: string, description: string, proposer: string, requiredProofs: seq<Hash>, params: string)

  datatype ProposeClock = ProposeClock(created: real, reviewFrom: real, logged: real)

  /** The boolean is false when a required proof is missing and the call raises. */
  function Propose(g: Gov, d: NewProposal, id: string, t: ProposeClock): (Gov, bool) {
    if !ProofsKnown(g.book, d.requiredProofs) then (g, false)
    else
      var p := Proposal(id, d.proposalType, d.title, d.description, d.proposer, d.requiredProofs, d.params, Review,
                        t.created, t.reviewFrom + REVIEW_WINDOW, 0.0, [], 0.0, "");
      (g.(proposals := g.proposals[id := p],
          book := Appended(g.book, GovernanceAction,
                           ProposalCreated(id, d.proposalType, d.title, d.proposer, d.requiredProofs), t.logged)),
       true)
  }

  function StartVoting(g: Gov, id: string, now: real): (Gov, bool) {
    if id !in g.proposals || g.proposals[id].status != Review then (g, false)
    else (g.(proposals := g.proposals[id := g.proposals[id].(status := Voting, votingEndsAt := now + VOTING_WINDOW)]), true)
  }

  predicate HasVoted(p: Proposal, voter: string) {
    exists k :: 0 <= k < |p.votes| && p.votes[k].ballot.voter == voter
  }

  function PowerOf(g: Gov, voter: string): real { if voter in g.power then g.power[voter] else 0.0 }

  predicate MayVote(g: Gov, id: string, voter: string) {
    id in g.proposals && g.proposals[id].status == Voting && !HasVoted(g.proposals[id], voter) && PowerOf(g, voter) > 0.0
  }

  function CastVote(g: Gov, id: string, voter: string, choice: Choice, reason: string, cast: real, logged: real): (Gov, bool) {
    if !MayVote(g, id, voter) then (g, false)
    else
      var p, weight := g.proposals[id], PowerOf(g, voter);
      (g.(proposals := g.proposals[id := p.(votes := p.votes + [Vote(Ballot(voter, choice, weight), cast, reason)])],
          book := Appended(g.book, GovernanceAction, VoteCast(id, voter, choice, weight), logged)),
       true)
  }

  datatype Outcome = Done(ok: bool) | ZeroDivision

  predicate VotingOver(g: Gov, id: string, now: real) {
    id in g.proposals && g.proposals[id].status == Voting && now >= g.proposals[id].votingEndsAt
  }

  function Finalize(g: Gov, id: string, now: real, logged: real): (Gov, Outcome) {
    if !VotingOver(g, id, now) then (g, Done(false))
    else
      var p := g.proposals[id];
      var t := TallyFor(p);
      if Judge(t) == DivisionByZero then (g, ZeroDivision)
      else
        var approved := Judge(t) == Passed;
        (g.(proposals := g.proposals[id := p.(status := if approved then Approved else Rejected)],
            book := Appended(g.book, GovernanceAction,
                             ProposalFinalized(id, approved, t.votesFor, t.votesAgainst, t.votesAbstain), logged)),
         Done(true))
  }

  function Execute(g: Gov, id: string, executor: string, now: real, logged: real): (Gov, bool) {
    if id !in g.proposals || g.proposals[id].status != Approved then (g, false)
    else
      (g.(proposals := g.proposals[id := g.proposals[id].(status := Executed, executedAt := now, executor := executor)],
          book := Appended(g.book, GovernanceAction, ProposalExecuted(id, executor), logged)),
       true)
  }

  datatype Op =
    | DoPower(voter: string, weight: real)
    | DoPropose(draft: NewProposal, id: string, t: ProposeClock)
    | DoStart(id: string, now: real)
    | DoVote(id: string, voter: string, choice: Choice, reason: string, cast: real, logged: real)
    | DoFinalize(id: string, now: real, logged: real)
    | DoExecute(id: string, executor: string, now: real, logged: real)
    | DoLog(proofType: ProofType, data: Payload, now: real)

  function Step(g: Gov, op: Op): Gov {
    match op
    case DoPower(voter, weight) => g.(power := g.power[voter := weight])
    case DoPropose(d, id, t) => Propose(g, d, id, t).0
    case DoStart(id, now) => StartVoting(g, id, now).0
    case DoVote(id, voter, choice, reason, cast, logged) => CastVote(g, id, voter, choice, reason, cast, logged).0
    case DoFinalize(id, now, logged) => Finalize(g, id, now, logged).0
    case DoExecute(id, executor, now, logged) => Execute(g, id, executor, now, logged).0
    case DoLog(proofType, data, now) => g.(book := Appended(g.book, proofType, data, now))
  }

  /** Proposal ids are fresh, and other modules do not log votes. */
  predicate Enabled(g: Gov, op: Op) {
    (op.DoPropose? ==> op.id !in g.proposals) && (op.DoLog? ==> !op.data.VoteCast?)
  }

  predicate ValidRun(g: Gov, ops: seq<Op>)
    decreases |ops|
  {
    ops == [] || (Enabled(g, ops[0]) && ValidRun(Step(g, ops[0]), ops[1..]))
  }

  function Run(g: Gov, ops: seq<Op>): Gov
    decreases |ops|
  {
    if ops == [] then g else Run(Step(g, ops[0]), ops[1..])
  }

  // ---- Replay from the log ----

  /** The ballots that the log records for a proposal, in order. */
  function LoggedBallots(entries: seq<Entry>, id: string): seq<Ballot> {
    if entries == [] then []
    else
      var n := |entries| - 1;
      var before := LoggedBallots(entries[..n], id);
      match entries[n].data
      case VoteCast(pid, voter, choice, weight) => if pid == id then before + [Ballot(voter, choice, weight)] else before
      case _ => before
  }

  lemma LogAppend(b: Book, proofType: ProofType, data: Payload, now: real, id: string)
    ensures LoggedBallots(Appended(b, proofType, data, now).entries, id)
      == LoggedBallots(b.entries, id)
         + if data.VoteCast? && data.proposalId == id then [Ballot(data.voter, data.choice, data.weight)] else []
  {
    var b' := Appended(b, proofType, data, now);
    assert b'.entries[..|b'.entries| - 1] == b.entries;
  }

  ghost predicate OneVoteEach(ballots: seq<Ballot>) {
    forall i, j :: 0 <= i < j < |ballots| ==> ballots[i].voter != ballots[j].voter
  }

  ghost predicate AllWeighted(ballots: seq<Ballot>) { forall k :: 0 <= k < |ballots| ==> ballots[k].weight > 0.0 }

  /** At least 60% of the decided weight is in favour, and the quorum was met. */
  ghost predicate Carried(t: Tally) {
    t.votesFor + t.votesAgainst > 0.0 && t.votesFor >= 0.6 * (t.votesFor + t.votesAgainst)
    && t.votesFor + t.votesAgainst + t.votesAbstain >= 0.2
  }

  ghost predicate GoodProposal(p: Proposal, logged: seq<Ballot>) {
    Ballots(p.votes) == logged && OneVoteEach(logged) && AllWeighted(logged)
    && p.status in {Review, Voting, Approved, Rejected, Executed}
    && (p.status == Review ==> p.votes == [])
    && (p.status in {Approved, Executed} ==> Carried(TallyFor(p)))
    && (p.status == Rejected ==> !Carried(TallyFor(p)))
  }

  ghost predicate GoodAt(g: Gov, id: string) {
    if id in g.proposals then GoodProposal(g.proposals[id], LoggedBallots(g.book.entries, id))
    else LoggedBallots(g.book.entries, id) == []
  }

  ghost predicate Inv(g: Gov) { forall id :: GoodAt(g, id) }

  lemma {:induction false} TallyNonNegative(ballots: seq<Ballot>)
    requires AllWeighted(ballots)
    ensures
      var t := TallyOf(ballots);
      t.votesFor >= 0.0 && t.votesAgainst >= 0.0 && t.votesAbstain >= 0.0
      && (t.votesFor + t.votesAgainst == 0.0 <==> forall k :: 0 <= k < |ballots| ==> ballots[k].choice == Abstain)
  {
    if ballots != [] {
      TallyNonNegative(ballots[..|ballots| - 1]);
    }
  }

  lemma JudgeMeans(t: Tally)
    requires t.votesFor >= 0.0 && t.votesAgainst >= 0.0 && t.votesAbstain >= 0.0
    ensures Judge(t) == Passed <==> Carried(t)
    ensures Judge(t) == DivisionByZero <==> t.votesFor + t.votesAgainst == 0.0 && t.votesAbstain >= 0.2
  {
    var decided := t.votesFor + t.votesAgainst;
    if decided > 0.0 {
      var share := t.votesFor / decided;
      assert share * decided == t.votesFor;
      if share >= 0.6 {
        assert (share - 0.6) * decided >= 0.0;
      } else {
        assert (0.6 - share) * decided > 0.0;
      }
    }
  }

  lemma VoteKeeps(g: Gov, op: Op)
    requires Inv(g) && op.DoVote? && MayVote(g, op.id, op.voter)
    ensures GoodAt(Step(g, op), op.id)
  {
    var g' := Step(g, op);
    var p, p' := g.proposals[op.id], g'.proposals[op.id];
    assert GoodAt(g, op.id);
    LogAppend(g.book, GovernanceAction, VoteCast(op.id, op.voter, op.choice, PowerOf(g, op.voter)), op.logged, op.id);
    assert Ballots(p'.votes) == Ballots(p.votes) + [Ballot(op.voter, op.choice, PowerOf(g, op.voter))];
    forall k | 0 <= k < |p.votes| ensures Ballots(p.votes)[k].voter != op.voter {
      assert p.votes[k].ballot.voter != op.voter;
    }
  }

  lemma FinalizeKeeps(g: Gov, op: Op)
    requires Inv(g) && op.DoFinalize?
    ensures GoodAt(Step(g, op), op.id)
  {
    assert GoodAt(g, op.id);
    if VotingOver(g, op.id, op.now) {
      var t := TallyFor(g.proposals[op.id]);
      TallyNonNegative(Ballots(g.proposals[op.id].votes));
      JudgeMeans(t);
      LogAppend(g.book, GovernanceAction,
                ProposalFinalized(op.id, Judge(t) == Passed, t.votesFor, t.votesAgainst, t.votesAbstain), op.logged, op.id);
    }
  }

  /** What a step appends to the log, if anything. */
  lemma StepLogs(g: Gov, op: Op, id: string)
    requires Enabled(g, op) && !(op.DoVote? && op.id == id)
    ensures LoggedBallots(Step(g, op).book.entries, id) == LoggedBallots(g.book.entries, id)
  {
    var g' := Step(g, op);
    if g'.book != g.book {
      var e := g'.book.entries[|g'.book.entries| - 1];
      assert g'.book == Appended(g.book, e.proofType, e.data, e.timestamp);
      LogAppend(g.book, e.proofType, e.data, e.timestamp, id);
    }
  }

  lemma StepKeepsAt(g: Gov, op: Op, id: string)
    requires Inv(g) && Enabled(g, op)
    ensures GoodAt(Step(g, op), id)
  {
    hide LoggedBallots, TallyOf, Ballots;
    assert GoodAt(g, id);
    if op.DoVote? && op.id == id {
      if MayVote(g, id, op.voter) { VoteKeeps(g, op); }
    } else if op.DoFinalize? && op.id == id {
      FinalizeKeeps(g, op);
    } else {
      StepLogs(g, op, id);
      EmptyBallots();
    }
  }

  lemma EmptyBallots()
    ensures Ballots([]) == []
  {
  }

  lemma StepKeeps(g: Gov, op: Op)
    requires Inv(g) && Enabled(g, op)
    ensures Inv(Step(g, op))
  {
    forall id ensures GoodAt(Step(g, op), id) {
      StepKeepsAt(g, op, id);
    }
  }

  lemma {:induction false} RunKeeps(g: Gov, ops: seq<Op>)
    requires Inv(g) && ValidRun(g, ops)
    ensures Inv(Run(g, ops))
    decreases |ops|
  {
    if ops != [] {
      StepKeeps(g, ops[0]);
      RunKeeps(Step(g, ops[0]), ops[1..]);
    }
  }

  /** A board with no proposals over a log without votes. */
  ghost predicate Fresh(g: Gov) {
    g.proposals == map[] && forall id :: LoggedBallots(g.book.entries, id) == []
  }

  /** Replay: in every run, folding a proposal's vote entries of the log reproduces its tally; every executed
      proposal carried at least 60% of the decided weight and met the quorum; nobody votes twice. */
  lemma TallyReplays(g: Gov, ops: seq<Op>, id: string)
    requires Fresh(g) && ValidRun(g, ops) && id in Run(g, ops).proposals
    ensures
      var p := Run(g, ops).proposals[id];
      var logged := LoggedBallots(Run(g, ops).book.entries, id);
      TallyOf(logged) == TallyFor(p) && OneVoteEach(logged)
      && (p.status in {Approved, Executed} ==> Carried(TallyFor(p)))
      && (p.status == Rejected ==> !Carried(TallyFor(p)))
  {
    RunKeeps(g, ops);
    assert GoodAt(Run(g, ops), id);
  }

  /** An accepted vote adds the voter's power to exactly the chosen side of the tally, and that voter cannot vote again. */
  lemma VoteCountsOnce(g: Gov, id: string, voter: string, choice: Choice, reason: string, cast: real, logged: real)
    requires MayVote(g, id, voter)
    ensures
      var (g', ok) := CastVote(g, id, voter, choice, reason, cast, logged);
      ok && id in g'.proposals && !MayVote(g', id, voter)
      && var (t, t', w) := (TallyFor(g.proposals[id]), TallyFor(g'.proposals[id]), PowerOf(g, voter));
      t'.votesFor == t.votesFor + (if choice == For then w else 0.0)
      && t'.votesAgainst == t.votesAgainst + (if choice == Against then w else 0.0)
      && t'.votesAbstain == t.votesAbstain + (if choice == Abstain then w else 0.0)
  {
    var g' := CastVote(g, id, voter, choice, reason, cast, logged).0;
    var p, p' := g.proposals[id], g'.proposals[id];
    var ballot := Ballot(voter, choice, PowerOf(g, voter));
    assert Ballots(p'.votes) == Ballots(p.votes) + [ballot];
    assert Ballots(p'.votes)[..|p.votes|] == Ballots(p.votes);
    assert p'.votes[|p.votes|].ballot.voter == voter;
  }

  // ---- Decisions are final ----

  ghost predicate Decided(p: Proposal) { p.status in {Approved, Rejected, Executed} }

  lemma {:induction false} DecisionsFrozen(g: Gov, ops: seq<Op>, id: string)
    requires ValidRun(g, ops) && id in g.proposals && Decided(g.proposals[id])
    ensures id in Run(g, ops).proposals
    ensures
      var p, p' := g.proposals[id], Run(g, ops).proposals[id];
      p'.votes == p.votes && (p'.status == p.status || (p.status == Approved && p'.status == Executed))
    decreases |ops|
  {
    hide TallyOf, Judge;
    if ops != [] {
      DecisionsFrozen(Step(g, ops[0]), ops[1..], id);
    }
  }

  /** Finalizing raises exactly when voting is over and the quorum is met by abstentions alone. */
  lemma FinalizeRaisesExactly(g: Gov, ops: seq<Op>, id: string, now: real, logged: real)
    requires Fresh(g) && ValidRun(g, ops)
    ensures
      var s := Run(g, ops);
      Finalize(s, id, now, logged).1 == ZeroDivision
      <==> id in s.proposals && s.proposals[id].status == Voting && now >= s.proposals[id].votingEndsAt
           && TallyFor(s.proposals[id]).votesAbstain >= 0.2
           && forall k :: 0 <= k < |s.proposals[id].votes| ==> s.proposals[id].votes[k].ballot.choice == Abstain
  {
    RunKeeps(g, ops);
    var s := Run(g, ops);
    assert GoodAt(s, id);
    if VotingOver(s, id, now) {
      TallyNonNegative(Ballots(s.proposals[id].votes));
      JudgeMeans(TallyFor(s.proposals[id]));
    }
  }

  function WeightOf(ballots: seq<Ballot>): real {
    if ballots == [] then 0.0 else WeightOf(ballots[..|ballots| - 1]) + ballots[|ballots| - 1].weight
  }

  /** Nothing is lost in the count: the three sides together are the weight of all ballots. */
  lemma {:induction false} TallyIsWeight(ballots: seq<Ballot>)
    ensures
      var t := TallyOf(ballots);
      t.votesFor + t.votesAgainst + t.votesAbstain == WeightOf(ballots)
  {
    if ballots != [] { TallyIsWeight(ballots[..|ballots| - 1]); }
  }

  // ---- What each call does ----

  /** A proof is known exactly when it is the hash of one of the last 200 entries of the log. */
  lemma ProofKnownExactly(entries: seq<Entry>, proof: Hash)
    ensures ProofKnown(entries, proof)
      <==> exists i :: 0 <= i < |entries| && |entries| - 200 <= i && entries[i].entryHash == proof
  {
    LatestIsSuffix(entries, 200);
    var tail := Latest(entries, 200);
    if i :| 0 <= i < |entries| && |entries| - 200 <= i && entries[i].entryHash == proof {
      assert tail[i - (|entries| - |tail|)] == entries[i];
    }
    if e :| e in tail && e.entryHash == proof {
      var k :| 0 <= k < |tail| && tail[k] == e;
      assert entries[|entries| - |tail| + k] == e;
    }
  }

  /** All other proposals, and the voting power, are as they were. */
  ghost predicate OnlyChanges(g: Gov, g': Gov, id: string) {
    g'.power == g.power && id in g'.proposals && g'.proposals.Keys == g.proposals.Keys + {id}
    && forall x :: x in g.proposals && x != id ==> g'.proposals[x] == g.proposals[x]
  }

  /** A proposal is accepted exactly when all its required proofs are known; it starts in review for 259200 seconds, as
      drafted and without votes, and is logged. */
  lemma ProposeExactly(g: Gov, d: NewProposal, id: string, t: ProposeClock)
    ensures
      var (g', ok) := Propose(g, d, id, t);
      (ok <==> forall proof :: proof in d.requiredProofs ==>
                 exists i :: 0 <= i < |g.book.entries| && |g.book.entries| - 200 <= i && g.book.entries[i].entryHash == proof)
      && (!ok ==> g' == g)
      && (ok ==>
            OnlyChanges(g, g', id)
            && g'.proposals[id]
               == Proposal(id, d.proposalType, d.title, d.description, d.proposer, d.requiredProofs, d.params, Review,
                           t.created, t.reviewFrom + 259200.0, 0.0, [], 0.0, "")
            && Logs(g.book, g'.book, GovernanceAction,
                    ProposalCreated(id, d.proposalType, d.title, d.proposer, d.requiredProofs), t.logged))
  {
    hide ProofKnown;
    forall proof | proof in d.requiredProofs
      ensures ProofKnown(g.book.entries, proof)
        <==> exists i :: 0 <= i < |g.book.entries| && |g.book.entries| - 200 <= i && g.book.entries[i].entryHash == proof
    {
      ProofKnownExactly(g.book.entries, proof);
    }
    AllKnown(g.book, d.requiredProofs);
    AppendLogs(g.book, GovernanceAction, ProposalCreated(id, d.proposalType, d.title, d.proposer, d.requiredProofs), t.logged);
  }

  lemma AllKnown(b: Book, proofs: seq<Hash>)
    ensures ProofsKnown(b, proofs) <==> forall proof :: proof in proofs ==> ProofKnown(b.entries, proof)
  {
    hide ProofKnown;
    if ProofsKnown(b, proofs) {
      forall proof | proof in proofs ensures ProofKnown(b.entries, proof) {
        var k :| 0 <= k < |proofs| && proofs[k] == proof;
      }
    }
  }

  /** Voting opens exactly for a proposal in review, and runs for 172800 seconds; nothing else changes. */
  lemma StartExactly(g: Gov, id: string, now: real)
    ensures
      var (g', ok) := StartVoting(g, id, now);
      (ok <==> id in g.proposals && g.proposals[id].status == Review) && g'.book == g.book && (!ok ==> g' == g)
      && (ok ==> OnlyChanges(g, g', id)
                 && g'.proposals[id] == g.proposals[id].(status := Voting, votingEndsAt := now + 172800.0))
  {
  }

  /** A vote is accepted exactly during voting, from someone with positive power who has not voted; it is recorded and
      logged with that power. */
  lemma VoteExactly(g: Gov, id: string, voter: string, choice: Choice, reason: string, cast: real, logged: real)
    ensures
      var (g', ok) := CastVote(g, id, voter, choice, reason, cast, logged);
      (ok <==> id in g.proposals && g.proposals[id].status == Voting && voter in g.power && g.power[voter] > 0.0
               && forall v :: v in g.proposals[id].votes ==> v.ballot.voter != voter)
      && (!ok ==> g' == g)
      && (ok ==>
            OnlyChanges(g, g', id)
            && g'.proposals[id] == g.proposals[id].(votes := g'.proposals[id].votes)
            && g'.proposals[id].votes == g.proposals[id].votes + [Vote(Ballot(voter, choice, g.power[voter]), cast, reason)]
            && Logs(g.book, g'.book, GovernanceAction, VoteCast(id, voter, choice, g.power[voter]), logged))
  {
    if MayVote(g, id, voter) {
      AppendLogs(g.book, GovernanceAction, VoteCast(id, voter, choice, g.power[voter]), logged);
    }
    assert id in g.proposals ==>
      (HasVoted(g.proposals[id], voter) <==> exists v :: v in g.proposals[id].votes && v.ballot.voter == voter);
  }

  /** Finalizing does nothing exactly for an unknown id, outside voting or before the deadline; otherwise it raises, or
      decides by the tally and logs both. */
  lemma FinalizeExactly(g: Gov, id: string, now: real, logged: real)
    ensures
      var (g', outcome) := Finalize(g, id, now, logged);
      (outcome == Done(false) <==> id !in g.proposals || g.proposals[id].status != Voting || now < g.proposals[id].votingEndsAt)
      && (outcome != Done(true) ==> g' == g)
      && (outcome == Done(true) ==>
            var (p, t) := (g.proposals[id], TallyFor(g.proposals[id]));
            OnlyChanges(g, g', id)
            && g'.proposals[id] == p.(status := if Judge(t) == Passed then Approved else Rejected)
            && Logs(g.book, g'.book, GovernanceAction,
                    ProposalFinalized(id, Judge(t) == Passed, t.votesFor, t.votesAgainst, t.votesAbstain), logged))
  {
    hide Judge, TallyFor;
    if VotingOver(g, id, now) {
      var t := TallyFor(g.proposals[id]);
      AppendLogs(g.book, GovernanceAction,
                 ProposalFinalized(id, Judge(t) == Passed, t.votesFor, t.votesAgainst, t.votesAbstain), logged);
    }
  }

  /** Exactly approved proposals are executed, once, by the named executor, and logged. */
  lemma ExecuteExactly(g: Gov, id: string, executor: string, now: real, logged: real)
    ensures
      var (g', ok) := Execute(g, id, executor, now, logged);
      (ok <==> id in g.proposals && g.proposals[id].status == Approved) && (!ok ==> g' == g)
      && (ok ==>
            OnlyChanges(g, g', id)
            && g'.proposals[id] == g.proposals[id].(status := Executed, executedAt := now, executor := executor)
            && Logs(g.book, g'.book, GovernanceAction, ProposalExecuted(id, executor), logged)
            && !Execute(g', id, executor, now, logged).1)
  {
    if id in g.proposals && g.proposals[id].status == Approved {
      AppendLogs(g.book, GovernanceAction, ProposalExecuted(id, executor), logged);
    }
  }

  // ---- Deadlines over runs ----

  /** The call reads the clock before the deadline, if it is one that could decide the proposal. */
  predicate TooEarly(op: Op, id: string, deadline: real) { op.DoFinalize? && op.id == id ==> op.now < deadline }

  lemma StepKeepsVoting(g: Gov, op: Op, id: string, deadline: real)
    requires Enabled(g, op) && id in g.proposals && g.proposals[id].status == Voting && g.proposals[id].votingEndsAt == deadline
    requires TooEarly(op, id, deadline)
    ensures
      var g' := Step(g, op);
      id in g'.proposals && g'.proposals[id].status == Voting && g'.proposals[id].votingEndsAt == deadline
  {
    hide Judge, TallyFor, ProofsKnown;
  }

  lemma {:induction false} StaysInVoting(g: Gov, ops: seq<Op>, id: string, deadline: real)
    requires ValidRun(g, ops) && id in g.proposals && g.proposals[id].status == Voting && g.proposals[id].votingEndsAt == deadline
    requires forall k :: 0 <= k < |ops| ==> TooEarly(ops[k], id, deadline)
    ensures id in Run(g, ops).proposals && Run(g, ops).proposals[id].status == Voting
    decreases |ops|
  {
    hide Step, Enabled;
    if ops != [] {
      StepKeepsVoting(g, ops[0], id, deadline);
      StaysInVoting(Step(g, ops[0]), ops[1..], id, deadline);
    }
  }

  /** No early decision: a proposal whose voting opened at some time is still in voting after every run in which the
      clock of no finalizing call has reached 172800 seconds later. */
  lemma NoEarlyDecision(g: Gov, start: real, ops: seq<Op>, id: string)
    requires id in g.proposals && g.proposals[id].status == Review
    requires ValidRun(Step(g, DoStart(id, start)), ops)
    requires forall k :: 0 <= k < |ops| ==> TooEarly(ops[k], id, start + 172800.0)
    ensures
      var g' := Run(Step(g, DoStart(id, start)), ops);
      id in g'.proposals && g'.proposals[id].status == Voting
  {
    hide Run, ValidRun;
    StaysInVoting(Step(g, DoStart(id, start)), ops, id, start + 172800.0);
  }

  // ---- The object ----

  class GovernanceBoard {
    const book: ProofLog
    var proposals: map<string, Proposal>
    var power: map<string, real>

    ghost function View(): Gov
      reads this, book
    {
      Gov(proposals, power, book.View())
    }

    constructor (book: ProofLog)
      ensures this.book == book && View() == Gov(map[], map[], book.View())
    {
      this.book := book;
      proposals, power := map[], map[];
    }

    method CountVotes(p: Proposal) returns (t: Tally)
      ensures t == TallyFor(p)
    {
      t := NO_VOTES;
      var k := 0;
      while k < |p.votes|
        invariant 0 <= k <= |p.votes| && t == TallyOf(Ballots(p.votes)[..k])
      {
        assert Ballots(p.votes)[..k + 1][..k] == Ballots(p.votes)[..k];
        t := Count(t, p.votes[k].ballot);
        k := k + 1;
      }
      assert Ballots(p.votes)[..k] == Ballots(p.votes);
    }

    method ProposeNew(d: NewProposal, id: string, t: ProposeClock) returns (ok: bool)
      modifies this, book
      ensures (View(), ok) == Propose(old(View()), d, id, t)
    {
      hide ProofKnown;
      var k := 0;
      while k < |d.requiredProofs|
        invariant 0 <= k <= |d.requiredProofs|
        invariant View() == old(View())
        invariant forall j :: 0 <= j < k ==> ProofKnown(book.entries, d.requiredProofs[j])
      {
        if !ProofKnown(book.entries, d.requiredProofs[k]) {
          return false;
        }
        k := k + 1;
      }
      var p := Proposal(id, d.proposalType, d.title, d.description, d.proposer, d.requiredProofs, d.params, Review,
                        t.created, t.reviewFrom + REVIEW_WINDOW, 0.0, [], 0.0, "");
      proposals := proposals[id := p];
      var _ := book.Append(GovernanceAction,
                           ProposalCreated(id, d.proposalType, d.title, d.proposer, d.requiredProofs), t.logged);
      return true;
    }

    method OpenVoting(id: string, now: real) returns (ok: bool)
      modifies this
      ensures (View(), ok) == StartVoting(old(View()), id, now)
    {
      if id !in proposals || proposals[id].status != Review {
        return false;
      }
      var p := proposals[id].(status := Voting);
      proposals := proposals[id := p.(votingEndsAt := now + VOTING_WINDOW)];
      return true;
    }

    method AddVote(id: string, voter: string, choice: Choice, reason: string, cast: real, logged: real) returns (ok: bool)
      modifies this, book
      ensures (View(), ok) == CastVote(old(View()), id, voter, choice, reason, cast, logged)
    {
      if id !in proposals || proposals[id].status != Voting {
        return false;
      }
      var p := proposals[id];
      var k := 0;
      while k < |p.votes|
        invariant 0 <= k <= |p.votes| && View() == old(View())
        invariant forall j :: 0 <= j < k ==> p.votes[j].ballot.voter != voter
      {
        if p.votes[k].ballot.voter == voter {
          return false;
        }
        k := k + 1;
      }
      var weight := if voter in power then power[voter] else 0.0;
      if weight <= 0.0 {
        return false;
      }
      p := p.(votes := p.votes + [Vote(Ballot(voter, choice, weight), cast, reason)]);
      proposals := proposals[id := p];
      var _ := book.Append(GovernanceAction, VoteCast(id, voter, choice, weight), logged);
      return true;
    }

    method FinalizeVoting(id: string, now: real, logged: real) returns (outcome: Outcome)
      modifies this, book
      ensures (View(), outcome) == Finalize(old(View()), id, now, logged)
      ensures outcome == Done(false) <==>
        id !in old(proposals) || old(proposals)[id].status != Voting || now < old(proposals)[id].votingEndsAt
    {
      if id !in proposals || proposals[id].status != Voting {
        return Done(false);
      }
      if now < proposals[id].votingEndsAt {
        return Done(false);
      }
      var p := proposals[id];
      var t := CountVotes(p);
      var verdict := Judge(t);
      if verdict == DivisionByZero {
        return ZeroDivision;
      }
      if verdict == Passed {
        p := p.(status := Approved);
      } else {
        p := p.(status := Rejected);
      }
      proposals := proposals[id := p];
      var _ := book.Append(GovernanceAction,
                           ProposalFinalized(id, p.status == Approved, t.votesFor, t.votesAgainst, t.votesAbstain), logged);
      return Done(true);
    }

    method ExecuteProposal(id: string, executor: string, now: real, logged: real) returns (ok: bool)
      modifies this, book
      ensures (View(), ok) == Execute(old(View()), id, executor, now, logged)
    {
      if id !in proposals || proposals[id].status != Approved {
        return false;
      }
      var p := proposals[id].(status := Executed);
      proposals := proposals[id := p.(executedAt := now, executor := executor)];
      var _ := book.Append(GovernanceAction, ProposalExecuted(id, executor), logged);
      return true;
    }
  }
}
