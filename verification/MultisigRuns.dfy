// Whole runs of the multisig: proposals do not disturb each other, close once
// and for all, and are decided by their own votes.
module MultisigRuns {
  import opened Common
  import opened MultisigSpec
  import opened MultisigTally

  // The ballots a run brings to one proposal.
  function BallotOf(c: Config, id: int, e: Event): seq<Ballot> {
    if e.Voting? && e.id == Some(id) && !e.op.Unknown? && e.voter in c.approvers
    then [Ballot(e.voter, e.op.Approve?)] else []
  }

  function Ballots(c: Config, id: int, es: seq<Event>): seq<Ballot> {
    if es == [] then [] else Ballots(c, id, es[..|es| - 1]) + BallotOf(c, id, es[|es| - 1])
  }

  // The clock reading an event sweeps with.
  function SweepTime(e: Event): int {
    if e.Holding? then e.sweepAt else e.at
  }

  ghost predicate Within(es: seq<Event>, deadline: int) {
    forall e :: e in es ==> SweepTime(e) <= deadline
  }

  lemma {:induction false} CastAllKeepsOrigin(c: Config, p: Proposal, bs: seq<Ballot>)
    ensures var q := CastAll(c, p, bs); q.created == p.created && q.id == p.id && q.who == p.who && q.data == p.data
    ensures p.state != Expired ==> CastAll(c, p, bs).state != Expired
    decreases |bs|
  {
    if bs != [] {
      CastAllKeepsOrigin(c, p, bs[..|bs| - 1]);
    }
  }

  lemma OneStepOnTime(c: Config, t: Table, e: Event, id: int)
    requires SoundTable(c, t) && id in t.proposals
    requires SweepTime(e) <= t.proposals[id].created + PROPOSAL_TTL
    ensures var u := Next(c, t, e);
            id in u.proposals && u.proposals[id] == CastAll(c, t.proposals[id], BallotOf(c, id, e))
  {
    var p := t.proposals[id];
    assert id <= t.next;
    assert BallotOf(c, id, e) != [] ==>
      CastAll(c, p, BallotOf(c, id, e)) == TryCast(c, CastAll(c, p, []), BallotOf(c, id, e)[0]);
  }

  lemma {:induction false} CastAllConcat(c: Config, p: Proposal, bs: seq<Ballot>, more: seq<Ballot>)
    ensures CastAll(c, p, bs + more) == CastAll(c, CastAll(c, p, bs), more)
    decreases |more|
  {
    if more == [] {
      assert bs + more == bs;
    } else {
      CastAllConcat(c, p, bs, more[..|more| - 1]);
      assert (bs + more)[..|bs + more| - 1] == bs + more[..|more| - 1];
    }
  }

  // Until its time is up a proposal is what its own ballots make of it, whatever
  // else is proposed, voted on, listed or swept in between.
  lemma {:induction false} OnlyItsOwnVotesCount(c: Config, t: Table, es: seq<Event>, id: int)
    requires ValidConfig(c) && SoundTable(c, t) && id in t.proposals
    requires Within(es, t.proposals[id].created + PROPOSAL_TTL)
    ensures var u := Run(c, t, es);
            id in u.proposals && u.proposals[id] == CastAll(c, t.proposals[id], Ballots(c, id, es))
    decreases |es|
  {
    if es != [] {
      var front, last := es[..|es| - 1], es[|es| - 1];
      OnlyItsOwnVotesCount(c, t, front, id);
      RunKeepsSound(c, t, front);
      CastAllKeepsOrigin(c, t.proposals[id], Ballots(c, id, front));
      OneStepOnTime(c, Run(c, t, front), last, id);
      CastAllConcat(c, t.proposals[id], Ballots(c, id, front), BallotOf(c, id, last));
    }
  }

  // A proposal on which every approver votes once in time, in whatever order and
  // among whatever else, is executed exactly when a quorum of them approves and
  // rejected otherwise.
  lemma ProposalDecidedByItsVotes(c: Config, t: Table, who: string, data: seq<Byte>, sweepAt: int, at: int, es: seq<Event>)
    requires ValidConfig(c) && SoundTable(c, t)
    requires Within(es, at + PROPOSAL_TTL)
    requires var bs := Ballots(c, t.next + 1, es); OneEach(c, bs) && |bs| == |c.approvers|
    ensures var id := t.next + 1;
            var u := Run(c, Hold(t, who, data, sweepAt, at), es);
            && id in u.proposals
            && u.proposals[id].state ==
                 if |Side(Ballots(c, id, es), true)| >= c.quorum then Executed else Rejected
  {
    var id := t.next + 1;
    var h := Hold(t, who, data, sweepAt, at);
    NextKeepsSound(c, t, Holding(who, data, sweepAt, at));
    assert h == Next(c, t, Holding(who, data, sweepAt, at));
    OnlyItsOwnVotesCount(c, h, es, id);
    TallyDecides(c, h.proposals[id], Ballots(c, id, es));
    SidesSplit(Ballots(c, id, es));
  }

  // ----- the life of a proposal

  // A vote that is refused for what it is, and not for its proposal, is refused
  // before the table is swept.
  predicate Sweeps(c: Config, e: Event) {
    e.Voting? ==> !e.op.Unknown? && e.id.Some? && e.voter in c.approvers
  }

  // One step: a new proposal takes the next number; of the others exactly the
  // closed ones whose time is long up are forgotten, a pending one may expire
  // and then take its own ballot, and nothing else changes.
  lemma StepLifecycle(c: Config, t: Table, e: Event, id: int)
    requires ValidConfig(c) && SoundTable(c, t)
    ensures var u := Next(c, t, e);
            && u.next == t.next + (if e.Holding? then 1 else 0)
            && (id !in t.proposals && id in u.proposals ==>
                  e.Holding? && id == u.next && u.proposals[id] == Proposal(id, e.who, e.data, e.at, [], [], Pending))
            && (id in t.proposals ==>
                  (id in u.proposals <==> !(Sweeps(c, e) && Forgotten(t.proposals[id], SweepTime(e)))))
            && (id in t.proposals && id in u.proposals ==>
                  u.proposals[id] ==
                    if Sweeps(c, e) then CastAll(c, Aged(t.proposals[id], SweepTime(e)), BallotOf(c, id, e))
                    else t.proposals[id])
            && (id in t.proposals && t.proposals[id].state == Pending ==> id in u.proposals)
            && (id in t.proposals && t.proposals[id].state != Pending && id in u.proposals ==>
                  u.proposals[id] == t.proposals[id])
  {
    assert id in t.proposals ==> id <= t.next;
    var bs := BallotOf(c, id, e);
    if id in t.proposals && bs != [] {
      var p := Aged(t.proposals[id], SweepTime(e));
      assert CastAll(c, p, bs) == TryCast(c, CastAll(c, p, []), bs[0]);
    }
  }

  // Closed or gone.
  predicate Settled(t: Table, id: int) {
    id <= t.next && (id in t.proposals ==> t.proposals[id].state != Pending)
  }

  // Over any run a settled number stays settled: its record never changes again,
  // no vote on it counts, and once forgotten the number is never given out anew.
  lemma {:induction false} SettledForGood(c: Config, t: Table, es: seq<Event>, id: int)
    requires ValidConfig(c) && SoundTable(c, t) && Settled(t, id)
    ensures var u := Run(c, t, es);
            && Settled(u, id)
            && (id in u.proposals ==> id in t.proposals && u.proposals[id] == t.proposals[id])
    ensures var u := Run(c, t, es);
            forall now, voter, op ::
              && Vote(c, u, now, voter, op, Some(id)).1.Refused?
              && (var after := Vote(c, u, now, voter, op, Some(id)).0; after == u || after == Sweep(u, now))
    decreases |es|
  {
    if es != [] {
      var front := es[..|es| - 1];
      SettledForGood(c, t, front, id);
      RunKeepsSound(c, t, front);
      StepLifecycle(c, Run(c, t, front), es[|es| - 1], id);
    }
  }

  // ----- one sweep and one vote, spelled out

  // A sweep at now: pending proposals over ten minutes old expire, others over
  // forty are forgotten, and that is all.
  lemma SweepIs(t: Table, now: int, id: int)
    ensures var s := Sweep(t, now);
            && s.next == t.next
            && (id in s.proposals <==>
                  id in t.proposals && (t.proposals[id].state == Pending || now - t.proposals[id].created <= 4 * PROPOSAL_TTL))
            && (id in s.proposals ==>
                  s.proposals[id] == t.proposals[id].(state :=
                    if t.proposals[id].state == Pending && now - t.proposals[id].created > PROPOSAL_TTL then Expired
                    else t.proposals[id].state))
  {
  }

  // The proposal a vote is on, as the vote's sweep leaves it.
  function Target(t: Table, now: int, id: Option<int>): Option<Proposal> {
    var s := Sweep(t, now);
    if id.Some? && id.value in s.proposals then Some(s.proposals[id.value]) else None
  }

  // When a vote is refused, and with what; a vote that is not from an approver, or
  // not a vote, leaves the table unswept.
  lemma RefusedExactly(c: Config, t: Table, now: int, voter: string, op: Op, id: Option<int>)
    ensures var (u, o) := Vote(c, t, now, voter, op, id);
            var known, p := op == Approve || op == Reject, Target(t, now, id);
            var heard := known && id.Some? && voter in c.approvers;
            && (o == Refused(UnknownVote) <==> !known)
            && (o == Refused(NotANumber) <==> known && id.None?)
            && (o == Refused(NotAnApprover) <==> known && id.Some? && voter !in c.approvers)
            && (o == Refused(NoSuchProposal) <==> heard && p.None?)
            && (forall st :: o == Refused(AlreadyClosed(st)) <==> heard && p.Some? && p.value.state == st && st != Pending)
            && (o == Refused(AlreadyVoted) <==>
                  heard && p.Some? && p.value.state == Pending && (voter in p.value.approved || voter in p.value.rejected))
            && (o.Refused? ==> u == if heard then Sweep(t, now) else t)
  {
  }

  // What a counted vote does: the voter is added on the chosen side of that one
  // proposal, which is then executed with a quorum of approvals, rejected without
  // hope of one, and pending otherwise.
  lemma CountedIs(c: Config, t: Table, now: int, voter: string, op: Op, id: Option<int>)
    requires Vote(c, t, now, voter, op, id).1.Counted?
    ensures var (u, o) := Vote(c, t, now, voter, op, id);
            var p, q := Target(t, now, id), o.view;
            && p.Some? && p.value.state == Pending && voter in c.approvers
            && u.next == t.next && u.proposals == Sweep(t, now).proposals[id.value := q]
            && q.id == p.value.id && q.who == p.value.who && q.data == p.value.data && q.created == p.value.created
            && q.approved == p.value.approved + (if op == Approve then [voter] else [])
            && q.rejected == p.value.rejected + (if op == Reject then [voter] else [])
            && q.state == if |q.approved| >= c.quorum then Executed
                          else if |q.rejected| > |c.approvers| - c.quorum then Rejected else Pending
  {
  }
}
