// What every table keeps, and how votes decide a proposal.
module MultisigTally {
  import opened Common
  import opened MultisigSpec

  // The bookkeeping of one proposal: voters are approvers, each counted once on
  // one side, and the state says exactly where the tallies stand.
  ghost predicate Sound(c: Config, p: Proposal) {
    && NoDup(p.approved) && NoDup(p.rejected)
    && (forall v :: v in p.approved ==> v in c.approvers && v !in p.rejected)
    && (forall v :: v in p.rejected ==> v in c.approvers)
    && match p.state
       case Pending => |p.approved| < c.quorum <= |c.approvers| - |p.rejected|
       case Expired => |p.approved| < c.quorum <= |c.approvers| - |p.rejected|
       case Executed => |p.approved| == c.quorum <= |c.approvers| - |p.rejected|
       case Rejected => |p.approved| < c.quorum == |c.approvers| - |p.rejected| + 1
  }

  ghost predicate SoundTable(c: Config, t: Table) {
    forall id :: id in t.proposals ==>
      1 <= id <= t.next && t.proposals[id].id == id && Sound(c, t.proposals[id])
  }

  lemma CastKeepsSound(c: Config, p: Proposal, voter: string, approve: bool)
    requires Sound(c, p) && p.state == Pending
    requires voter in c.approvers && voter !in p.approved && voter !in p.rejected
    ensures Sound(c, Cast(c, p, voter, approve))
  {
  }

  lemma SweepKeepsSound(c: Config, t: Table, now: int)
    requires SoundTable(c, t)
    ensures SoundTable(c, Sweep(t, now))
  {
    var s := Sweep(t, now);
    forall id | id in s.proposals
      ensures 1 <= id <= s.next && s.proposals[id].id == id && Sound(c, s.proposals[id])
    {
      assert Sound(c, t.proposals[id]);
    }
  }

  lemma NextKeepsSound(c: Config, t: Table, e: Event)
    requires ValidConfig(c) && SoundTable(c, t)
    ensures SoundTable(c, Next(c, t, e)) && t.next <= Next(c, t, e).next
  {
    match e {
      case Holding(_, _, sweepAt, _) => SweepKeepsSound(c, t, sweepAt);
      case Listing(at) => SweepKeepsSound(c, t, at);
      case Voting(voter, op, id, at) =>
        SweepKeepsSound(c, t, at);
        if Vote(c, t, at, voter, op, id).1.Counted? {
          var s := Sweep(t, at);
          assert s.proposals[id.value].id == id.value;
          CastKeepsSound(c, s.proposals[id.value], voter, op.Approve?);
        }
    }
  }

  // Every reachable table is sound.
  lemma {:induction false} RunKeepsSound(c: Config, t: Table, es: seq<Event>)
    requires ValidConfig(c) && SoundTable(c, t)
    ensures SoundTable(c, EMPTY)
    ensures SoundTable(c, Run(c, t, es)) && t.next <= Run(c, t, es).next
    decreases |es|
  {
    if es != [] {
      RunKeepsSound(c, t, es[..|es| - 1]);
      NextKeepsSound(c, Run(c, t, es[..|es| - 1]), es[|es| - 1]);
    }
  }

  // ----- deciding by tally

  datatype Ballot = Ballot(voter: string, approve: bool)

  // A ballot on a closed proposal, or a second one by the same voter, is refused.
  function TryCast(c: Config, p: Proposal, b: Ballot): Proposal {
    if p.state != Pending || b.voter in p.approved || b.voter in p.rejected then p
    else Cast(c, p, b.voter, b.approve)
  }

  function CastAll(c: Config, p: Proposal, bs: seq<Ballot>): Proposal {
    if bs == [] then p else TryCast(c, CastAll(c, p, bs[..|bs| - 1]), bs[|bs| - 1])
  }

  // Who voted which way, in order.
  function Side(bs: seq<Ballot>, approve: bool): seq<string> {
    if bs == [] then [] else
      var last := bs[|bs| - 1];
      Side(bs[..|bs| - 1], approve) + (if last.approve == approve then [last.voter] else [])
  }

  function Voters(bs: seq<Ballot>): (vs: seq<string>)
    ensures |vs| == |bs|
  {
    if bs == [] then [] else Voters(bs[..|bs| - 1]) + [bs[|bs| - 1].voter]
  }

  ghost predicate OneEach(c: Config, bs: seq<Ballot>) {
    NoDup(Voters(bs)) && forall v :: v in Voters(bs) ==> v in c.approvers
  }

  lemma {:induction false} SidesSplit(bs: seq<Ballot>)
    ensures |Side(bs, true)| + |Side(bs, false)| == |bs|
    ensures forall a, v :: v in Side(bs, a) ==> v in Voters(bs)
  {
    if bs != [] {
      var front := bs[..|bs| - 1];
      SidesSplit(front);
    }
  }

  lemma OneEachIsAtMostAll(c: Config, bs: seq<Ballot>)
    requires OneEach(c, bs)
    ensures |bs| <= |c.approvers|
  {
    NoDupCardinality(Voters(bs));
    SubsetCardinality(Elements(Voters(bs)), Elements(c.approvers));
    ElementsAtMostLength(c.approvers);
  }

  lemma {:induction false} ElementsAtMostLength<T>(s: seq<T>)
    ensures |Elements(s)| <= |s|
  {
    if s == [] {
      assert Elements(s) == {};
    } else {
      ElementsAtMostLength(s[..|s| - 1]);
      assert s == s[..|s| - 1] + [s[|s| - 1]];
      assert Elements(s) == Elements(s[..|s| - 1]) + {s[|s| - 1]};
    }
  }

  // The tallies alone decide: whatever the order of the votes, the proposal is
  // executed exactly when a quorum approved, rejected exactly when so many
  // refused that a quorum is out of reach, and waits otherwise.
  lemma {:induction false} TallyDecides(c: Config, p: Proposal, bs: seq<Ballot>)
    requires ValidConfig(c) && p.state == Pending && p.approved == [] && p.rejected == []
    requires OneEach(c, bs)
    ensures var yes, no, q := |Side(bs, true)|, |Side(bs, false)|, CastAll(c, p, bs);
            && (q.state == Executed <==> yes >= c.quorum)
            && (q.state == Rejected <==> no > |c.approvers| - c.quorum)
            && (q.state == Pending <==> yes < c.quorum && no <= |c.approvers| - c.quorum)
            && (q.state == Pending ==> q.approved == Side(bs, true) && q.rejected == Side(bs, false))
    decreases |bs|
  {
    OneEachIsAtMostAll(c, bs);
    SidesSplit(bs);
    if bs != [] {
      var front, last := bs[..|bs| - 1], bs[|bs| - 1];
      NoDupAppend(Voters(front), last.voter);
      assert last.voter in Voters(bs);
      TallyDecides(c, p, front);
      SidesSplit(front);
    }
  }

  lemma {:induction false} ApprovalsCounted(bs: seq<Ballot>, v: string)
    ensures multiset(Side(bs, true))[v] == multiset(bs)[Ballot(v, true)]
    decreases |bs|
  {
    if bs != [] {
      ApprovalsCounted(bs[..|bs| - 1], v);
      assert bs == bs[..|bs| - 1] + [bs[|bs| - 1]];
    }
  }

  // When every approver votes once, the proposal is decided one way or the
  // other by how many approve, and any order of the same votes decides alike.
  lemma VoteOrderDoesNotMatter(c: Config, p: Proposal, bs: seq<Ballot>, cs: seq<Ballot>)
    requires ValidConfig(c) && p.state == Pending && p.approved == [] && p.rejected == []
    requires OneEach(c, bs) && OneEach(c, cs) && |bs| == |c.approvers|
    requires multiset(bs) == multiset(cs)
    ensures CastAll(c, p, bs).state == if |Side(bs, true)| >= c.quorum then Executed else Rejected
    ensures CastAll(c, p, cs).state == CastAll(c, p, bs).state
  {
    forall v
      ensures multiset(Side(bs, true))[v] == multiset(Side(cs, true))[v]
    {
      ApprovalsCounted(bs, v);
      ApprovalsCounted(cs, v);
    }
    assert multiset(Side(bs, true)) == multiset(Side(cs, true));
    assert |multiset(bs)| == |multiset(cs)| && |multiset(Side(bs, true))| == |multiset(Side(cs, true))|;
    TallyDecides(c, p, bs);
    SidesSplit(bs);
    TallyDecides(c, p, cs);
    SidesSplit(cs);
  }

  // ----- pending means winnable

  // Approvers who have not voted on p.
  function Unvoted(p: Proposal, names: seq<string>): seq<string> {
    if names == [] then [] else
      var v := names[|names| - 1];
      Unvoted(p, names[..|names| - 1]) + (if v in p.approved || v in p.rejected then [] else [v])
  }

  function Approvals(names: seq<string>): seq<Ballot> {
    seq(|names|, i requires 0 <= i < |names| => Ballot(names[i], true))
  }

  // Some votes by approvers who have not voted would bring the quorum together.
  ghost predicate Winnable(c: Config, p: Proposal) {
    exists more: seq<string> ::
      && NoDup(more)
      && (forall v :: v in more ==> v in c.approvers && v !in p.approved && v !in p.rejected)
      && |p.approved| + |more| >= c.quorum
  }

  lemma {:induction false} UnvotedAre(p: Proposal, names: seq<string>)
    requires NoDup(names)
    ensures NoDup(Unvoted(p, names))
    ensures forall v :: v in Unvoted(p, names) <==> v in names && v !in p.approved && v !in p.rejected
    decreases |names|
  {
    if names != [] {
      var front := names[..|names| - 1];
      UnvotedAre(p, front);
      assert names == front + [names[|names| - 1]];
    }
  }

  // Everybody is in exactly one of the three groups.
  lemma GroupsPartition(c: Config, p: Proposal)
    requires NoDup(c.approvers) && Sound(c, p)
    ensures var yes, no, open := Elements(p.approved), Elements(p.rejected), Elements(Unvoted(p, c.approvers));
            Elements(c.approvers) == yes + no + open && yes !! no && yes + no !! open
  {
    UnvotedAre(p, c.approvers);
  }

  lemma UnvotedCount(c: Config, p: Proposal)
    requires NoDup(c.approvers) && Sound(c, p)
    ensures |Unvoted(p, c.approvers)| == |c.approvers| - |p.approved| - |p.rejected|
  {
    var rest := Unvoted(p, c.approvers);
    GroupsPartition(c, p);
    ThreeParts(Elements(p.approved), Elements(p.rejected), Elements(rest), Elements(c.approvers));
    UnvotedAre(p, c.approvers);
    NoDupCardinality(rest);
    NoDupCardinality(p.approved);
    NoDupCardinality(p.rejected);
    NoDupCardinality(c.approvers);
  }

  // Approvals by newcomers pile up until the quorum is reached.
  lemma {:induction false} ApprovalsExecute(c: Config, p: Proposal, names: seq<string>)
    requires Sound(c, p) && p.state == Pending && NoDup(names)
    requires forall v :: v in names ==> v in c.approvers && v !in p.approved && v !in p.rejected
    ensures var q := CastAll(c, p, Approvals(names));
            if |p.approved| + |names| >= c.quorum then q.state == Executed
            else q == p.(approved := p.approved + names)
    decreases |names|
  {
    if names == [] {
      assert p.approved + names == p.approved;
    } else {
      var front, v := names[..|names| - 1], names[|names| - 1];
      assert names == front + [v];
      ApprovalsExecute(c, p, front);
      assert Approvals(names)[..|names| - 1] == Approvals(front);
      assert p.approved + front + [v] == p.approved + names;
    }
  }

  // A pending proposal can still be executed, by the approvals of all who have
  // not voted; a rejected one could not, whoever voted how.
  lemma PendingIsWinnable(c: Config, p: Proposal)
    requires ValidConfig(c) && Sound(c, p)
    ensures p.state == Pending ==>
      Winnable(c, p) && CastAll(c, p, Approvals(Unvoted(p, c.approvers))).state == Executed
    ensures p.state == Rejected ==> !Winnable(c, p)
  {
    var rest := Unvoted(p, c.approvers);
    UnvotedAre(p, c.approvers);
    UnvotedCount(c, p);
    if p.state == Pending {
      ApprovalsExecute(c, p, rest);
    }
    forall more: seq<string> |
      NoDup(more) && forall v :: v in more ==> v in c.approvers && v !in p.approved && v !in p.rejected
      ensures |more| <= |rest|
    {
      NoDupCardinality(more);
      NoDupCardinality(rest);
      SubsetCardinality(Elements(more), Elements(rest));
    }
  }
}
