// The M-of-N multisig of internal/host/multisig.go as functions on values: each
// function is one region under the lock.
module MultisigSpec {
  import opened Common

  // Durations and times are nanoseconds, as in Go.
  const PROPOSAL_TTL: int := 600_000_000_000

  datatype Status = Pending | Executed | Rejected | Expired

  datatype Proposal = Proposal(id: int, who: string, data: seq<Byte>, created: int,
                               approved: seq<string>, rejected: seq<string>, state: Status)

  datatype Config = Config(quorum: int, approvers: seq<string>, supervised: set<string>)

  // What newMultisig accepts.
  ghost predicate ValidConfig(c: Config) {
    && 1 <= c.quorum <= |c.approvers|
    && NoDup(c.approvers)
    && c.supervised != {}
    && forall a :: a in c.approvers ==> a !in c.supervised
  }

  datatype Table = Table(next: nat, proposals: map<int, Proposal>)

  const EMPTY := Table(0, map[])

  predicate TooOld(p: Proposal, now: int) {
    p.state == Pending && now - p.created > PROPOSAL_TTL
  }

  predicate Forgotten(p: Proposal, now: int) {
    p.state != Pending && now - p.created > 4 * PROPOSAL_TTL
  }

  function Aged(p: Proposal, now: int): Proposal {
    if TooOld(p, now) then p.(state := Expired) else p
  }

  // One sweep, proposal by proposal.
  function Sweep(t: Table, now: int): Table {
    t.(proposals := map id | id in t.proposals && !Forgotten(t.proposals[id], now) :: Aged(t.proposals[id], now))
  }

  // A sweep under way: the proposals in todo have not been looked at.
  ghost function PartlySwept(t: Table, todo: set<int>, now: int): Table {
    t.(proposals := map id | id in t.proposals && (id in todo || !Forgotten(t.proposals[id], now)) ::
      if id in todo then t.proposals[id] else Aged(t.proposals[id], now))
  }

  // Looking at one more changes that one alone, so the order does not matter.
  lemma SweepOne(t: Table, todo: set<int>, id: int, now: int)
    requires id in todo && todo <= t.proposals.Keys
    ensures var p, s := t.proposals[id], PartlySwept(t, todo, now);
            var m := s.proposals[id := Aged(p, now)];
            PartlySwept(t, todo - {id}, now) == s.(proposals := if Forgotten(p, now) then m - {id} else m)
    ensures PartlySwept(t, todo, now).proposals[id] == t.proposals[id]
    ensures PartlySwept(t, t.proposals.Keys, now) == t
    ensures PartlySwept(t, {}, now) == Sweep(t, now)
  {
  }

  // The clock is read once for the sweep and once for the new proposal.
  function Hold(t: Table, who: string, data: seq<Byte>, sweepAt: int, now: int): Table {
    var s := Sweep(t, sweepAt);
    var id := s.next + 1;
    Table(id, s.proposals[id := Proposal(id, who, data, now, [], [], Pending)])
  }

  datatype Op = Approve | Reject | Unknown(text: string)

  datatype Refusal =
    | UnknownVote | NotANumber | NotAnApprover | NoSuchProposal | AlreadyClosed(state: Status) | AlreadyVoted

  datatype Outcome = Refused(why: Refusal) | Counted(view: Proposal)

  function Cast(c: Config, p: Proposal, voter: string, approve: bool): Proposal {
    var q := if approve then p.(approved := p.approved + [voter]) else p.(rejected := p.rejected + [voter]);
    if |q.approved| >= c.quorum then q.(state := Executed)
    else if |c.approvers| - |q.rejected| < c.quorum then q.(state := Rejected)
    else q
  }

  // id is what the text of the vote parses to, if it parses.
  function Vote(c: Config, t: Table, now: int, voter: string, op: Op, id: Option<int>): (Table, Outcome) {
    if op.Unknown? then (t, Refused(UnknownVote))
    else if id.None? then (t, Refused(NotANumber))
    else if voter !in c.approvers then (t, Refused(NotAnApprover))
    else
      var s := Sweep(t, now);
      if id.value !in s.proposals then (s, Refused(NoSuchProposal))
      else
        var p := s.proposals[id.value];
        if p.state != Pending then (s, Refused(AlreadyClosed(p.state)))
        else if voter in p.approved || voter in p.rejected then (s, Refused(AlreadyVoted))
        else
          var q := Cast(c, p, voter, op.Approve?);
          (s.(proposals := s.proposals[id.value := q]), Counted(q))
  }

  // Everything that can happen to the table, with the clock readings it makes.
  datatype Event =
    | Holding(who: string, data: seq<Byte>, sweepAt: int, at: int)
    | Voting(voter: string, op: Op, id: Option<int>, at: int)
    | Listing(at: int)

  function Next(c: Config, t: Table, e: Event): Table {
    match e
    case Holding(who, data, sweepAt, at) => Hold(t, who, data, sweepAt, at)
    case Voting(voter, op, id, at) => Vote(c, t, at, voter, op, id).0
    case Listing(at) => Sweep(t, at)
  }

  function Run(c: Config, t: Table, es: seq<Event>): Table {
    if es == [] then t else Next(c, Run(c, t, es[..|es| - 1]), es[|es| - 1])
  }
}
