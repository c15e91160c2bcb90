// The multisig under concurrency. A vote decides under the lock and acts after
// it: between the two anything else may happen, and decisions may be acted on in
// any order.
module MultisigSystem {
  import opened Common
  import opened MultisigSpec
  import opened MultisigTally

  // What a vote that reached the quorum takes out of the lock.
  datatype Decision = Decision(id: int, who: string, data: seq<Byte>, approved: seq<string>, at: int)

  // The table, and the history of the run: proposals as they were first held,
  // decisions as they were made, those not yet acted on, and those executed.
  datatype System = System(table: Table, held: seq<Proposal>,
                           decided: seq<Decision>, inFlight: seq<Decision>, ran: seq<Decision>)

  const START := System(EMPTY, [], [], [], [])

  // Lock(e) is the locked region of one call; Act(i) is the unlocked rest of the
  // i-th vote still on its way.
  datatype Step = Lock(e: Event) | Act(i: nat)

  function DecisionOf(c: Config, t: Table, e: Event): seq<Decision> {
    if e.Voting? then
      var o := Vote(c, t, e.at, e.voter, e.op, e.id).1;
      if o.Counted? && o.view.state == Executed
      then [Decision(o.view.id, o.view.who, o.view.data, o.view.approved, e.at)] else []
    else []
  }

  function HeldBy(t: Table, e: Event): seq<Proposal> {
    if e.Holding? then [Proposal(t.next + 1, e.who, e.data, e.at, [], [], Pending)] else []
  }

  function Take(c: Config, s: System, step: Step): System {
    match step
    case Lock(e) =>
      var d := DecisionOf(c, s.table, e);
      System(Next(c, s.table, e), s.held + HeldBy(s.table, e), s.decided + d, s.inFlight + d, s.ran)
    case Act(i) =>
      if i < |s.inFlight|
      then s.(inFlight := s.inFlight[..i] + s.inFlight[i + 1..], ran := s.ran + [s.inFlight[i]])
      else s
  }

  function Execution(c: Config, steps: seq<Step>): System {
    if steps == [] then START else Take(c, Execution(c, steps[..|steps| - 1]), steps[|steps| - 1])
  }

  // v cast an approval of proposal id in the run, no later than the deadline.
  ghost predicate Approved(steps: seq<Step>, v: string, id: int, deadline: int) {
    exists i :: 0 <= i < |steps| && IsApproval(steps[i], v, id, deadline)
  }

  predicate IsApproval(step: Step, v: string, id: int, deadline: int) {
    && step.Lock? && step.e.Voting?
    && step.e.voter == v && step.e.op == Approve && step.e.id == Some(id) && step.e.at <= deadline
  }

  // d was taken out of the lock by step j of the run.
  ghost predicate DecidedAt(c: Config, steps: seq<Step>, j: nat, d: Decision) {
    j < |steps| && steps[j].Lock? && d in DecisionOf(c, Execution(c, steps[..j]).table, steps[j].e)
  }

  // Numbers are given out one by one, and the table remembers what was held.
  ghost predicate Numbered(s: System) {
    && |s.held| == s.table.next
    && (forall k :: 0 <= k < |s.held| ==> s.held[k].id == k + 1)
    && (forall id :: id in s.table.proposals ==>
          1 <= id <= |s.held| && SameInput(s.table.proposals[id], s.held[id - 1]))
  }

  predicate SameInput(p: Proposal, q: Proposal) {
    p.who == q.who && p.data == q.data && p.created == q.created
  }

  // A decision is the decision on one held proposal, by a full quorum, in time.
  ghost predicate Rightful(c: Config, s: System, d: Decision)
    requires |s.held| == s.table.next
  {
    && 1 <= d.id <= s.table.next
    && s.held[d.id - 1].who == d.who && s.held[d.id - 1].data == d.data
    && d.at - s.held[d.id - 1].created <= PROPOSAL_TTL
    && |d.approved| == c.quorum && NoDup(d.approved)
    && (forall v :: v in d.approved ==> v in c.approvers && v !in c.supervised)
  }

  // Each proposal is decided at most once, and what was decided is closed.
  ghost predicate DecidedOnce(s: System) {
    && (forall i, j :: 0 <= i < j < |s.decided| ==> s.decided[i].id != s.decided[j].id)
    && (forall d :: d in s.decided && d.id in s.table.proposals ==> s.table.proposals[d.id].state == Executed)
    && (forall id :: id in s.table.proposals && s.table.proposals[id].state == Executed ==>
          exists d :: d in s.decided && d.id == id)
  }

  ghost predicate Invariant(c: Config, s: System) {
    && SoundTable(c, s.table)
    && Numbered(s)
    && (forall d :: d in s.decided ==> Rightful(c, s, d))
    && DecidedOnce(s)
    && multiset(s.inFlight) + multiset(s.ran) == multiset(s.decided)
  }

  // What a decision finds and leaves in the table.
  lemma DecisionIsRightful(c: Config, s: System, e: Event)
    requires ValidConfig(c) && SoundTable(c, s.table) && Numbered(s) && DecisionOf(c, s.table, e) != []
    ensures var d := DecisionOf(c, s.table, e)[0];
            && e.id == Some(d.id) && d.id in s.table.proposals && s.table.proposals[d.id].state == Pending
            && Next(c, s.table, e).proposals.Keys == Sweep(s.table, e.at).proposals.Keys
            && Next(c, s.table, e).proposals[d.id].state == Executed
            && Rightful(c, s, d)
  {
    var swept := Sweep(s.table, e.at);
    SweepKeepsSound(c, s.table, e.at);
    var p := swept.proposals[e.id.value];
    assert swept.proposals[e.id.value].id == e.id.value;
    CastKeepsSound(c, p, e.voter, e.op.Approve?);
  }

  lemma LockKeepsNumbered(c: Config, s: System, e: Event)
    requires ValidConfig(c) && SoundTable(c, s.table) && Numbered(s)
    ensures Numbered(Take(c, s, Lock(e))) && s.held <= Take(c, s, Lock(e)).held
  {
    var u := Take(c, s, Lock(e));
    forall id | id in u.table.proposals
      ensures 1 <= id <= |u.held| && SameInput(u.table.proposals[id], u.held[id - 1])
    {
      StepOrigin(c, s.table, e, id);
      if id in s.table.proposals {
        assert u.held[id - 1] == s.held[id - 1];
      } else {
        assert u.held == s.held + [u.table.proposals[id]];
      }
    }
  }

  // Where a proposal in the table comes from, and that execution is the doing of
  // the deciding vote alone.
  lemma StepOrigin(c: Config, t: Table, e: Event, id: int)
    requires ValidConfig(c) && SoundTable(c, t) && id in Next(c, t, e).proposals
    ensures var p := Next(c, t, e).proposals[id];
            && (id !in t.proposals ==> e.Holding? && [p] == HeldBy(t, e) && id == t.next + 1)
            && (id in t.proposals ==> SameInput(p, t.proposals[id]))
            && (id in t.proposals && t.proposals[id].state != Pending ==> p == t.proposals[id])
            && (p.state == Executed && (id in t.proposals ==> t.proposals[id].state != Executed) ==>
                  DecisionOf(c, t, e) != [] && DecisionOf(c, t, e)[0].id == id)
  {
    assert id in t.proposals ==> id <= t.next && t.proposals[id].id == id;
  }

  lemma LockKeepsDecidedOnce(c: Config, s: System, e: Event)
    requires ValidConfig(c) && SoundTable(c, s.table) && Numbered(s) && DecidedOnce(s)
    requires forall d :: d in s.decided ==> d.id <= s.table.next
    ensures DecidedOnce(Take(c, s, Lock(e)))
  {
    var u := Take(c, s, Lock(e));
    var d := DecisionOf(c, s.table, e);
    if d != [] {
      DecisionIsRightful(c, s, e);
      assert u.decided == s.decided + [d[0]];
    } else {
      assert u.decided == s.decided;
    }
    forall x | x in u.decided && x.id in u.table.proposals
      ensures u.table.proposals[x.id].state == Executed
    {
      StepOrigin(c, s.table, e, x.id);
    }
    forall id | id in u.table.proposals && u.table.proposals[id].state == Executed
      ensures exists x :: x in u.decided && x.id == id
    {
      StepOrigin(c, s.table, e, id);
      if id in s.table.proposals && s.table.proposals[id].state == Executed {
        var x :| x in s.decided && x.id == id;
        assert x in u.decided;
      } else {
        assert d[0] in u.decided;
      }
    }
  }

  lemma LockKeepsRightful(c: Config, s: System, e: Event)
    requires ValidConfig(c) && Invariant(c, s)
    requires var u := Take(c, s, Lock(e)); s.held <= u.held && |u.held| == u.table.next
    ensures forall d :: d in Take(c, s, Lock(e)).decided ==> Rightful(c, Take(c, s, Lock(e)), d)
  {
    var u := Take(c, s, Lock(e));
    forall d | d in u.decided
      ensures Rightful(c, u, d)
    {
      if d !in s.decided {
        DecisionIsRightful(c, s, e);
      }
      assert Rightful(c, s, d);
      assert u.held[d.id - 1] == s.held[d.id - 1];
    }
  }

  lemma TakeKeepsInvariant(c: Config, s: System, step: Step)
    requires ValidConfig(c) && Invariant(c, s)
    ensures Invariant(c, Take(c, s, step))
  {
    match step {
      case Lock(e) =>
        NextKeepsSound(c, s.table, e);
        LockKeepsNumbered(c, s, e);
        LockKeepsDecidedOnce(c, s, e);
        LockKeepsRightful(c, s, e);
      case Act(i) =>
        if i < |s.inFlight| {
          assert s.inFlight == s.inFlight[..i] + ([s.inFlight[i]] + s.inFlight[i + 1..]);
          var u := Take(c, s, step);
          assert u.table == s.table && u.held == s.held && u.decided == s.decided;
          assert forall d :: d in s.decided ==> Rightful(c, s, d) ==> Rightful(c, u, d);
        }
    }
  }

  lemma {:induction false} ExecutionInvariant(c: Config, steps: seq<Step>)
    requires ValidConfig(c)
    ensures Invariant(c, Execution(c, steps))
    decreases |steps|
  {
    if steps != [] {
      ExecutionInvariant(c, steps[..|steps| - 1]);
      TakeKeepsInvariant(c, Execution(c, steps[..|steps| - 1]), steps[|steps| - 1]);
    }
  }

  // Whatever the interleaving: what ran is part of what was decided, with every
  // decision in exactly one place, so nothing runs twice; and when no vote is on
  // its way, exactly what was decided has run.
  lemma ExactlyOnce(c: Config, steps: seq<Step>)
    requires ValidConfig(c)
    ensures var s := Execution(c, steps);
            && multiset(s.inFlight) + multiset(s.ran) == multiset(s.decided)
            && (forall i, j :: 0 <= i < j < |s.ran| ==> s.ran[i].id != s.ran[j].id)
            && (s.inFlight == [] ==> multiset(s.ran) == multiset(s.decided))
            && (s.inFlight == [] ==> forall id :: id in s.table.proposals && s.table.proposals[id].state == Executed ==>
                  exists d :: d in s.ran && d.id == id)
  {
    var s := Execution(c, steps);
    ExecutionInvariant(c, steps);
    DistinctIdsBound(s.decided);
    Shared(s.inFlight, s.ran, s.decided);
    forall i, j | 0 <= i < j < |s.ran|
      ensures s.ran[i].id != s.ran[j].id
    {
      assert s.ran[i] in s.ran && s.ran[j] in s.ran;
      if s.ran[i].id == s.ran[j].id {
        RanTwice(s.ran, i, j);
      }
    }
  }

  lemma {:induction false} DistinctIdsBound(ds: seq<Decision>)
    requires forall i, j :: 0 <= i < j < |ds| ==> ds[i].id != ds[j].id
    ensures forall d :: multiset(ds)[d] <= 1
    ensures forall d, e :: d in ds && e in ds && d.id == e.id ==> d == e
    decreases |ds|
  {
    if ds != [] {
      DistinctIdsBound(ds[..|ds| - 1]);
      assert ds == ds[..|ds| - 1] + [ds[|ds| - 1]];
    }
  }

  lemma RanTwice(ds: seq<Decision>, i: nat, j: nat)
    requires i < j < |ds| && ds[i] == ds[j]
    ensures multiset(ds)[ds[i]] >= 2
  {
    assert ds == ds[..j] + ([ds[j]] + ds[j + 1..]);
    assert ds[i] in ds[..j];
  }

  // The calls of hold in a run, in order.
  function Holdings(steps: seq<Step>): seq<Event> {
    if steps == [] then [] else
      var last := steps[|steps| - 1];
      Holdings(steps[..|steps| - 1]) + (if last.Lock? && last.e.Holding? then [last.e] else [])
  }

  // What is held is what was proposed, number for number.
  lemma {:induction false} HeldIsWhatWasProposed(c: Config, steps: seq<Step>)
    ensures var s, hs := Execution(c, steps), Holdings(steps);
            && |s.held| == |hs| == s.table.next
            && forall k :: 0 <= k < |hs| ==>
                 hs[k].Holding? && s.held[k] == Proposal(k + 1, hs[k].who, hs[k].data, hs[k].at, [], [], Pending)
    decreases |steps|
  {
    if steps != [] {
      HeldIsWhatWasProposed(c, steps[..|steps| - 1]);
    }
  }

  lemma ApprovalsOfStep(c: Config, t: Table, e: Event, id: int, v: string)
    requires ValidConfig(c) && SoundTable(c, t)
    requires id in Next(c, t, e).proposals && v in Next(c, t, e).proposals[id].approved
    ensures id in t.proposals
    ensures v in t.proposals[id].approved || IsApproval(Lock(e), v, id, t.proposals[id].created + PROPOSAL_TTL)
  {
  }

  // v counts as an approver of proposal id, in the table or in a decision.
  ghost predicate CountsAsApprover(s: System, id: int, v: string) {
    || (id in s.table.proposals && v in s.table.proposals[id].approved)
    || (exists d :: d in s.decided && d.id == id && v in d.approved)
  }

  lemma ApproversOfTake(c: Config, s: System, step: Step, id: int, v: string)
    requires ValidConfig(c) && Invariant(c, s) && CountsAsApprover(Take(c, s, step), id, v)
    ensures 1 <= id <= |s.held|
    ensures CountsAsApprover(s, id, v) || IsApproval(step, v, id, s.held[id - 1].created + PROPOSAL_TTL)
  {
    if step.Lock? {
      var u := Next(c, s.table, step.e);
      if DecisionOf(c, s.table, step.e) != [] {
        DecisionIsRightful(c, s, step.e);
      }
      if id in u.proposals && v in u.proposals[id].approved {
        ApprovalsOfStep(c, s.table, step.e, id, v);
      }
    }
    assert forall d :: d in s.decided ==> Rightful(c, s, d);
  }

  // Nobody is counted as an approver who did not approve in time.
  lemma {:induction false} ApprovalsWereCast(c: Config, steps: seq<Step>, id: int, v: string)
    requires ValidConfig(c) && CountsAsApprover(Execution(c, steps), id, v)
    ensures 1 <= id <= |Execution(c, steps).held|
    ensures Approved(steps, v, id, Execution(c, steps).held[id - 1].created + PROPOSAL_TTL)
    decreases |steps|
  {
    if steps != [] {
      var front, last := steps[..|steps| - 1], steps[|steps| - 1];
      var s := Execution(c, front);
      ExecutionInvariant(c, front);
      ApproversOfTake(c, s, last, id, v);
      var deadline := s.held[id - 1].created + PROPOSAL_TTL;
      assert Execution(c, steps).held[id - 1] == s.held[id - 1];
      if IsApproval(last, v, id, deadline) {
        assert IsApproval(steps[|steps| - 1], v, id, deadline);
      } else {
        ApprovalsWereCast(c, front, id, v);
        var i :| 0 <= i < |front| && IsApproval(front[i], v, id, deadline);
        assert IsApproval(steps[i], v, id, deadline);
      }
    }
  }

  // Every decision was made at some step.
  lemma {:induction false} DecisionHasItsStep(c: Config, steps: seq<Step>, d: Decision) returns (j: nat)
    requires d in Execution(c, steps).decided
    ensures DecidedAt(c, steps, j, d)
    decreases |steps|
  {
    var front := steps[..|steps| - 1];
    if d in Execution(c, front).decided {
      j := DecisionHasItsStep(c, front, d);
      assert front[..j] == steps[..j];
    } else {
      j := |steps| - 1;
    }
  }

  // What was held stays on record.
  lemma {:induction false} HeldStays(c: Config, steps: seq<Step>, j: nat)
    requires j <= |steps|
    ensures Execution(c, steps[..j]).held <= Execution(c, steps).held
    decreases |steps|
  {
    if j == |steps| {
      assert steps[..j] == steps;
    } else {
      HeldStays(c, steps[..|steps| - 1], j);
      assert steps[..|steps| - 1][..j] == steps[..j];
    }
  }

  // The approvals a decision counts were all cast by the step that made it.
  lemma ApprovedBeforeDecided(c: Config, steps: seq<Step>, j: nat, d: Decision, v: string)
    requires ValidConfig(c) && DecidedAt(c, steps, j, d) && v in d.approved
    ensures 1 <= d.id <= |Execution(c, steps).held|
    ensures Approved(steps[..j + 1], v, d.id, Execution(c, steps).held[d.id - 1].created + PROPOSAL_TTL)
  {
    var upto := steps[..j + 1];
    assert upto[..|upto| - 1] == steps[..j];
    assert d in Execution(c, upto).decided;
    ApprovalsWereCast(c, upto, d.id, v);
    HeldStays(c, steps, j + 1);
  }

  // The approvals that d counts, cast by the step that made it and in time.
  ghost predicate DulyDecided(c: Config, steps: seq<Step>, d: Decision, deadline: int) {
    exists j :: DecidedAt(c, steps, j, d) && forall v :: v in d.approved ==> Approved(steps[..j + 1], v, d.id, deadline)
  }

  lemma RanDulyDecided(c: Config, steps: seq<Step>, r: Decision)
    requires ValidConfig(c) && r in Execution(c, steps).ran
    ensures var s := Execution(c, steps);
            && |s.held| == s.table.next && Rightful(c, s, r)
            && DulyDecided(c, steps, r, s.held[r.id - 1].created + PROPOSAL_TTL)
  {
    var s := Execution(c, steps);
    ExecutionInvariant(c, steps);
    Shared(s.inFlight, s.ran, s.decided);
    assert Rightful(c, s, r);
    var j := DecisionHasItsStep(c, steps, r);
    forall v | v in r.approved
      ensures Approved(steps[..j + 1], v, r.id, s.held[r.id - 1].created + PROPOSAL_TTL)
    {
      ApprovedBeforeDecided(c, steps, j, r, v);
    }
  }

  // Everything that ran has the bytes and the author of exactly one proposal,
  // and was decided at one step of the run, before its time was up: by then a
  // quorum of approvers, none of them supervised, had approved it in time.
  lemma OnlyApprovedInputRuns(c: Config, steps: seq<Step>, r: Decision)
    requires ValidConfig(c) && r in Execution(c, steps).ran
    ensures var hs := Holdings(steps);
            && 1 <= r.id <= |hs|
            && hs[r.id - 1].Holding? && hs[r.id - 1].who == r.who && hs[r.id - 1].data == r.data
            && r.at - hs[r.id - 1].at <= PROPOSAL_TTL
            && DulyDecided(c, steps, r, hs[r.id - 1].at + PROPOSAL_TTL)
    ensures |Elements(r.approved)| == |r.approved| == c.quorum
    ensures forall v :: v in r.approved ==> v in c.approvers && v !in c.supervised
  {
    RanDulyDecided(c, steps, r);
    HeldIsWhatWasProposed(c, steps);
    NoDupCardinality(r.approved);
  }
}
