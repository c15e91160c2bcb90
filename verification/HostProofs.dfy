// End-to-end input safety of a local session, over every run.
module HostProofs {
  import opened Common
  import SessionSpec
  import opened HostSpec
  import M = MultisigSpec
  import Y = MultisigSystem

  // The frames that were written directly, and the decisions that were executed,
  // in the order they were applied.
  function Directs(log: seq<Applied>): seq<nat> {
    if log == [] then [] else
      var last := log[|log| - 1];
      Directs(log[..|log| - 1]) + (if last.cause.Direct? then [last.cause.frame] else [])
  }

  function Votes(log: seq<Applied>): seq<Y.Decision> {
    if log == [] then [] else
      var last := log[|log| - 1];
      Votes(log[..|log| - 1]) + (if last.cause.ByVote? then [last.cause.decision] else [])
  }

  function Upto(n: nat): seq<nat> {
    if n == 0 then [] else Upto(n - 1) + [n - 1]
  }

  ghost predicate Justified(c: Option<M.Config>, frames: seq<Frame>, a: Applied) {
    match a.cause
    case Direct(f) =>
      f < |frames| && frames[f].who == a.who && frames[f].data == a.data && !Supervises(c, a.who)
    case ByVote(d) => a.who == d.who && a.data == d.data
    case Keyboard => a.who == "host"
  }

  // Each proposal was made of one frame of a supervised guest.
  ghost predicate MadeOf(c: Option<M.Config>, frames: seq<Frame>, origin: seq<nat>, held: seq<M.Proposal>) {
    && |origin| == |held|
    && forall k :: 0 <= k < |origin| ==>
         && origin[k] < |frames|
         && frames[origin[k]].who == held[k].who && frames[origin[k]].data == held[k].data
         && Supervises(c, held[k].who)
  }

  // Every frame is in exactly one place: waiting to be written, made into a
  // proposal, or written.
  ghost predicate Conserved(tasks: seq<nat>, origin: seq<nat>, direct: seq<nat>, frames: nat) {
    && multiset(tasks) + multiset(origin) + multiset(direct) == multiset(Upto(frames))
    && forall k :: 0 <= k < |tasks| ==> tasks[k] < frames
  }

  ghost predicate AllJustified(c: Option<M.Config>, frames: seq<Frame>, log: seq<Applied>) {
    forall k :: 0 <= k < |log| ==> Justified(c, frames, log[k])
  }

  ghost predicate Logged(w: World, ran: seq<Y.Decision>) {
    Votes(w.audit) == ran
  }

  // What is audited is written or on its way.
  ghost predicate Flows(w: World) {
    multiset(w.pty) + multiset(w.underway) == multiset(w.audit)
  }

  ghost predicate Invariant(c: Option<M.Config>, w: World) {
    && Conserved(w.tasks, w.origin, Directs(w.audit), |w.frames|)
    && MadeOf(c, w.frames, w.origin, w.sys.held)
    && AllJustified(c, w.frames, w.audit)
    && Logged(w, w.sys.ran) && Flows(w) && |w.callers| == |w.sys.inFlight|
    && (c.None? ==> w.sys == Y.START && w.trace == [])
    && (c.Some? ==> w.sys == Y.Execution(c.value, w.trace))
  }

  // One more thing done to the multisig.
  lemma TraceStep(c: M.Config, trace: seq<Y.Step>, s: Y.Step)
    ensures Y.Execution(c, trace + [s]) == Y.Take(c, Y.Execution(c, trace), s)
  {
    assert (trace + [s])[..|trace + [s]| - 1] == trace;
  }

  lemma AuditStep(c: Option<M.Config>, w: World, a: Applied)
    requires AllJustified(c, w.frames, w.audit) && Flows(w) && Justified(c, w.frames, a)
    ensures var v := Audited(w, a);
            && AllJustified(c, v.frames, v.audit) && Flows(v)
            && Directs(v.audit) == Directs(w.audit) + (if a.cause.Direct? then [a.cause.frame] else [])
            && Votes(v.audit) == Votes(w.audit) + (if a.cause.ByVote? then [a.cause.decision] else [])
  {
    var v := Audited(w, a);
    assert v.audit[..|v.audit| - 1] == w.audit;
  }

  // Cutting one element out leaves the others.
  lemma CutCounts<T>(s: seq<T>, i: nat)
    requires i < |s|
    ensures multiset(s[..i] + s[i + 1..]) + multiset{s[i]} == multiset(s)
  {
    assert s == s[..i] + ([s[i]] + s[i + 1..]);
  }

  lemma NewTask(tasks: seq<nat>, origin: seq<nat>, direct: seq<nat>, frames: nat)
    requires Conserved(tasks, origin, direct, frames)
    ensures Conserved(tasks + [frames], origin, direct, frames + 1)
  {
    assert Upto(frames + 1) == Upto(frames) + [frames];
  }

  lemma NewFrame(c: Option<M.Config>, w: World, held: seq<M.Proposal>, frame: Frame)
    requires Conserved(w.tasks, w.origin, Directs(w.audit), |w.frames|)
    requires MadeOf(c, w.frames, w.origin, held) && AllJustified(c, w.frames, w.audit)
    ensures Conserved(w.tasks + [|w.frames|], w.origin, Directs(w.audit), |w.frames| + 1)
    ensures MadeOf(c, w.frames + [frame], w.origin, held) && AllJustified(c, w.frames + [frame], w.audit)
  {
    NewTask(w.tasks, w.origin, Directs(w.audit), |w.frames|);
    forall k | 0 <= k < |w.audit|
      ensures Justified(c, w.frames + [frame], w.audit[k])
    {
      assert Justified(c, w.frames, w.audit[k]);
    }
  }

  lemma TakeTask(tasks: seq<nat>, origin: seq<nat>, direct: seq<nat>, frames: nat, i: nat)
    requires Conserved(tasks, origin, direct, frames) && i < |tasks|
    ensures Conserved(tasks[..i] + tasks[i + 1..], origin + [tasks[i]], direct, frames)
    ensures Conserved(tasks[..i] + tasks[i + 1..], origin, direct + [tasks[i]], frames)
  {
    var rest := tasks[..i] + tasks[i + 1..];
    assert tasks == tasks[..i] + ([tasks[i]] + tasks[i + 1..]);
    assert multiset(tasks) == multiset(rest) + multiset{tasks[i]};
    assert forall k :: 0 <= k < |rest| ==> rest[k] == tasks[if k < i then k else k + 1];
  }

  lemma FrameKeeps(c: Option<M.Config>, w: World, frame: Frame)
    requires Invariant(c, w)
    ensures Invariant(c, w.(frames := w.frames + [frame], tasks := w.tasks + [|w.frames|]))
  {
    NewFrame(c, w, w.sys.held, frame);
  }

  lemma HandleKeeps(c: Option<M.Config>, w: World, guest: nat, data: seq<Byte>)
    requires Invariant(c, w)
    ensures Invariant(c, Handled(w, guest, data))
  {
    if Handled(w, guest, data) != w {
      var frame := Frame(guest, Person(w, guest).value.name, data);
      FrameKeeps(c, w, frame);
      assert Handled(w, guest, data) == w.(frames := w.frames + [frame], tasks := w.tasks + [|w.frames|]);
    }
  }

  lemma LockKeeps(c: Option<M.Config>, w: World, writer: Writer, e: M.Event)
    requires Invariant(c, w) && !e.Holding?
    ensures Invariant(c, Voted(c, w, writer, e))
  {
    if c.Some? {
      TraceStep(c.value, w.trace, Y.Lock(e));
      assert w.sys.held + [] == w.sys.held;
    }
  }

  lemma ListKeeps(c: Option<M.Config>, w: World, at: int)
    requires Invariant(c, w)
    ensures Invariant(c, Advance(c, w, Y.Lock(M.Listing(at))))
  {
    if c.Some? {
      TraceStep(c.value, w.trace, Y.Lock(M.Listing(at)));
      assert w.sys.held + [] == w.sys.held;
    }
  }

  lemma ActKeeps(c: Option<M.Config>, w: World, i: nat)
    requires Invariant(c, w)
    ensures Invariant(c, Acted(c, w, i))
  {
    if i < |w.sys.inFlight| {
      var d := w.sys.inFlight[i];
      TraceStep(c.value, w.trace, Y.Act(i));
      AuditStep(c, w, Applied(w.callers[i], d.who, d.data, ByVote(d)));
      assert Directs(w.audit) + [] == Directs(w.audit);
    }
  }

  lemma HoldKeeps(c: Option<M.Config>, w: World, i: nat, sweepAt: int, at: int)
    requires Invariant(c, w) && i < |w.tasks| && w.tasks[i] < |w.frames|
    requires Supervises(c, w.frames[w.tasks[i]].who)
    ensures Invariant(c, Written(c, w, i, sweepAt, at))
  {
    var f := w.tasks[i];
    var e := M.Holding(w.frames[f].who, w.frames[f].data, sweepAt, at);
    TakeTask(w.tasks, w.origin, Directs(w.audit), |w.frames|, i);
    TraceStep(c.value, w.trace, Y.Lock(e));
    assert Y.Take(c.value, w.sys, Y.Lock(e)).ran == w.sys.ran;
    assert MadeOf(c, w.frames, w.origin + [f], w.sys.held + Y.HeldBy(w.sys.table, e));
  }

  lemma PassKeeps(c: Option<M.Config>, w: World, i: nat, sweepAt: int, at: int)
    requires Invariant(c, w) && i < |w.tasks| && w.tasks[i] < |w.frames|
    requires !Supervises(c, w.frames[w.tasks[i]].who)
    ensures Invariant(c, Written(c, w, i, sweepAt, at))
  {
    var f := w.tasks[i];
    TakeTask(w.tasks, w.origin, Directs(w.audit), |w.frames|, i);
    var v := w.(tasks := w.tasks[..i] + w.tasks[i + 1..]);
    var a := Applied(Connection(w.frames[f].guest), w.frames[f].who, w.frames[f].data, Direct(f));
    AuditStep(c, v, a);
    assert Votes(Audited(v, a).audit) == Votes(w.audit);
    assert Written(c, w, i, sweepAt, at) == Audited(v, a);
  }

  lemma TypeKeeps(c: Option<M.Config>, w: World, data: seq<Byte>)
    requires Invariant(c, w)
    ensures Invariant(c, Typed(w, data))
  {
    var a := Applied(Keys, "host", data, Keyboard);
    AuditStep(c, w, a);
    assert Votes(Audited(w, a).audit) == Votes(w.audit) && Directs(Audited(w, a).audit) == Directs(w.audit);
  }

  lemma EmitKeeps(c: Option<M.Config>, w: World, i: nat)
    requires Invariant(c, w)
    ensures Invariant(c, Emitted(w, i))
  {
    if i < |w.underway| {
      CutCounts(w.underway, i);
    }
  }

  lemma WriteKeeps(c: Option<M.Config>, w: World, i: nat, sweepAt: int, at: int)
    requires Invariant(c, w)
    ensures Invariant(c, Written(c, w, i, sweepAt, at))
  {
    if i < |w.tasks| && w.tasks[i] < |w.frames| {
      if Supervises(c, w.frames[w.tasks[i]].who) {
        HoldKeeps(c, w, i, sweepAt, at);
      } else {
        PassKeeps(c, w, i, sweepAt, at);
      }
    }
  }

  // Guests coming, going and being allowed to write touch none of it.
  lemma GuestsKeep(c: Option<M.Config>, w: World, session: SessionSpec.Session, former: map<nat, SessionSpec.Member>)
    requires Invariant(c, w)
    ensures Invariant(c, w.(session := session, former := former))
  {
  }

  lemma VotesKeep(c: Option<M.Config>, w: World, step: Step)
    requires Invariant(c, w) && (step.GuestVote? || step.HostVote? || step.List?)
    ensures Invariant(c, Next(c, w, step))
  {
    match step {
      case GuestVote(guest, voter, op, number, at) =>
        if Next(c, w, step) != w {
          LockKeeps(c, w, Connection(guest), M.Voting(voter, op, Some(number), at));
        }
      case HostVote(call, op, id, at) => LockKeeps(c, w, Control(call), M.Voting("host", op, id, at));
      case List(at) => ListKeeps(c, w, at);
    }
  }

  lemma NextKeeps(c: Option<M.Config>, w: World, step: Step)
    requires Invariant(c, w)
    ensures Invariant(c, Next(c, w, step))
  {
    match step {
      case Guests(e) => GuestsKeep(c, w, SessionSpec.Next(w.session, e), Former(w, e));
      case Handle(guest, data) => HandleKeeps(c, w, guest, data);
      case Write(i, sweepAt, at) => WriteKeeps(c, w, i, sweepAt, at);
      case Act(i) => ActKeeps(c, w, i);
      case Type(data) => TypeKeeps(c, w, data);
      case Emit(i) => EmitKeeps(c, w, i);
      case _ => VotesKeep(c, w, step);
    }
  }

  lemma {:induction false} RunInvariant(c: Option<M.Config>, defaultWritable: bool, steps: seq<Step>)
    ensures Invariant(c, Run(c, defaultWritable, steps))
    decreases |steps|
  {
    if steps != [] {
      RunInvariant(c, defaultWritable, steps[..|steps| - 1]);
      NextKeeps(c, Run(c, defaultWritable, steps[..|steps| - 1]), steps[|steps| - 1]);
    }
  }

  // ----- where keystrokes come from

  // The frame was taken at step k of the run, its guest being writable then.
  ghost predicate TakenAt(c: Option<M.Config>, defaultWritable: bool, steps: seq<Step>, frame: Frame, k: nat) {
    && k < |steps| && steps[k] == Handle(frame.guest, frame.data)
    && var p := Person(Run(c, defaultWritable, steps[..k]), frame.guest);
       p.Some? && p.value.writable && p.value.name == frame.who
  }

  // It was taken at some step.
  ghost predicate WasTaken(c: Option<M.Config>, defaultWritable: bool, steps: seq<Step>, frame: Frame) {
    exists k: nat :: TakenAt(c, defaultWritable, steps, frame, k)
  }

  lemma TakenEarlier(c: Option<M.Config>, defaultWritable: bool, steps: seq<Step>, frame: Frame, k: nat)
    requires steps != [] && TakenAt(c, defaultWritable, steps[..|steps| - 1], frame, k)
    ensures TakenAt(c, defaultWritable, steps, frame, k)
  {
    assert steps[..|steps| - 1][..k] == steps[..k];
  }

  // Handling a frame of a writable guest, whose connection is at leisure, adds
  // that frame, and nothing else adds any.
  lemma FrameOfStep(c: Option<M.Config>, w: World, step: Step)
    ensures var v := Next(c, w, step);
            if step.Handle? && Person(w, step.guest).Some? && Person(w, step.guest).value.writable
               && Connection(step.guest) !in Busy(w)
            then v.frames == w.frames + [Frame(step.guest, Person(w, step.guest).value.name, step.data)]
                 && v.tasks == w.tasks + [|w.frames|]
            else v.frames == w.frames
  {
  }

  lemma {:induction false} FramesWereWritable(c: Option<M.Config>, defaultWritable: bool, steps: seq<Step>, f: nat)
    requires f < |Run(c, defaultWritable, steps).frames|
    ensures WasTaken(c, defaultWritable, steps, Run(c, defaultWritable, steps).frames[f])
    decreases |steps|
  {
    var front, last := steps[..|steps| - 1], steps[|steps| - 1];
    var w := Run(c, defaultWritable, front);
    FrameOfStep(c, w, last);
    var frame := Run(c, defaultWritable, steps).frames[f];
    if f < |w.frames| {
      FramesWereWritable(c, defaultWritable, front, f);
      var k: nat :| TakenAt(c, defaultWritable, front, frame, k);
      TakenEarlier(c, defaultWritable, steps, frame, k);
    } else {
      assert TakenAt(c, defaultWritable, steps, frame, |steps| - 1);
    }
  }

  // ----- where votes come from

  // Event e is the vote cast at step k: by a guest, under the name it is connected
  // by, which is also the voter named in the vote; or by the host.
  ghost predicate CastAt(c: Option<M.Config>, defaultWritable: bool, steps: seq<Step>, e: M.Event, k: nat) {
    && k < |steps| && e.Voting?
    && match steps[k]
       case GuestVote(guest, voter, op, number, at) =>
         var p := Person(Run(c, defaultWritable, steps[..k]), guest);
         p.Some? && p.value.name == e.voter && voter == e.voter && e.op == op && e.id == Some(number) && e.at == at
       case HostVote(_, op, id, at) => e.voter == "host" && e.op == op && e.id == id && e.at == at
       case _ => false
  }

  ghost predicate WasCast(c: Option<M.Config>, defaultWritable: bool, steps: seq<Step>, e: M.Event) {
    exists k: nat :: CastAt(c, defaultWritable, steps, e, k)
  }

  // What a step does to the multisig, if anything.
  lemma TraceOfStep(c: Option<M.Config>, w: World, step: Step)
    ensures var v := Next(c, w, step);
            || v.trace == w.trace
            || (|v.trace| == |w.trace| + 1 && v.trace[..|w.trace|] == w.trace
                && match v.trace[|w.trace|]
                   case Act(_) => step.Act?
                   case Lock(Holding(_, _, _, _)) => step.Write?
                   case Lock(Listing(_)) => step.List?
                   case Lock(Voting(voter, op, id, at)) =>
                     match step
                     case GuestVote(guest, named, o, number, t) =>
                       Person(w, guest).Some? && Person(w, guest).value.name == voter && named == voter
                       && o == op && id == Some(number) && t == at
                     case HostVote(_, o, i, t) => voter == "host" && o == op && i == id && t == at
                     case _ => false)
  {
  }

  // Every vote the multisig sees was cast by the one in whose name it counts.
  lemma {:induction false} EveryVoteIsGenuine(c: Option<M.Config>, defaultWritable: bool, steps: seq<Step>, j: nat)
    requires j < |Run(c, defaultWritable, steps).trace|
    requires Run(c, defaultWritable, steps).trace[j].Lock? && Run(c, defaultWritable, steps).trace[j].e.Voting?
    ensures WasCast(c, defaultWritable, steps, Run(c, defaultWritable, steps).trace[j].e)
    decreases |steps|
  {
    var front, last := steps[..|steps| - 1], steps[|steps| - 1];
    var w := Run(c, defaultWritable, front);
    TraceOfStep(c, w, last);
    var e := Run(c, defaultWritable, steps).trace[j].e;
    if j < |w.trace| {
      assert Run(c, defaultWritable, steps).trace[..|w.trace|][j] == w.trace[j];
      EveryVoteIsGenuine(c, defaultWritable, front, j);
      var k: nat :| CastAt(c, defaultWritable, front, e, k);
      assert front[..k] == steps[..k];
      assert CastAt(c, defaultWritable, steps, e, k);
    } else {
      assert CastAt(c, defaultWritable, steps, e, |steps| - 1);
    }
  }

  // ----- what the steps that write do

  // writeInput holds a supervised guest's keystrokes and audits all others', and
  // does nothing else.
  lemma WriteIs(c: Option<M.Config>, w: World, i: nat, sweepAt: int, at: int)
    requires Invariant(c, w) && i < |w.tasks|
    ensures w.tasks[i] < |w.frames|
    ensures var f, v := w.tasks[i], Next(c, w, Write(i, sweepAt, at));
            var frame, a := w.frames[f], Applied(Connection(w.frames[f].guest), w.frames[f].who, w.frames[f].data, Direct(f));
            && v.tasks == w.tasks[..i] + w.tasks[i + 1..]
            && (if Supervises(c, frame.who) then
                  && v.trace == w.trace + [Y.Lock(M.Holding(frame.who, frame.data, sweepAt, at))]
                  && v.sys.held == w.sys.held + [M.Proposal(w.sys.table.next + 1, frame.who, frame.data, at, [], [], M.Pending)]
                  && v.audit == w.audit && v.underway == w.underway && v.pty == w.pty
                else
                  && v.sys == w.sys && v.trace == w.trace
                  && v.audit == w.audit + [a] && v.underway == w.underway + [a] && v.pty == w.pty)
  {
  }

  // A decision on its way is audited with the bytes and the author it decided on.
  lemma ActIs(c: Option<M.Config>, w: World, i: nat)
    requires Invariant(c, w) && i < |w.sys.inFlight|
    ensures var d, v := w.sys.inFlight[i], Next(c, w, Act(i));
            && v.sys.ran == w.sys.ran + [d] && v.sys.table == w.sys.table
            && v.audit == w.audit + [Applied(w.callers[i], d.who, d.data, ByVote(d))] && v.pty == w.pty
  {
  }

  // A guest that is kicked, or whose connection fails, or that the closing of the
  // session takes off the list, is handled as it was for as long as its frames
  // come in.
  lemma DepartedStayAsTheyWere(c: Option<M.Config>, w: World, e: SessionSpec.Event, guest: nat)
    requires SessionSpec.Sound(w.session) && (e.Leave? || e.CloseAll?) && Person(w, guest).Some?
    ensures Person(Next(c, w, Guests(e)), guest) == Person(w, guest)
  {
    if e.Leave? && e.id != guest {
      SessionSpec.OthersFound(w.session.members, e.id, guest);
    } else if e.Leave? {
      SessionSpec.LeftIs(w.session.members, guest);
    }
  }

  lemma {:induction false} VotesMember(log: seq<Applied>, j: nat)
    requires j < |log| && log[j].cause.ByVote?
    ensures log[j].cause.decision in Votes(log)
    decreases |log|
  {
    if j < |log| - 1 {
      VotesMember(log[..|log| - 1], j);
    }
  }

  // The frame behind a write.
  function Source(w: World, a: Applied): Option<nat> {
    match a.cause
    case Direct(f) => Some(f)
    case ByVote(d) => if 1 <= d.id <= |w.origin| then Some(w.origin[d.id - 1]) else None
    case Keyboard => None
  }

  // Why an entry is there. Keystrokes of a guest that is not supervised come from
  // a frame under that name. Keystrokes of a supervised one come from such a frame
  // too, but only by way of a proposal decided before its time was up, by a quorum
  // of approvers, none of them supervised, who had approved it in time and by
  // then.
  ghost predicate Rightful(c: Option<M.Config>, w: World, a: Applied) {
    match a.cause
    case Keyboard => a.who == "host"
    case Direct(f) =>
      !Supervises(c, a.who) && f < |w.frames| && w.frames[f].who == a.who && w.frames[f].data == a.data
    case ByVote(d) => RightfulVote(c, w, a, d)
  }

  ghost predicate RightfulVote(c: Option<M.Config>, w: World, a: Applied, d: Y.Decision) {
    && Supervises(c, a.who)
    && 1 <= d.id <= |w.origin| && w.origin[d.id - 1] < |w.frames| && d.id <= |w.sys.held|
    && w.frames[w.origin[d.id - 1]].who == a.who && w.frames[w.origin[d.id - 1]].data == a.data
    && |Elements(d.approved)| == c.value.quorum
    && (forall v :: v in d.approved ==> v in c.value.approvers && !Supervises(c, v))
    && (var deadline := w.sys.held[d.id - 1].created + M.PROPOSAL_TTL;
        d.at <= deadline && Y.DulyDecided(c.value, w.trace, d, deadline))
  }

  lemma VoteRan(c: Option<M.Config>, w: World, a: Applied)
    requires Invariant(c, w) && a in w.audit && a.cause.ByVote?
    ensures c.Some? && a.cause.decision in w.sys.ran && a.who == a.cause.decision.who && a.data == a.cause.decision.data
  {
    var i :| 0 <= i < |w.audit| && w.audit[i] == a;
    assert Justified(c, w.frames, w.audit[i]);
    VotesMember(w.audit, i);
  }

  lemma VoteIsRightful(c: Option<M.Config>, w: World, a: Applied)
    requires (c.Some? ==> M.ValidConfig(c.value)) && Invariant(c, w)
    requires a in w.audit && a.cause.ByVote?
    ensures RightfulVote(c, w, a, a.cause.decision)
  {
    var d := a.cause.decision;
    VoteRan(c, w, a);
    Y.RanDulyDecided(c.value, w.trace, d);
    NoDupCardinality(d.approved);
    assert MadeOf(c, w.frames, w.origin, w.sys.held);
  }

  lemma EntryIsRightful(c: Option<M.Config>, w: World, a: Applied)
    requires (c.Some? ==> M.ValidConfig(c.value)) && Invariant(c, w)
    requires a in w.pty || a in w.audit
    ensures Rightful(c, w, a)
  {
    Shared(w.pty, w.underway, w.audit);
    var i :| 0 <= i < |w.audit| && w.audit[i] == a;
    assert Justified(c, w.frames, w.audit[i]);
    if a.cause.ByVote? {
      VoteIsRightful(c, w, a);
    }
  }

  // The frame behind an entry, with the entry's name and bytes.
  ghost predicate SourceFits(w: World, a: Applied) {
    match Source(w, a)
    case Some(f) => f < |w.frames| && w.frames[f].who == a.who && w.frames[f].data == a.data
    case None => a.cause.Keyboard?
  }

  lemma RightfulFits(c: Option<M.Config>, w: World, a: Applied)
    requires Rightful(c, w, a)
    ensures SourceFits(w, a)
  {
  }

  // Everything that is audited, and so everything that reaches the PTY, is
  // accounted for: it is rightful, and the frame behind it was taken when its
  // guest, under its name, was writable.
  lemma EveryWriteIsAccountedFor(c: Option<M.Config>, defaultWritable: bool, steps: seq<Step>, a: Applied)
    requires c.Some? ==> M.ValidConfig(c.value)
    requires var w := Run(c, defaultWritable, steps); a in w.pty || a in w.audit
    ensures var w := Run(c, defaultWritable, steps);
            && Rightful(c, w, a) && SourceFits(w, a)
            && (Source(w, a).Some? ==> WasTaken(c, defaultWritable, steps, w.frames[Source(w, a).value]))
  {
    var w := Run(c, defaultWritable, steps);
    RunInvariant(c, defaultWritable, steps);
    EntryIsRightful(c, w, a);
    RightfulFits(c, w, a);
    if Source(w, a).Some? {
      FramesWereWritable(c, defaultWritable, steps, Source(w, a).value);
    }
  }

  // ----- no frame is applied twice

  lemma {:induction false} UptoCount(n: nat, f: nat)
    ensures multiset(Upto(n))[f] == if f < n then 1 else 0
  {
    if n > 0 {
      UptoCount(n - 1, f);
    }
  }

  lemma {:induction false} DirectCount(log: seq<Applied>, i: nat, j: nat)
    requires i <= j < |log| && log[i].cause == log[j].cause && log[i].cause.Direct?
    ensures multiset(Directs(log))[log[i].cause.frame] >= if i < j then 2 else 1
    decreases |log|
  {
    var front := log[..|log| - 1];
    if j < |log| - 1 {
      DirectCount(front, i, j);
    } else if i < j {
      DirectCount(front, i, i);
    }
  }

  lemma {:induction false} VoteOrder(log: seq<Applied>, i: nat, j: nat)
    requires i < j < |log| && log[i].cause.ByVote? && log[j].cause.ByVote?
    ensures exists m, n :: 0 <= m < n < |Votes(log)|
              && Votes(log)[m] == log[i].cause.decision && Votes(log)[n] == log[j].cause.decision
    decreases |log|
  {
    var front := log[..|log| - 1];
    if j < |log| - 1 {
      VoteOrder(front, i, j);
      var m, n :| 0 <= m < n < |Votes(front)|
              && Votes(front)[m] == log[i].cause.decision && Votes(front)[n] == log[j].cause.decision;
      assert Votes(log)[m] == log[i].cause.decision && Votes(log)[n] == log[j].cause.decision;
    } else {
      VotesMember(front, i);
      var m :| 0 <= m < |Votes(front)| && Votes(front)[m] == log[i].cause.decision;
      assert Votes(log)[m] == log[i].cause.decision && Votes(log)[|Votes(front)|] == log[j].cause.decision;
    }
  }

  lemma TwiceCounts(s: seq<nat>, i: nat, j: nat)
    requires i < |s| && j < |s| && s[i] == s[j]
    ensures multiset(s)[s[i]] >= if i != j then 2 else 1
  {
    var a, b := if i < j then i else j, if i < j then j else i;
    if a < b {
      assert s == s[..b] + ([s[b]] + s[b + 1..]);
      assert s[..b][a] == s[a];
    } else {
      assert s[i] in multiset(s);
    }
  }

  lemma OnePlaceOnly(w: World, f: nat)
    requires Conserved(w.tasks, w.origin, Directs(w.audit), |w.frames|)
    ensures multiset(w.origin)[f] + multiset(Directs(w.audit))[f] <= 1
  {
    UptoCount(|w.frames|, f);
    assert (multiset(w.tasks) + multiset(w.origin) + multiset(Directs(w.audit)))[f] == multiset(Upto(|w.frames|))[f];
  }

  lemma VotedIdsDiffer(c: Option<M.Config>, w: World, i: nat, j: nat)
    requires (c.Some? ==> M.ValidConfig(c.value)) && Invariant(c, w)
    requires i < j < |w.audit| && w.audit[i].cause.ByVote? && w.audit[j].cause.ByVote?
    ensures w.audit[i].cause.decision.id != w.audit[j].cause.decision.id
  {
    VoteOrder(w.audit, i, j);
    if c.Some? {
      Y.ExactlyOnce(c.value, w.trace);
    }
  }

  // A source is in the place its write says.
  lemma SourceCounts(w: World, j: nat)
    requires j < |w.audit|
    ensures w.audit[j].cause.Direct? ==> multiset(Directs(w.audit))[w.audit[j].cause.frame] >= 1
    ensures w.audit[j].cause.ByVote? && Source(w, w.audit[j]).Some? ==> multiset(w.origin)[Source(w, w.audit[j]).value] >= 1
  {
    if w.audit[j].cause.Direct? {
      DirectCount(w.audit, j, j);
    } else if w.audit[j].cause.ByVote? && Source(w, w.audit[j]).Some? {
      TwiceCounts(w.origin, w.audit[j].cause.decision.id - 1, w.audit[j].cause.decision.id - 1);
    }
  }

  // Two writes that share a source would put it in two places.
  lemma SourcesDiffer(w: World, i: nat, j: nat)
    requires i < j < |w.audit| && Source(w, w.audit[i]).Some?
    requires Conserved(w.tasks, w.origin, Directs(w.audit), |w.frames|)
    requires w.audit[i].cause.ByVote? && w.audit[j].cause.ByVote? ==>
      w.audit[i].cause.decision.id != w.audit[j].cause.decision.id
    ensures Source(w, w.audit[i]) != Source(w, w.audit[j])
  {
    var p, q := w.audit[i].cause, w.audit[j].cause;
    SourceCounts(w, i);
    SourceCounts(w, j);
    OnePlaceOnly(w, Source(w, w.audit[i]).value);
    if p.Direct? && p == q {
      DirectCount(w.audit, i, j);
    } else if p.ByVote? && q.ByVote? && Source(w, w.audit[i]) == Source(w, w.audit[j]) {
      TwiceCounts(w.origin, p.decision.id - 1, q.decision.id - 1);
    }
  }

  lemma NoFrameAuditedTwice(c: Option<M.Config>, w: World, i: nat, j: nat)
    requires (c.Some? ==> M.ValidConfig(c.value)) && Invariant(c, w)
    requires i < j < |w.audit| && Source(w, w.audit[i]).Some?
    ensures Source(w, w.audit[i]) != Source(w, w.audit[j])
  {
    if w.audit[i].cause.ByVote? && w.audit[j].cause.ByVote? {
      VotedIdsDiffer(c, w, i, j);
    }
    SourcesDiffer(w, i, j);
  }

  // Two places of a part are two places of the whole.
  lemma TwoPlaces<T>(part: seq<T>, rest: seq<T>, whole: seq<T>, i: nat, j: nat) returns (a: nat, b: nat)
    requires multiset(part) + multiset(rest) == multiset(whole) && i < j < |part|
    ensures a < |whole| && b < |whole| && a != b && whole[a] == part[i] && whole[b] == part[j]
  {
    Shared(part, rest, whole);
    assert part[i] in part && part[j] in part;
    a :| 0 <= a < |whole| && whole[a] == part[i];
    if part[i] != part[j] {
      b :| 0 <= b < |whole| && whole[b] == part[j];
    } else {
      TwiceIn(part, i, j);
      assert multiset(whole)[part[i]] == multiset(part)[part[i]] + multiset(rest)[part[i]];
      CutCounts(whole, a);
      assert part[i] in multiset(whole[..a] + whole[a + 1..]);
      var k :| 0 <= k < |whole| - 1 && (whole[..a] + whole[a + 1..])[k] == part[i];
      b := if k < a then k else k + 1;
    }
  }

  lemma TwiceIn<T>(s: seq<T>, i: nat, j: nat)
    requires i < j < |s| && s[i] == s[j]
    ensures multiset(s)[s[i]] >= 2
  {
    CutCounts(s, j);
    assert (s[..j] + s[j + 1..])[i] == s[i];
  }

  // Each frame's keystrokes reach the PTY at most once, by whatever way.
  lemma NoFrameTwice(c: Option<M.Config>, defaultWritable: bool, steps: seq<Step>, i: nat, j: nat)
    requires c.Some? ==> M.ValidConfig(c.value)
    requires i < j < |Run(c, defaultWritable, steps).pty|
    requires Source(Run(c, defaultWritable, steps), Run(c, defaultWritable, steps).pty[i]).Some?
    ensures var w := Run(c, defaultWritable, steps); Source(w, w.pty[i]) != Source(w, w.pty[j])
  {
    var w := Run(c, defaultWritable, steps);
    RunInvariant(c, defaultWritable, steps);
    var a, b := TwoPlaces(w.pty, w.underway, w.audit, i, j);
    if a < b {
      NoFrameAuditedTwice(c, w, a, b);
    } else if Source(w, w.pty[j]).Some? {
      NoFrameAuditedTwice(c, w, b, a);
    }
  }
}
