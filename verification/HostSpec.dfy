// A local session end to end: guests' frames, the permission they are checked
// against, the multisig behind it, and the one place where keystrokes reach the
// PTY and the audit trail. Handling a frame reads the permission under the
// registry's lock and writes after unlocking, so the two are separate steps, as
// are a vote's decision and its execution, and the audit entry and the write to
// the PTY. Everything else may happen in between.
module HostSpec {
  import opened Common
  import opened SessionSpec
  import M = MultisigSpec
  import Y = MultisigSystem

  // A frame of keystrokes whose guest was found writable.
  datatype Frame = Frame(guest: nat, who: string, data: seq<Byte>)

  // Why keystrokes were applied: a frame directly, a decision of the approvers,
  // or the host's own keyboard.
  datatype Cause = Direct(frame: nat) | ByVote(decision: Y.Decision) | Keyboard

  // The goroutine that applies them: the one of a guest's connection, of a
  // control call, or of the host's keyboard. Each does one thing at a time.
  datatype Writer = Connection(guest: nat) | Control(call: nat) | Keys

  datatype Applied = Applied(writer: Writer, who: string, data: seq<Byte>, cause: Cause)

  // former: guests that have left, whose connection may still deliver a frame.
  // sys: the multisig, and trace: what was done to it; callers: who is to act on
  // each of its decisions on their way. tasks: frames whose callback has not run.
  // origin: which frame each proposal was made of. underway: what is audited and
  // not yet written.
  datatype World = World(
    session: Session, former: map<nat, Member>,
    frames: seq<Frame>, tasks: seq<nat>,
    sys: Y.System, callers: seq<Writer>, trace: seq<Y.Step>, origin: seq<nat>,
    audit: seq<Applied>, underway: seq<Applied>, pty: seq<Applied>)

  datatype Step =
    | Guests(e: SessionSpec.Event)                                  // join, leave, allow, deny, kick, close
    | Handle(guest: nat, data: seq<Byte>)                           // HandleInput, under the lock
    | Write(task: nat, sweepAt: int, at: int)                       // its callback writeInput
    | GuestVote(guest: nat, voter: string, op: M.Op, number: int, at: int) // onVote
    | HostVote(call: nat, op: M.Op, id: Option<int>, at: int)       // cotty approve, cotty reject
    | Act(i: nat)                                                   // a decided vote executes
    | List(at: int)                                                 // cotty pending
    | Type(data: seq<Byte>)                                         // the host's own keystrokes
    | Emit(i: nat)                                                  // an audited entry reaches the PTY

  predicate Supervises(c: Option<M.Config>, who: string) {
    c.Some? && who in c.value.supervised
  }

  // The guest behind a connection, listed or not.
  function Person(w: World, guest: nat): Option<Member> {
    var i := FindId(w.session.members, guest);
    if i < |w.session.members| then Some(w.session.members[i])
    else if guest in w.former then Some(w.former[guest])
    else None
  }

  // Guests that an event takes off the list stay behind as they are.
  ghost function Former(w: World, e: SessionSpec.Event): map<nat, Member> {
    var ms := w.session.members;
    match e
    case Leave(id) =>
      var i := FindId(ms, id);
      if i < |ms| then w.former[id := ms[i]] else w.former
    case CloseAll =>
      w.former + map id | id in (set i | 0 <= i < |ms| :: ms[i].id) && FindId(ms, id) < |ms| :: ms[FindId(ms, id)]
    case _ => w.former
  }

  // The connection a frame came by; every task is a frame.
  function Owner(frames: seq<Frame>, f: nat): Writer {
    if f < |frames| then Connection(frames[f].guest) else Keys
  }

  function Owners(frames: seq<Frame>, tasks: seq<nat>): seq<Writer> {
    seq(|tasks|, k requires 0 <= k < |tasks| => Owner(frames, tasks[k]))
  }

  function Writers(log: seq<Applied>): seq<Writer> {
    seq(|log|, k requires 0 <= k < |log| => log[k].writer)
  }

  // Who is in the middle of something.
  function Busy(w: World): multiset<Writer> {
    multiset(Owners(w.frames, w.tasks)) + multiset(w.callers) + multiset(Writers(w.underway))
  }

  // applyInput up to its audit entry.
  function Audited(w: World, a: Applied): World {
    w.(audit := w.audit + [a], underway := w.underway + [a])
  }

  // The rest of it: the i-th entry on its way is written.
  function Emitted(w: World, i: nat): World {
    if i < |w.underway|
    then w.(underway := w.underway[..i] + w.underway[i + 1..], pty := w.pty + [w.underway[i]])
    else w
  }

  // A step of the multisig, if there is one.
  function Advance(c: Option<M.Config>, w: World, step: Y.Step): World {
    if c.Some? then w.(sys := Y.Take(c.value, w.sys, step), trace := w.trace + [step]) else w
  }

  // The locked region of a vote; if it decides, the voter's goroutine acts next.
  function Voted(c: Option<M.Config>, w: World, writer: Writer, e: M.Event): World {
    if c.None? || writer in Busy(w) then w
    else
      var d := Y.DecisionOf(c.value, w.sys.table, e);
      Advance(c, w, Y.Lock(e)).(callers := w.callers + seq(|d|, _ => writer))
  }

  // HandleInput up to its unlock: a frame of a writable guest is on its way.
  function Handled(w: World, guest: nat, data: seq<Byte>): World {
    var p := Person(w, guest);
    if p.Some? && p.value.writable && Connection(guest) !in Busy(w)
    then w.(frames := w.frames + [Frame(guest, p.value.name, data)], tasks := w.tasks + [|w.frames|])
    else w
  }

  // writeInput: a supervised guest's keystrokes are held, others are applied.
  function Written(c: Option<M.Config>, w: World, i: nat, sweepAt: int, at: int): World {
    if i < |w.tasks| && w.tasks[i] < |w.frames| then
      var f := w.tasks[i];
      var frame := w.frames[f];
      var v := w.(tasks := w.tasks[..i] + w.tasks[i + 1..]);
      if Supervises(c, frame.who)
      then Advance(c, v, Y.Lock(M.Holding(frame.who, frame.data, sweepAt, at))).(origin := w.origin + [f])
      else Audited(v, Applied(Connection(frame.guest), frame.who, frame.data, Direct(f)))
    else w
  }

  // execute, for the i-th decision on its way.
  function Acted(c: Option<M.Config>, w: World, i: nat): World {
    if i < |w.sys.inFlight| && i < |w.callers| then
      var d := w.sys.inFlight[i];
      var v := Advance(c, w, Y.Act(i)).(callers := w.callers[..i] + w.callers[i + 1..]);
      Audited(v, Applied(w.callers[i], d.who, d.data, ByVote(d)))
    else w
  }

  function Typed(w: World, data: seq<Byte>): World {
    if Keys in Busy(w) then w else Audited(w, Applied(Keys, "host", data, Keyboard))
  }

  ghost function Next(c: Option<M.Config>, w: World, step: Step): World {
    match step
    case Guests(e) => w.(session := SessionSpec.Next(w.session, e), former := Former(w, e))
    case Handle(guest, data) => Handled(w, guest, data)
    case Write(i, sweepAt, at) => Written(c, w, i, sweepAt, at)
    case GuestVote(guest, voter, op, number, at) =>
      var p := Person(w, guest);
      if p.Some? && p.value.name == voter
      then Voted(c, w, Connection(guest), M.Voting(voter, op, Some(number), at)) else w
    case HostVote(call, op, id, at) => Voted(c, w, Control(call), M.Voting("host", op, id, at))
    case Act(i) => Acted(c, w, i)
    case List(at) => Advance(c, w, Y.Lock(M.Listing(at)))
    case Type(data) => Typed(w, data)
    case Emit(i) => Emitted(w, i)
  }

  ghost function Run(c: Option<M.Config>, defaultWritable: bool, steps: seq<Step>): World {
    if steps == [] then World(Session([], 0, defaultWritable), map[], [], [], Y.START, [], [], [], [], [], [])
    else Next(c, Run(c, defaultWritable, steps[..|steps| - 1]), steps[|steps| - 1])
  }
}
