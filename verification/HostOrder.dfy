// The audit trail against the PTY: an entry is made before its keystrokes are
// written, other goroutines may come in between, and what that does to the order.
module HostOrder {
  import opened Common
  import Names
  import SessionSpec
  import opened HostSpec
  import opened HostProofs
  import M = MultisigSpec
  import Y = MultisigSystem

  // One writer's part of a log.
  function Of(log: seq<Applied>, writer: Writer): seq<Applied> {
    if log == [] then [] else
      var last := log[|log| - 1];
      Of(log[..|log| - 1], writer) + (if last.writer == writer then [last] else [])
  }

  lemma {:induction false} OfConcat(a: seq<Applied>, b: seq<Applied>, writer: Writer)
    ensures Of(a + b, writer) == Of(a, writer) + Of(b, writer)
    decreases |b|
  {
    if b == [] {
      assert a + b == a;
    } else {
      OfConcat(a, b[..|b| - 1], writer);
      assert (a + b)[..|a + b| - 1] == a + b[..|b| - 1];
    }
  }

  lemma OfOne(a: Applied, writer: Writer)
    ensures Of([a], writer) == if a.writer == writer then [a] else []
  {
    assert [a][..0] == [];
  }

  lemma {:induction false} OfNobody(log: seq<Applied>, writer: Writer)
    requires forall k :: 0 <= k < |log| ==> log[k].writer != writer
    ensures Of(log, writer) == []
    decreases |log|
  {
    if log != [] {
      OfNobody(log[..|log| - 1], writer);
    }
  }

  // ----- one thing at a time

  ghost predicate Once<T(!new)>(m: multiset<T>) {
    forall x :: m[x] <= 1
  }

  lemma OnceMore<T(!new)>(m: multiset<T>, x: T, more: multiset<T>)
    requires Once(m) && x !in m && (more == multiset{} || more == multiset{x})
    ensures Once(m + more)
  {
  }

  lemma OnceLess<T(!new)>(m: multiset<T>, part: multiset<T>)
    requires Once(m) && part <= m
    ensures Once(part)
  {
  }

  // Three lists that name nobody twice between them.
  lemma Apart<T(!new)>(a: seq<T>, b: seq<T>, c: seq<T>)
    requires Once(multiset(a) + multiset(b) + multiset(c))
    ensures NoDup(a) && NoDup(c)
    ensures forall i, k :: 0 <= i < |a| && 0 <= k < |c| ==> a[i] != c[k]
  {
    var m := multiset(a) + multiset(b) + multiset(c);
    assert forall x :: m[x] == multiset(a)[x] + multiset(b)[x] + multiset(c)[x];
    forall i, k | 0 <= i < k < |a|
      ensures a[i] != a[k]
    {
      assert m[a[i]] <= 1;
      if a[i] == a[k] {
        TwiceIn(a, i, k);
      }
    }
    forall i, k | 0 <= i < k < |c|
      ensures c[i] != c[k]
    {
      assert m[c[i]] <= 1;
      if c[i] == c[k] {
        TwiceIn(c, i, k);
      }
    }
    forall i, k | 0 <= i < |a| && 0 <= k < |c|
      ensures a[i] != c[k]
    {
      assert m[a[i]] <= 1 && a[i] in multiset(a) && c[k] in multiset(c);
    }
  }

  // Every goroutine is in the middle of one thing at most.
  ghost predicate OneAtATime(w: World) {
    && (forall k :: 0 <= k < |w.tasks| ==> w.tasks[k] < |w.frames|)
    && Once(Busy(w))
  }

  lemma HandledIsOne(w: World, guest: nat, data: seq<Byte>)
    requires OneAtATime(w)
    ensures OneAtATime(Handled(w, guest, data))
  {
    var v := Handled(w, guest, data);
    if v != w {
      assert Owners(v.frames, v.tasks) == Owners(w.frames, w.tasks) + [Connection(guest)];
      assert Busy(v) == Busy(w) + multiset{Connection(guest)};
      OnceMore(Busy(w), Connection(guest), multiset{Connection(guest)});
    }
  }

  lemma CutOwner(frames: seq<Frame>, tasks: seq<nat>, i: nat)
    requires i < |tasks|
    ensures multiset(Owners(frames, tasks[..i] + tasks[i + 1..])) + multiset{Owner(frames, tasks[i])}
         == multiset(Owners(frames, tasks))
  {
    var owners := Owners(frames, tasks);
    assert Owners(frames, tasks[..i] + tasks[i + 1..]) == owners[..i] + owners[i + 1..];
    CutCounts(owners, i);
  }

  lemma MoreUnderway(log: seq<Applied>, a: Applied)
    ensures multiset(Writers(log + [a])) == multiset(Writers(log)) + multiset{a.writer}
  {
    assert Writers(log + [a]) == Writers(log) + [a.writer];
  }

  // One who goes on with the next part of its work stays busy once.
  lemma Moved<T(!new)>(before: multiset<T>, after: multiset<T>, x: T, left: multiset<T>, others: multiset<T>,
                       right: multiset<T>)
    requires before == left + multiset{x} + others + right
    requires after == left + others + (right + multiset{x}) || after == left + others + right
    ensures after <= before
  {
  }

  lemma WrittenIsOne(c: Option<M.Config>, w: World, i: nat, sweepAt: int, at: int)
    requires OneAtATime(w)
    ensures OneAtATime(Written(c, w, i, sweepAt, at))
  {
    if i < |w.tasks| {
      var v := Written(c, w, i, sweepAt, at);
      var rest := w.tasks[..i] + w.tasks[i + 1..];
      CutOwner(w.frames, w.tasks, i);
      assert forall k :: 0 <= k < |rest| ==> rest[k] == w.tasks[if k < i then k else k + 1];
      assert v.tasks == rest && v.frames == w.frames && v.callers == w.callers;
      var x := Owner(w.frames, w.tasks[i]);
      if v.underway != w.underway {
        MoreUnderway(w.underway, v.underway[|w.underway|]);
      }
      Moved(Busy(w), Busy(v), x, multiset(Owners(w.frames, rest)), multiset(w.callers), multiset(Writers(w.underway)));
      OnceLess(Busy(w), Busy(v));
    }
  }

  lemma VotedIsOne(c: Option<M.Config>, w: World, writer: Writer, e: M.Event)
    requires OneAtATime(w)
    ensures OneAtATime(Voted(c, w, writer, e))
  {
    if c.Some? && writer !in Busy(w) {
      var v := Voted(c, w, writer, e);
      var more := seq(|Y.DecisionOf(c.value, w.sys.table, e)|, _ => writer);
      assert v.callers == w.callers + more && (more == [] || more == [writer]);
      assert Busy(v) == Busy(w) + multiset(more);
      OnceMore(Busy(w), writer, multiset(more));
    }
  }

  lemma ActedIsOne(c: Option<M.Config>, w: World, i: nat)
    requires OneAtATime(w)
    ensures OneAtATime(Acted(c, w, i))
  {
    var v := Acted(c, w, i);
    if i < |w.sys.inFlight| && i < |w.callers| {
      var rest := w.callers[..i] + w.callers[i + 1..];
      CutCounts(w.callers, i);
      assert v.tasks == w.tasks && v.frames == w.frames && v.callers == rest;
      MoreUnderway(w.underway, v.underway[|w.underway|]);
      Moved(Busy(w), Busy(v), w.callers[i], multiset(rest), multiset(Owners(w.frames, w.tasks)), multiset(Writers(w.underway)));
      OnceLess(Busy(w), Busy(v));
    }
  }

  lemma TypedIsOne(w: World, data: seq<Byte>)
    requires OneAtATime(w)
    ensures OneAtATime(Typed(w, data))
  {
    if Keys !in Busy(w) {
      MoreUnderway(w.underway, Applied(Keys, "host", data, Keyboard));
      assert Busy(Typed(w, data)) == Busy(w) + multiset{Keys};
      OnceMore(Busy(w), Keys, multiset{Keys});
    }
  }

  lemma EmittedIsOne(w: World, i: nat)
    requires OneAtATime(w)
    ensures OneAtATime(Emitted(w, i))
  {
    if i < |w.underway| {
      var v, ws := Emitted(w, i), Writers(w.underway);
      assert Writers(v.underway) == ws[..i] + ws[i + 1..];
      CutCounts(ws, i);
      assert multiset(Writers(v.underway)) <= multiset(ws);
      OnceLess(Busy(w), Busy(v));
    }
  }

  lemma NextIsOne(c: Option<M.Config>, w: World, step: Step)
    requires OneAtATime(w)
    ensures OneAtATime(Next(c, w, step))
  {
    match step {
      case Guests(e) => assert Busy(Next(c, w, step)) == Busy(w);
      case Handle(guest, data) => HandledIsOne(w, guest, data);
      case Write(i, sweepAt, at) => WrittenIsOne(c, w, i, sweepAt, at);
      case GuestVote(guest, voter, op, number, at) =>
        VotedIsOne(c, w, Connection(guest), M.Voting(voter, op, Some(number), at));
      case HostVote(call, op, id, at) => VotedIsOne(c, w, Control(call), M.Voting("host", op, id, at));
      case Act(i) => ActedIsOne(c, w, i);
      case List(at) => assert Busy(Next(c, w, step)) == Busy(w);
      case Type(data) => TypedIsOne(w, data);
      case Emit(i) => EmittedIsOne(w, i);
    }
  }

  // So of the entries on their way no two are of one writer.
  lemma UnderwayDiffer(w: World)
    requires OneAtATime(w)
    ensures forall i, k :: 0 <= i < k < |w.underway| ==> w.underway[i].writer != w.underway[k].writer
  {
    var ws := Writers(w.underway);
    Apart(Owners(w.frames, w.tasks), w.callers, ws);
    assert forall i :: 0 <= i < |ws| ==> ws[i] == w.underway[i].writer;
  }

  // ----- order within one writer

  // Each writer's entries reach the PTY in the order they are audited, the last
  // one perhaps still on its way.
  ghost predicate InOrder(w: World) {
    forall x :: Of(w.audit, x) == Of(w.pty, x) + Of(w.underway, x)
  }

  lemma AuditedInOrder(w: World, a: Applied)
    requires InOrder(w)
    ensures InOrder(Audited(w, a))
  {
    forall x
      ensures Of(w.audit + [a], x) == Of(w.pty, x) + Of(w.underway + [a], x)
    {
      OfConcat(w.audit, [a], x);
      OfConcat(w.underway, [a], x);
    }
  }

  lemma OfThree(before: seq<Applied>, a: Applied, after: seq<Applied>, writer: Writer)
    ensures Of(before + ([a] + after), writer)
         == Of(before, writer) + ((if a.writer == writer then [a] else []) + Of(after, writer))
  {
    OfConcat(before, [a] + after, writer);
    OfConcat([a], after, writer);
    OfOne(a, writer);
  }

  // Cutting out one writer's only entry.
  lemma OfCut(before: seq<Applied>, a: Applied, after: seq<Applied>, writer: Writer)
    requires forall k :: 0 <= k < |before| ==> before[k].writer != a.writer
    requires forall k :: 0 <= k < |after| ==> after[k].writer != a.writer
    ensures a.writer == writer ==> Of(before + ([a] + after), writer) == [a] && Of(before + after, writer) == []
    ensures a.writer != writer ==> Of(before + ([a] + after), writer) == Of(before + after, writer)
  {
    OfThree(before, a, after, writer);
    OfConcat(before, after, writer);
    if a.writer == writer {
      OfNobody(before, writer);
      OfNobody(after, writer);
    }
  }

  lemma EmittedInOrder(w: World, i: nat)
    requires InOrder(w) && OneAtATime(w)
    ensures InOrder(Emitted(w, i))
  {
    if i < |w.underway| {
      var v, before, after := Emitted(w, i), w.underway[..i], w.underway[i + 1..];
      UnderwayDiffer(w);
      assert w.underway == before + ([w.underway[i]] + after);
      forall x
        ensures Of(v.audit, x) == Of(v.pty, x) + Of(v.underway, x)
      {
        OfCut(before, w.underway[i], after, x);
        OfConcat(w.pty, [w.underway[i]], x);
        OfOne(w.underway[i], x);
      }
    }
  }

  // What a step does to the logs: nothing, one more entry audited, or one
  // written.
  lemma LogsOfStep(c: Option<M.Config>, w: World, step: Step)
    ensures var v := Next(c, w, step);
            || (v.audit == w.audit && v.underway == w.underway && v.pty == w.pty)
            || (v.pty == w.pty && |v.audit| > 0
                && v.audit == w.audit + [v.audit[|v.audit| - 1]] && v.underway == w.underway + [v.audit[|v.audit| - 1]])
            || (step.Emit? && v == Emitted(w, step.i))
    ensures step.Emit? ==> Next(c, w, step) == Emitted(w, step.i)
  {
  }

  lemma {:induction false} RunInOrder(c: Option<M.Config>, defaultWritable: bool, steps: seq<Step>)
    ensures var w := Run(c, defaultWritable, steps); OneAtATime(w) && InOrder(w)
    decreases |steps|
  {
    var w := Run(c, defaultWritable, steps);
    if steps == [] {
      assert Owners(w.frames, w.tasks) == [] && Writers(w.underway) == [];
    } else {
      var front, last := steps[..|steps| - 1], steps[|steps| - 1];
      var before := Run(c, defaultWritable, front);
      RunInOrder(c, defaultWritable, front);
      RunInvariant(c, defaultWritable, front);
      NextIsOne(c, before, last);
      LogsOfStep(c, before, last);
      if last.Emit? {
        EmittedInOrder(before, last.i);
      } else if w.audit != before.audit {
        AuditedInOrder(before, w.audit[|w.audit| - 1]);
      }
    }
  }

  // Whatever the interleaving: nothing reaches the PTY that was not audited
  // before, what is audited and not yet written is on its way, and every writer's
  // own order is kept. When nothing is on its way, audit trail and PTY log hold
  // the same entries, each writer's in the same order.
  lemma AuditCoversThePty(c: Option<M.Config>, defaultWritable: bool, steps: seq<Step>)
    ensures var w := Run(c, defaultWritable, steps);
            && multiset(w.pty) + multiset(w.underway) == multiset(w.audit)
            && (forall x :: Of(w.audit, x) == Of(w.pty, x) + Of(w.underway, x))
            && (w.underway == [] ==>
                  multiset(w.audit) == multiset(w.pty) && forall x :: Of(w.audit, x) == Of(w.pty, x))
  {
    RunInvariant(c, defaultWritable, steps);
    RunInOrder(c, defaultWritable, steps);
    var w := Run(c, defaultWritable, steps);
    assert w.underway == [] ==> forall x :: Of(w.underway, x) == [];
    assert w.underway == [] ==> forall x :: Of(w.pty, x) + [] == Of(w.pty, x);
  }

  // ----- order between writers

  // Step k writes an entry while an older one is still on its way.
  ghost predicate Overtakes(c: Option<M.Config>, defaultWritable: bool, steps: seq<Step>, k: nat)
    requires k < |steps|
  {
    steps[k].Emit? && 0 < steps[k].i < |Run(c, defaultWritable, steps[..k]).underway|
  }

  ghost predicate InTurn(c: Option<M.Config>, defaultWritable: bool, steps: seq<Step>) {
    forall k :: 0 <= k < |steps| ==> !Overtakes(c, defaultWritable, steps, k)
  }

  lemma InTurnStep(c: Option<M.Config>, defaultWritable: bool, steps: seq<Step>)
    requires steps != []
    ensures InTurn(c, defaultWritable, steps) <==>
      InTurn(c, defaultWritable, steps[..|steps| - 1]) && !Overtakes(c, defaultWritable, steps, |steps| - 1)
  {
    var front := steps[..|steps| - 1];
    forall k | 0 <= k < |front|
      ensures Overtakes(c, defaultWritable, steps, k) <==> Overtakes(c, defaultWritable, front, k)
    {
      assert front[..k] == steps[..k];
    }
  }

  // The PTY log is an initial part of the audit trail just when all was in turn.
  ghost predicate Ordered(w: World, inTurn: bool) {
    && (inTurn <==> w.pty <= w.audit)
    && (inTurn ==> w.audit == w.pty + w.underway)
    && |w.pty| + |w.underway| == |w.audit|
  }

  lemma AuditedOrdered(w: World, v: World, a: Applied, inTurn: bool)
    requires Ordered(w, inTurn)
    requires v.pty == w.pty && v.audit == w.audit + [a] && v.underway == w.underway + [a]
    ensures Ordered(v, inTurn)
  {
    assert w.audit == v.audit[..|w.audit|];
  }

  // Writing out of turn breaks the order for good, as the entries differ.
  lemma EmittedOrdered(w: World, i: nat, inTurn: bool)
    requires OneAtATime(w) && Ordered(w, inTurn) && i < |w.underway|
    ensures Ordered(Emitted(w, i), inTurn && i == 0)
  {
    var v := Emitted(w, i);
    UnderwayDiffer(w);
    assert v.pty[|w.pty|] == w.underway[i] && w.pty == v.pty[..|w.pty|];
    if inTurn {
      assert w.audit[|w.pty|] == w.underway[0];
      if i == 0 {
        assert v.pty + v.underway == w.pty + w.underway;
      }
    }
  }

  // The PTY log is an initial part of the audit trail, in order, exactly when no
  // entry ever overtook an older one; then what is left is what is on its way.
  lemma {:induction false} OrderedExactlyInTurn(c: Option<M.Config>, defaultWritable: bool, steps: seq<Step>)
    ensures Ordered(Run(c, defaultWritable, steps), InTurn(c, defaultWritable, steps))
    decreases |steps|
  {
    if steps != [] {
      var front, last := steps[..|steps| - 1], steps[|steps| - 1];
      var before, w := Run(c, defaultWritable, front), Run(c, defaultWritable, steps);
      var inTurn := InTurn(c, defaultWritable, front);
      OrderedExactlyInTurn(c, defaultWritable, front);
      InTurnStep(c, defaultWritable, steps);
      RunInOrder(c, defaultWritable, front);
      LogsOfStep(c, before, last);
      if last.Emit? {
        if last.i < |before.underway| {
          EmittedOrdered(before, last.i, inTurn);
        }
      } else if w.audit != before.audit {
        AuditedOrdered(before, w, w.audit[|w.audit| - 1], inTurn);
      }
    }
  }

  // With nothing on its way, the PTY got exactly the audited entries in their
  // order if and only if every entry was written in its turn.
  lemma AuditIsThePtyLog(c: Option<M.Config>, defaultWritable: bool, steps: seq<Step>)
    requires Run(c, defaultWritable, steps).underway == []
    ensures var w := Run(c, defaultWritable, steps); w.audit == w.pty <==> InTurn(c, defaultWritable, steps)
  {
    OrderedExactlyInTurn(c, defaultWritable, steps);
  }

  // ----- overtaking does happen

  lemma RunMore(c: Option<M.Config>, defaultWritable: bool, steps: seq<Step>, step: Step)
    ensures Run(c, defaultWritable, steps + [step]) == Next(c, Run(c, defaultWritable, steps), step)
  {
    assert (steps + [step])[..|steps|] == steps;
  }

  // A guest alone in a session where everyone may write, and what is logged.
  function Alone(name: string, frames: seq<Frame>, tasks: seq<nat>,
                 audit: seq<Applied>, underway: seq<Applied>, pty: seq<Applied>): World {
    World(SessionSpec.Session([SessionSpec.Member(0, name, true)], 1, true), map[],
          frames, tasks, Y.START, [], [], [], audit, underway, pty)
  }

  lemma GuestKeyAudited(x: Byte) returns (steps: seq<Step>, name: string)
    ensures var a := Applied(Connection(0), name, [x], Direct(0));
            Run(None, true, steps) == Alone(name, [Frame(0, name, [x])], [], [a], [a], [])
  {
    name := Names.FreeName(Names.Sanitize(""), {});
    var join, handle, write := Guests(SessionSpec.Join("")), Handle(0, [x]), Write(0, 0, 0);
    var frame := Frame(0, name, [x]);
    assert SessionSpec.NamesOf([]) == {};
    RunMore(None, true, [], join);
    assert Run(None, true, [] + [join]) == Alone(name, [], [], [], [], []);
    RunMore(None, true, [] + [join], handle);
    assert Run(None, true, [] + [join] + [handle]) == Alone(name, [frame], [0], [], [], []);
    RunMore(None, true, [] + [join] + [handle], write);
    steps := [] + [join] + [handle] + [write];
  }

  // A run in which the host's key overtakes a guest's: the audit trail tells one
  // order, the PTY saw the other.
  lemma AuditCanBeOutOfOrder(x: Byte, y: Byte) returns (steps: seq<Step>)
    ensures var w := Run(None, true, steps);
            && w.underway == [] && |w.audit| == |w.pty| == 2 && w.audit != w.pty
            && w.audit[0] == w.pty[1] && w.audit[0].data == [x]
            && w.audit[1] == w.pty[0] && w.audit[1].data == [y]
  {
    var name;
    steps, name := GuestKeyAudited(x);
    var a := Applied(Connection(0), name, [x], Direct(0));
    var b := Applied(Keys, "host", [y], Keyboard);
    var frames := [Frame(0, name, [x])];
    RunMore(None, true, steps, Type([y]));
    steps := steps + [Type([y])];
    assert Writers([a]) == [Connection(0)];
    assert Run(None, true, steps) == Alone(name, frames, [], [a, b], [a, b], []);
    RunMore(None, true, steps, Emit(1));
    steps := steps + [Emit(1)];
    assert Run(None, true, steps) == Alone(name, frames, [], [a, b], [a], [b]);
    RunMore(None, true, steps, Emit(0));
    steps := steps + [Emit(0)];
    assert Run(None, true, steps) == Alone(name, frames, [], [a, b], [], [b, a]);
  }

  // ----- a guest's keystrokes reach the PTY in the order they were typed

  // Two entries made of frames of one guest, the first of an earlier frame.
  predicate FramesInOrder(a: Applied, b: Applied) {
    a.cause.Direct? && b.cause.Direct? && a.writer == b.writer ==> a.cause.frame < b.cause.frame
  }

  // a is no later frame than task f of its own guest.
  predicate BeforeTask(frames: seq<Frame>, a: Applied, f: nat) {
    a.cause.Direct? && a.writer == Owner(frames, f) ==> a.cause.frame < f
  }

  ghost predicate TypedInOrder(w: World) {
    && (forall k :: 0 <= k < |w.tasks| ==> w.tasks[k] < |w.frames|)
    && (forall i :: 0 <= i < |w.audit| && w.audit[i].cause.Direct? ==>
          w.audit[i].cause.frame < |w.frames| && w.audit[i].writer == Owner(w.frames, w.audit[i].cause.frame))
    && (forall i, k :: 0 <= i < |w.audit| && 0 <= k < |w.tasks| ==> BeforeTask(w.frames, w.audit[i], w.tasks[k]))
    && (forall i, k :: 0 <= i < k < |w.audit| ==> FramesInOrder(w.audit[i], w.audit[k]))
  }

  lemma HandledTyped(w: World, guest: nat, data: seq<Byte>)
    requires TypedInOrder(w)
    ensures TypedInOrder(Handled(w, guest, data))
  {
    var v := Handled(w, guest, data);
    if v != w {
      assert forall f: nat :: f < |w.frames| ==> Owner(v.frames, f) == Owner(w.frames, f);
      forall i, k | 0 <= i < |v.audit| && 0 <= k < |v.tasks|
        ensures BeforeTask(v.frames, v.audit[i], v.tasks[k])
      {
        if k < |w.tasks| {
          assert BeforeTask(w.frames, w.audit[i], w.tasks[k]);
        }
      }
    }
  }

  lemma WrittenTyped(c: Option<M.Config>, w: World, t: nat, sweepAt: int, at: int)
    requires TypedInOrder(w) && OneAtATime(w)
    ensures TypedInOrder(Written(c, w, t, sweepAt, at))
  {
    var v := Written(c, w, t, sweepAt, at);
    if t < |w.tasks| {
      var owners := Owners(w.frames, w.tasks);
      Apart(owners, w.callers, Writers(w.underway));
      assert v.frames == w.frames && v.tasks == w.tasks[..t] + w.tasks[t + 1..];
      assert forall k :: 0 <= k < |v.tasks| ==> v.tasks[k] == w.tasks[if k < t then k else k + 1];
      forall i, k | 0 <= i < |v.audit| && 0 <= k < |v.tasks|
        ensures BeforeTask(v.frames, v.audit[i], v.tasks[k])
      {
        var l := if k < t then k else k + 1;
        assert owners[l] != owners[t];
        assert i < |w.audit| ==> BeforeTask(w.frames, w.audit[i], w.tasks[l]);
      }
      NewestTyped(w, v, t);
    }
  }

  lemma NewestTyped(w: World, v: World, t: nat)
    requires TypedInOrder(w) && t < |w.tasks|
    requires v.audit == w.audit || (|v.audit| == |w.audit| + 1 && v.audit[..|w.audit|] == w.audit
      && v.audit[|w.audit|].cause == Direct(w.tasks[t]) && v.audit[|w.audit|].writer == Owner(w.frames, w.tasks[t]))
    ensures forall i, k :: 0 <= i < k < |v.audit| ==> FramesInOrder(v.audit[i], v.audit[k])
  {
    assert forall i :: 0 <= i < |w.audit| ==> v.audit[i] == v.audit[..|w.audit|][i];
    forall i, k | 0 <= i < k < |v.audit|
      ensures FramesInOrder(v.audit[i], v.audit[k])
    {
      assert BeforeTask(w.frames, w.audit[i], w.tasks[t]);
      assert k < |w.audit| ==> FramesInOrder(w.audit[i], w.audit[k]);
    }
  }

  lemma MoreTyped(w: World, v: World, a: Applied)
    requires TypedInOrder(w) && !a.cause.Direct?
    requires v.frames == w.frames && v.tasks == w.tasks && (v.audit == w.audit || v.audit == w.audit + [a])
    ensures TypedInOrder(v)
  {
    forall i, k | 0 <= i < |v.audit| && 0 <= k < |v.tasks|
      ensures BeforeTask(v.frames, v.audit[i], v.tasks[k])
    {
      assert i < |w.audit| ==> BeforeTask(w.frames, w.audit[i], w.tasks[k]);
    }
    forall i, k | 0 <= i < k < |v.audit|
      ensures FramesInOrder(v.audit[i], v.audit[k])
    {
      assert k < |w.audit| ==> FramesInOrder(w.audit[i], w.audit[k]);
    }
  }

  lemma ActedTyped(c: Option<M.Config>, w: World, i: nat)
    requires TypedInOrder(w)
    ensures TypedInOrder(Acted(c, w, i))
  {
    if i < |w.sys.inFlight| && i < |w.callers| {
      var d := w.sys.inFlight[i];
      MoreTyped(w, Acted(c, w, i), Applied(w.callers[i], d.who, d.data, ByVote(d)));
    }
  }

  lemma NextTyped(c: Option<M.Config>, w: World, step: Step)
    requires TypedInOrder(w) && OneAtATime(w)
    ensures TypedInOrder(Next(c, w, step))
  {
    match step {
      case Handle(guest, data) => HandledTyped(w, guest, data);
      case Write(i, sweepAt, at) => WrittenTyped(c, w, i, sweepAt, at);
      case Act(i) => ActedTyped(c, w, i);
      case Type(data) => MoreTyped(w, Typed(w, data), Applied(Keys, "host", data, Keyboard));
      case _ => MoreTyped(w, Next(c, w, step), Applied(Keys, "host", [], Keyboard));
    }
  }

  lemma {:induction false} RunTypedInOrder(c: Option<M.Config>, defaultWritable: bool, steps: seq<Step>)
    ensures TypedInOrder(Run(c, defaultWritable, steps))
    decreases |steps|
  {
    if steps != [] {
      var front, last := steps[..|steps| - 1], steps[|steps| - 1];
      RunTypedInOrder(c, defaultWritable, front);
      RunInOrder(c, defaultWritable, front);
      NextTyped(c, Run(c, defaultWritable, front), last);
    }
  }

  lemma {:induction false} OfPicks(log: seq<Applied>, writer: Writer, i: nat, k: nat)
    requires i < k < |log| && log[i].writer == writer == log[k].writer
    ensures exists m, n :: 0 <= m < n < |Of(log, writer)| && Of(log, writer)[m] == log[i] && Of(log, writer)[n] == log[k]
    decreases |log|
  {
    var front := log[..|log| - 1];
    var of := Of(log, writer);
    if k < |log| - 1 {
      OfPicks(front, writer, i, k);
      var m, n :| 0 <= m < n < |Of(front, writer)| && Of(front, writer)[m] == log[i] && Of(front, writer)[n] == log[k];
      assert of[m] == log[i] && of[n] == log[k];
    } else {
      var m := OfHas(front, writer, i);
      assert of[m] == log[i] && of[|of| - 1] == log[k];
    }
  }

  lemma {:induction false} OfHas(log: seq<Applied>, writer: Writer, i: nat) returns (m: nat)
    requires i < |log| && log[i].writer == writer
    ensures m < |Of(log, writer)| && Of(log, writer)[m] == log[i]
    decreases |log|
  {
    if i < |log| - 1 {
      m := OfHas(log[..|log| - 1], writer, i);
    } else {
      m := |Of(log, writer)| - 1;
    }
  }

  lemma {:induction false} OfFrom(log: seq<Applied>, writer: Writer, m: nat) returns (i: nat)
    requires m < |Of(log, writer)|
    ensures i < |log| && log[i] == Of(log, writer)[m]
    decreases |log|
  {
    var front := log[..|log| - 1];
    if m < |Of(front, writer)| {
      i := OfFrom(front, writer, m);
    } else {
      i := |log| - 1;
    }
  }

  lemma {:induction false} OfKeepsOrder(log: seq<Applied>, writer: Writer)
    requires forall i, k :: 0 <= i < k < |log| ==> FramesInOrder(log[i], log[k])
    ensures forall m, n :: 0 <= m < n < |Of(log, writer)| ==> FramesInOrder(Of(log, writer)[m], Of(log, writer)[n])
    decreases |log|
  {
    if log != [] {
      var front, last := log[..|log| - 1], log[|log| - 1];
      OfKeepsOrder(front, writer);
      forall m | 0 <= m < |Of(front, writer)|
        ensures FramesInOrder(Of(front, writer)[m], last)
      {
        var i := OfFrom(front, writer, m);
        assert FramesInOrder(log[i], log[|log| - 1]);
      }
    }
  }

  // Of the frames of one guest that are written without a vote, the earlier taken
  // reach the PTY first.
  lemma KeystrokesStayInOrder(c: Option<M.Config>, defaultWritable: bool, steps: seq<Step>, i: nat, k: nat)
    requires i < k < |Run(c, defaultWritable, steps).pty|
    ensures var w := Run(c, defaultWritable, steps); FramesInOrder(w.pty[i], w.pty[k])
  {
    var w := Run(c, defaultWritable, steps);
    RunTypedInOrder(c, defaultWritable, steps);
    RunInOrder(c, defaultWritable, steps);
    var x := w.pty[i].writer;
    if w.pty[k].writer == x {
      OfPicks(w.pty, x, i, k);
      OfKeepsOrder(w.audit, x);
      var m, n :| 0 <= m < n < |Of(w.pty, x)| && Of(w.pty, x)[m] == w.pty[i] && Of(w.pty, x)[n] == w.pty[k];
      assert Of(w.audit, x)[m] == w.pty[i] && Of(w.audit, x)[n] == w.pty[k];
    }
  }
}
