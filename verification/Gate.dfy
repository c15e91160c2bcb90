// The host of a relayed session re-checks write permission coarsely: it knows
// names it has allowed and denied, the relay knows guests. This is the protocol
// between the two, and what the host's gate promises.
module Gate {
  import opened Common
  import opened Names
  import opened SessionSpec

  datatype Op = AllowOp | DenyOp | KickOp | ListOp | UnknownOp(text: string)

  // A control call of the host, of which there is one at a time: none, on its
  // way to the relay, or on its way back.
  datatype Call = Idle | Sent(op: Op, name: string) | Replied(op: Op, name: string, ok: bool)

  datatype World = World(relay: Session, granted: map<string, bool>, anyWrite: bool, call: Call)

  datatype Step =
    | Relay(e: Event)             // guests join and leave at the relay
    | Send(op: Op, name: string)  // the host starts a call, if none is going on
    | Handle                      // the relay carries it out and answers
    | Receive                     // the host gets the result of its own call
    | Lose                        // or has stopped waiting for it, and books nothing

  // Apply in the registry, and whether it reports success.
  ghost function Apply(s: Session, op: Op, name: string): (Session, bool) {
    var i := Find(s.members, name);
    match op
    case AllowOp => (SessionSpec.Next(s, Allow(name)), i < |s.members|)
    case DenyOp => (SessionSpec.Next(s, Deny(name)), i < |s.members|)
    case KickOp =>
      if i < |s.members| then (SessionSpec.Next(s, Leave(s.members[i].id)), true) else (s, false)
    case ListOp => (s, true)
    case UnknownOp(_) => (s, false)
  }

  predicate AnyGranted(granted: map<string, bool>) {
    exists n :: n in granted && granted[n]
  }

  // The host's books after a result.
  function Booked(granted: map<string, bool>, op: Op, name: string, ok: bool): map<string, bool> {
    if ok && (op == AllowOp || op == DenyOp) then granted[name := op == AllowOp] else granted
  }

  // Guests come and go by themselves; permission changes only by control calls.
  predicate ByGuests(e: Event) {
    e.Join? || e.Leave? || e.CloseAll?
  }

  ghost function Next(w: World, step: Step): World {
    match step
    case Relay(e) => if ByGuests(e) then w.(relay := SessionSpec.Next(w.relay, e)) else w
    case Send(op, name) => if w.call.Idle? then w.(call := Sent(op, name)) else w
    case Handle =>
      if w.call.Sent? then
        var (relay, ok) := Apply(w.relay, w.call.op, w.call.name);
        w.(relay := relay, call := Replied(w.call.op, w.call.name, ok))
      else w
    case Receive =>
      if w.call.Replied? then
        var granted := Booked(w.granted, w.call.op, w.call.name, w.call.ok);
        w.(granted := granted, call := Idle,
           anyWrite := if w.call.ok && (w.call.op == AllowOp || w.call.op == DenyOp)
                       then w.relay.defaultWritable || AnyGranted(granted) else w.anyWrite)
      else w
    case Lose => if w.call.Replied? then w.(call := Idle) else w
  }

  ghost function Run(defaultWrite: bool, steps: seq<Step>): World {
    if steps == [] then World(Session([], 0, defaultWrite), map[], defaultWrite, Idle)
    else Next(Run(defaultWrite, steps[..|steps| - 1]), steps[|steps| - 1])
  }

  // The answers a run loses: to which operation, and whether it succeeded.
  ghost function Lost(defaultWrite: bool, steps: seq<Step>): set<(Op, bool)> {
    if steps == [] then {} else
      var call := Run(defaultWrite, steps[..|steps| - 1]).call;
      Lost(defaultWrite, steps[..|steps| - 1])
      + (if steps[|steps| - 1].Lose? && call.Replied? then {(call.op, call.ok)} else {})
  }

  // A guest that may write is in the host's books, or about to get there.
  ghost predicate Covered(w: World, m: Member) {
    m.writable ==>
      || w.relay.defaultWritable
      || (m.name in w.granted && w.granted[m.name])
      || w.call == Replied(AllowOp, m.name, true)
  }

  ghost predicate Invariant(w: World) {
    && Sound(w.relay)
    && w.anyWrite == (w.relay.defaultWritable || AnyGranted(w.granted))
    && (forall m :: m in w.relay.members ==> Covered(w, m))
    && (w.call.Replied? && w.call.op == DenyOp && w.call.ok && !w.relay.defaultWritable ==>
          forall m :: m in w.relay.members ==> m.name == w.call.name ==> !m.writable)
  }

  lemma RelayKeeps(w: World, e: Event)
    requires Invariant(w) && ByGuests(e)
    ensures Invariant(Next(w, Relay(e)))
  {
    SessionSpec.NextKeepsSound(w.relay, e);
    var u := Next(w, Relay(e));
    if e.Leave? {
      LeftIs(w.relay.members, e.id);
    }
    forall m | m in u.relay.members
      ensures m in w.relay.members || (e.Join? && m.writable == w.relay.defaultWritable)
    {
    }
  }

  // Carrying out a call touches nobody but the guest it names: allow and deny set
  // that guest's permission, kick removes it and nobody else, and all three report
  // whether there was one.
  lemma ApplyIs(s: Session, op: Op, name: string)
    requires Sound(s)
    ensures var (u, ok) := Apply(s, op, name);
            && Sound(u) && u.defaultWritable == s.defaultWritable && u.joined == s.joined
            && match op
               case AllowOp => Permitted(s.members, u.members, name, true) && (ok <==> name in NamesOf(s.members))
               case DenyOp => Permitted(s.members, u.members, name, false) && (ok <==> name in NamesOf(s.members))
               case KickOp =>
                 && (ok <==> name in NamesOf(s.members))
                 && (forall m :: m in u.members <==> m in s.members && m.name != name)
               case ListOp => u == s && ok
               case UnknownOp(_) => u == s && !ok
  {
    var ms, i := s.members, Find(s.members, name);
    assert i < |ms| ==> ms[i].name in NamesOf(ms);
    match op {
      case AllowOp =>
        SessionSpec.NextKeepsSound(s, Allow(name));
        NextIs(s, Allow(name));
      case DenyOp =>
        SessionSpec.NextKeepsSound(s, Deny(name));
        NextIs(s, Deny(name));
      case KickOp =>
        if i < |ms| {
          SessionSpec.NextKeepsSound(s, Leave(ms[i].id));
          LeftIs(ms, ms[i].id);
        }
      case _ =>
    }
  }

  lemma HandleKeeps(w: World)
    requires Invariant(w) && w.call.Sent?
    ensures Invariant(Next(w, Handle))
  {
    var u := Next(w, Handle);
    ApplyIs(w.relay, w.call.op, w.call.name);
    forall m | m in u.relay.members
      ensures Covered(u, m)
    {
      assert m in w.relay.members ==> Covered(w, m);
    }
  }

  lemma ReceiveKeeps(w: World)
    requires Invariant(w) && w.call.Replied?
    ensures Invariant(Next(w, Receive))
  {
    var u := Next(w, Receive);
    forall m | m in u.relay.members
      ensures Covered(u, m)
    {
      assert Covered(w, m);
    }
  }

  // Losing any answer but the success of an allow does no harm.
  lemma LoseKeeps(w: World)
    requires Invariant(w) && w.call.Replied? && !(w.call.op == AllowOp && w.call.ok)
    ensures Invariant(Next(w, Lose))
  {
    var u := Next(w, Lose);
    forall m | m in u.relay.members
      ensures Covered(u, m)
    {
      assert Covered(w, m);
    }
  }

  lemma {:induction false} RunInvariant(defaultWrite: bool, steps: seq<Step>)
    requires (AllowOp, true) !in Lost(defaultWrite, steps)
    ensures var w := Run(defaultWrite, steps); Invariant(w) && w.relay.defaultWritable == defaultWrite
    decreases |steps|
  {
    if steps != [] {
      var w, step := Run(defaultWrite, steps[..|steps| - 1]), steps[|steps| - 1];
      RunInvariant(defaultWrite, steps[..|steps| - 1]);
      match step {
        case Relay(e) => if ByGuests(e) { RelayKeeps(w, e); }
        case Send(_, _) =>
        case Handle => if w.call.Sent? { HandleKeeps(w); }
        case Receive => if w.call.Replied? { ReceiveKeeps(w); }
        case Lose => if w.call.Replied? { LoseKeeps(w); }
      }
    }
  }

  // A guest that may write at the relay is let through by the host.
  ghost predicate HidesNobody(w: World) {
    forall m :: m in w.relay.members && m.writable ==> w.anyWrite
  }

  // Whenever no control call is going on, the gate hides nobody, across any
  // leaving and rejoining under any names, unless the success of an allow was
  // lost before.
  lemma GateNeverHides(defaultWrite: bool, steps: seq<Step>)
    requires (AllowOp, true) !in Lost(defaultWrite, steps)
    ensures Run(defaultWrite, steps).call.Idle? ==> HidesNobody(Run(defaultWrite, steps))
  {
    RunInvariant(defaultWrite, steps);
    var w := Run(defaultWrite, steps);
    forall m | m in w.relay.members && m.writable && w.call.Idle?
      ensures w.anyWrite
    {
      assert Covered(w, m);
    }
  }

  // Then the gate can hide a guest only while the answer to the very call that
  // allowed it is on its way to the host.
  lemma GateHidesOnlyInFlight(defaultWrite: bool, steps: seq<Step>, m: Member)
    requires (AllowOp, true) !in Lost(defaultWrite, steps)
    requires var w := Run(defaultWrite, steps); m in w.relay.members && m.writable && !w.anyWrite
    ensures Run(defaultWrite, steps).call == Replied(AllowOp, m.name, true)
  {
    RunInvariant(defaultWrite, steps);
    assert Covered(Run(defaultWrite, steps), m);
  }

  // A run that loses the success of one allow, and nothing else, and leaves the
  // guest hidden with no call going on.
  lemma LostResultHidesGuest(requested: string) returns (steps: seq<Step>)
    ensures Lost(false, steps) == {(AllowOp, true)}
    ensures Run(false, steps).call.Idle? && !HidesNobody(Run(false, steps))
  {
    var name := FreeName(Sanitize(requested), {});
    steps := [Relay(Join(requested)), Send(AllowOp, name), Handle, Lose];
    assert steps[..3][..2] == steps[..2] && steps[..2][..1] == steps[..1] && steps[..1][..0] == [];
    assert NamesOf([]) == {};
    var w0 := Run(false, []);
    var w1 := Next(w0, steps[0]);
    assert w1.relay.members == [Member(0, name, false)] && w1.call == Idle;
    assert Find(w1.relay.members, name) == 0;
    var w2 := Next(w1, steps[1]);
    var w3 := Next(w2, steps[2]);
    assert w3.relay.members == [Member(0, name, true)] && w3.call == Replied(AllowOp, name, true);
    assert Run(false, steps[..1]) == w1 && Run(false, steps[..2]) == w2 && Run(false, steps[..3]) == w3;
    assert Lost(false, steps[..1]) == {} && Lost(false, steps[..2]) == {} && Lost(false, steps[..3]) == {};
    assert Member(0, name, true) in Run(false, steps).relay.members;
  }

  // Which answers may be lost: the gate hides nobody while no call is going on,
  // in every run that loses only answers among those given, exactly when the
  // success of an allow is not among them.
  lemma GateSafeExactly(losable: set<(Op, bool)>)
    ensures (forall defaultWrite, steps :: Lost(defaultWrite, steps) <= losable && Run(defaultWrite, steps).call.Idle? ==>
               HidesNobody(Run(defaultWrite, steps)))
            <==> (AllowOp, true) !in losable
  {
    if (AllowOp, true) in losable {
      var steps := LostResultHidesGuest("");
    } else {
      forall defaultWrite, steps | Lost(defaultWrite, steps) <= losable && Run(defaultWrite, steps).call.Idle?
        ensures HidesNobody(Run(defaultWrite, steps))
      {
        GateNeverHides(defaultWrite, steps);
      }
    }
  }

  // ----- the host alone, against any relay

  // The results of the host's control calls, in order; the relay may answer what
  // it likes.
  datatype Result = Result(op: Op, name: string, ok: bool)

  function Books(results: seq<Result>): map<string, bool> {
    if results == [] then map[] else
      var last := results[|results| - 1];
      Booked(Books(results[..|results| - 1]), last.op, last.name, last.ok)
  }

  // The last successful word on name is the allow at i.
  ghost predicate LastWordIsAllow(results: seq<Result>, name: string, i: nat) {
    && i < |results| && results[i] == Result(AllowOp, name, true)
    && forall k :: i < k < |results| ==> results[k] != Result(DenyOp, name, true)
  }

  lemma {:induction false} BooksKeepLastWord(results: seq<Result>, name: string)
    ensures (name in Books(results) && Books(results)[name]) <==> exists i :: LastWordIsAllow(results, name, i)
    decreases |results|
  {
    if results != [] {
      var front, last := results[..|results| - 1], results[|results| - 1];
      BooksKeepLastWord(front, name);
      if last == Result(AllowOp, name, true) {
        assert LastWordIsAllow(results, name, |results| - 1);
      } else if last != Result(DenyOp, name, true) {
        forall i: nat
          ensures LastWordIsAllow(results, name, i) <==> LastWordIsAllow(front, name, i)
        {
          assert forall k :: 0 <= k < |front| ==> front[k] == results[k];
        }
      }
    }
  }

  // A session that does not let everyone write passes input exactly while the
  // host's last successful word on some name is an allow: no relay can inject
  // input into a session that never allowed writing.
  lemma GateOpensOnlyByHost(results: seq<Result>)
    ensures AnyGranted(Books(results)) <==> exists name, i :: LastWordIsAllow(results, name, i)
  {
    var books := Books(results);
    if AnyGranted(books) {
      var n :| n in books && books[n];
      BooksKeepLastWord(results, n);
      var i :| LastWordIsAllow(results, n, i);
      assert LastWordIsAllow(results, n, i);
    }
    if name, i :| LastWordIsAllow(results, name, i) {
      BooksKeepLastWord(results, name);
      assert name in books && books[name];
    }
  }

  // The transport's side of it, as fields: control books a result and goes over
  // all names again, readLoop looks at anyWrite only.
  class HostGate {
    const defaultWrite: bool
    var granted: map<string, bool>
    var anyWrite: bool

    ghost predicate Valid()
      reads this
    {
      anyWrite == (defaultWrite || AnyGranted(granted))
    }

    constructor (defaultWrite: bool)
      ensures Valid() && granted == map[] && this.defaultWrite == defaultWrite
    {
      this.defaultWrite, granted, anyWrite := defaultWrite, map[], defaultWrite;
    }

    method ControlResult(op: Op, name: string, ok: bool)
      requires Valid()
      modifies this
      ensures Valid() && granted == Booked(old(granted), op, name, ok)
    {
      if !ok {
        return;
      }
      if op == AllowOp || op == DenyOp {
        granted := granted[name := op == AllowOp];
        anyWrite := defaultWrite;
        var rest := granted;
        while rest != map[]
          invariant anyWrite == (defaultWrite || exists n :: n in granted && n !in rest && granted[n])
          invariant forall n :: n in rest ==> n in granted && rest[n] == granted[n]
          invariant granted == old(granted)[name := op == AllowOp]
          decreases |rest|
        {
          var n: string :| n in rest;
          if rest[n] {
            anyWrite := true;
          }
          rest := rest - {n};
        }
      }
    }

    // An input frame; data is None when a sealed frame does not open.
    method Input(sender: string, data: Option<seq<Byte>>) returns (write: Option<(string, seq<Byte>)>)
      requires Valid()
      ensures write.Some? <==> (defaultWrite || AnyGranted(granted)) && data.Some?
      ensures write.Some? ==> write.value == (if sender == "" then "guest" else sender, data.value)
    {
      if !anyWrite || data.None? {
        return None;
      }
      var who := if sender == "" then "guest" else sender;
      return Some((who, data.value));
    }
  }
}
