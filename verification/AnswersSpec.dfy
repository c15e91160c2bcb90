// The hand-off of replies to waiting questions in internal/host/say.go, as a
// protocol: every region under the lock and every channel operation is a step,
// and any number of waits and deliveries interleave.
module AnswersSpec {
  import opened Common

  // Where one call of wait is: in its select, past its timeout, or returned.
  datatype Phase = Waiting | TimedOut | Answered(text: string) | NoAnswer

  // Calls are numbered in the order they queue. Call t owns the one-slot channel
  // slots[t]. accepted is the history of deliveries that found someone waiting;
  // blocked records that a step would have blocked while holding the lock.
  datatype Desk = Desk(phases: seq<Phase>, slots: seq<Option<string>>, waiters: seq<nat>,
                       accepted: seq<(nat, string)>, blocked: bool)

  const EMPTY := Desk([], [], [], [], false)

  datatype Step =
    | Ask                    // wait makes its channel and queues
    | Deliver(text: string)  // the whole of deliver
    | Receive(t: nat)        // the select takes the reply
    | Expire(t: nat)         // the select takes the timeout
    | Leave(t: nat)          // the locked rest of wait after a timeout

  predicate In(d: Desk, t: nat, phase: Phase) {
    t < |d.phases| && d.phases[t] == phase
  }

  function Without(waiters: seq<nat>, t: nat): seq<nat> {
    if waiters == [] then []
    else if waiters[0] == t then waiters[1..]
    else [waiters[0]] + Without(waiters[1..], t)
  }

  // The reply is taken out of call t's channel and returned.
  function Take(d: Desk, t: nat): Desk
    requires t < |d.phases| && t < |d.slots| && d.slots[t].Some?
  {
    d.(phases := d.phases[t := Answered(d.slots[t].value)], slots := d.slots[t := None])
  }

  function Next(d: Desk, s: Step): Desk {
    match s
    case Ask =>
      d.(phases := d.phases + [Waiting], slots := d.slots + [None], waiters := d.waiters + [|d.phases|])
    case Deliver(text) =>
      if d.waiters == [] then d
      else
        var t := d.waiters[0];
        var rest := d.(waiters := d.waiters[1..]);
        if t >= |d.slots| || d.slots[t].Some? then rest.(blocked := true)
        else rest.(slots := d.slots[t := Some(text)], accepted := d.accepted + [(t, text)])
    case Receive(t) =>
      if In(d, t, Waiting) && t < |d.slots| && d.slots[t].Some? then Take(d, t) else d
    case Expire(t) =>
      if In(d, t, Waiting) then d.(phases := d.phases[t := TimedOut]) else d
    case Leave(t) =>
      if !In(d, t, TimedOut) then d
      else if t in d.waiters then d.(phases := d.phases[t := NoAnswer], waiters := Without(d.waiters, t))
      else if t < |d.slots| && d.slots[t].Some? then Take(d, t)
      else d.(blocked := true)
  }

  function Run(steps: seq<Step>): Desk {
    if steps == [] then EMPTY else Next(Run(steps[..|steps| - 1]), steps[|steps| - 1])
  }

  ghost predicate Increasing(s: seq<nat>) {
    forall i, j :: 0 <= i < j < |s| ==> s[i] < s[j]
  }

  // A call is in the queue exactly while it has neither returned nor been given
  // a reply; a reply on its way sits in the slot.
  ghost predicate Consistent(d: Desk) {
    && |d.slots| == |d.phases| && !d.blocked
    && Increasing(d.waiters)
    && (forall t :: t in d.waiters ==> t < |d.phases| && d.slots[t].None? && (d.phases[t].Waiting? || d.phases[t].TimedOut?))
    && (forall t :: 0 <= t < |d.phases| && t !in d.waiters ==>
          (d.slots[t].Some? <==> d.phases[t].Waiting? || d.phases[t].TimedOut?))
  }

  // Every accepted reply is in its call's slot or has been returned by that
  // call, and nothing else is; calls are served in the order they queued.
  ghost predicate Accounted(d: Desk) {
    && |d.slots| == |d.phases|
    && (forall i, j :: 0 <= i < j < |d.accepted| ==> d.accepted[i].0 < d.accepted[j].0)
    && (forall i, t :: 0 <= i < |d.accepted| && t in d.waiters ==> d.accepted[i].0 < t)
    && (forall i :: 0 <= i < |d.accepted| ==> d.accepted[i].0 < |d.phases| && Holds(d, d.accepted[i].0, d.accepted[i].1))
    && (forall t, x :: 0 <= t < |d.phases| && Holds(d, t, x) ==> (t, x) in d.accepted)
  }

  predicate Holds(d: Desk, t: nat, x: string)
    requires t < |d.phases| == |d.slots|
  {
    d.slots[t] == Some(x) || d.phases[t] == Answered(x)
  }

  lemma {:induction false} WithoutIs(s: seq<nat>, t: nat)
    requires Increasing(s) && t in s
    ensures Increasing(Without(s, t))
    ensures forall x :: x in Without(s, t) <==> x in s && x != t
    decreases |s|
  {
    HeadIsLeast(s);
    if s[0] != t {
      WithoutIs(s[1..], t);
      ConsIncreases(s[0], Without(s[1..], t));
    }
  }

  // Without cuts out the first occurrence.
  lemma {:induction false} WithoutAt(s: seq<nat>, i: nat)
    requires i < |s| && s[i] !in s[..i]
    ensures Without(s, s[i]) == s[..i] + s[i + 1..]
    decreases i
  {
    if i > 0 {
      assert s[0] in s[..i] && s[1..][..i - 1] == s[1..i];
      assert forall x :: x in s[1..i] ==> x in s[..i];
      WithoutAt(s[1..], i - 1);
      assert s[..i] == [s[0]] + s[1..i] && s[1..][i..] == s[i + 1..];
    }
  }

  lemma ConsIncreases(x: nat, s: seq<nat>)
    requires Increasing(s) && forall y :: y in s ==> x < y
    ensures Increasing([x] + s) && forall y :: y in [x] + s <==> y == x || y in s
  {
    forall i | 0 <= i < |s|
      ensures x < s[i]
    {
      assert s[i] in s;
    }
  }

  lemma HeadIsLeast(s: seq<nat>)
    requires Increasing(s) && s != []
    ensures Increasing(s[1..])
    ensures s[0] in s && forall x :: x in s <==> x == s[0] || x in s[1..]
    ensures forall x :: x in s[1..] ==> s[0] < x
  {
  }

  lemma AskKeeps(d: Desk)
    requires Consistent(d) && Accounted(d)
    ensures Consistent(Next(d, Ask)) && Accounted(Next(d, Ask))
  {
    var t := |d.phases|;
    forall i | 0 <= i < |d.waiters|
      ensures d.waiters[i] < t
    {
      assert d.waiters[i] in d.waiters;
    }
    var u := Next(d, Ask);
    assert forall k, x :: 0 <= k < t ==> Holds(u, k, x) == Holds(d, k, x);
  }

  lemma DeliverKeepsConsistent(d: Desk, text: string)
    requires Consistent(d) && d.waiters != []
    ensures Consistent(Next(d, Deliver(text)))
    ensures d.waiters[0] < |d.slots| && d.slots[d.waiters[0]].None?
  {
    HeadIsLeast(d.waiters);
  }

  lemma DeliverKeepsAccounted(d: Desk, text: string)
    requires Accounted(d) && Increasing(d.waiters) && d.waiters != []
    requires d.waiters[0] < |d.phases| && d.slots[d.waiters[0]].None? && !d.phases[d.waiters[0]].Answered?
    ensures Accounted(Next(d, Deliver(text)))
  {
    var t := d.waiters[0];
    HeadIsLeast(d.waiters);
    var u := Next(d, Deliver(text));
    assert forall k, x :: 0 <= k < |d.phases| && k != t ==> Holds(u, k, x) == Holds(d, k, x);
    assert forall x :: Holds(u, t, x) <==> x == text;
  }

  // A reply that is taken moves from the slot to the return value.
  lemma TakeKeeps(d: Desk, t: nat)
    requires Consistent(d) && Accounted(d)
    requires t < |d.phases| && d.slots[t].Some? && t !in d.waiters
    ensures Consistent(Take(d, t)) && Accounted(Take(d, t))
  {
    var u := Take(d, t);
    assert forall k, x :: 0 <= k < |d.phases| ==> Holds(u, k, x) == Holds(d, k, x);
  }

  lemma ExpireKeeps(d: Desk, t: nat)
    requires Consistent(d) && Accounted(d) && In(d, t, Waiting)
    ensures Consistent(Next(d, Expire(t))) && Accounted(Next(d, Expire(t)))
  {
    var u := Next(d, Expire(t));
    assert forall k, x :: 0 <= k < |d.phases| ==> Holds(u, k, x) == Holds(d, k, x);
  }

  // A call that has not been given a reply may leave the queue for good.
  lemma LeaveKeeps(d: Desk, t: nat)
    requires Consistent(d) && Accounted(d) && In(d, t, TimedOut) && t in d.waiters
    ensures Consistent(Next(d, Leave(t))) && Accounted(Next(d, Leave(t)))
  {
    WithoutIs(d.waiters, t);
    var u := Next(d, Leave(t));
    assert forall k, x :: 0 <= k < |d.phases| ==> Holds(u, k, x) == Holds(d, k, x);
  }

  lemma NextKeeps(d: Desk, s: Step)
    requires Consistent(d) && Accounted(d)
    ensures Consistent(Next(d, s)) && Accounted(Next(d, s))
  {
    match s {
      case Ask => AskKeeps(d);
      case Deliver(text) =>
        if d.waiters != [] {
          DeliverKeepsConsistent(d, text);
          assert d.waiters[0] in d.waiters;
          DeliverKeepsAccounted(d, text);
        }
      case Receive(t) => if In(d, t, Waiting) && d.slots[t].Some? { TakeKeeps(d, t); }
      case Expire(t) => if In(d, t, Waiting) { ExpireKeeps(d, t); }
      case Leave(t) =>
        if In(d, t, TimedOut) {
          if t in d.waiters {
            LeaveKeeps(d, t);
          } else {
            TakeKeeps(d, t);
          }
        }
    }
  }

  lemma {:induction false} RunInvariant(steps: seq<Step>)
    ensures Consistent(Run(steps)) && Accounted(Run(steps))
    decreases |steps|
  {
    if steps != [] {
      RunInvariant(steps[..|steps| - 1]);
      NextKeeps(Run(steps[..|steps| - 1]), steps[|steps| - 1]);
    }
  }

  // In every run no step blocks while holding the lock, and no channel is sent
  // to twice: a call that times out and is no longer queued finds its reply.
  lemma NeverBlocks(steps: seq<Step>)
    ensures var d := Run(steps);
            && !d.blocked
            && (forall i, j :: 0 <= i < j < |d.accepted| ==> d.accepted[i].0 != d.accepted[j].0)
            && (forall t: nat :: In(d, t, TimedOut) && t !in d.waiters ==> t < |d.slots| && d.slots[t].Some?)
  {
    RunInvariant(steps);
  }

  // Once no wait is going on, the replies accepted are the replies returned, each
  // by the one call it was for; and a call that returned without an answer was
  // never given one.
  lemma NothingLost(steps: seq<Step>)
    requires forall t: nat :: !In(Run(steps), t, Waiting) && !In(Run(steps), t, TimedOut)
    ensures var d := Run(steps);
            && (forall t: nat, x :: (t, x) in d.accepted <==> In(d, t, Answered(x)))
            && (forall t: nat, x :: In(d, t, NoAnswer) ==> (t, x) !in d.accepted)
            && forall i, j :: 0 <= i < j < |d.accepted| ==> d.accepted[i].0 < d.accepted[j].0
  {
    RunInvariant(steps);
    var d := Run(steps);
    forall t: nat, x | (t, x) in d.accepted
      ensures In(d, t, Answered(x))
    {
      var i :| 0 <= i < |d.accepted| && d.accepted[i] == (t, x);
      assert Holds(d, d.accepted[i].0, d.accepted[i].1);
      assert !In(d, t, Waiting) && !In(d, t, TimedOut);
    }
    forall t: nat, x | In(d, t, Answered(x))
      ensures (t, x) in d.accepted
    {
      assert Holds(d, t, x);
    }
  }

  // Calls still without a reply.
  ghost function Open(d: Desk): set<nat> {
    set t: nat | t < |d.phases| && t < |d.slots| && d.slots[t].None? && (d.phases[t].Waiting? || d.phases[t].TimedOut?)
  }

  // At any moment of any run: a delivery is accepted exactly when some call is
  // still without a reply, and it goes to the one that queued first.
  lemma OldestIsServed(steps: seq<Step>, text: string)
    ensures var d, u := Run(steps), Next(Run(steps), Deliver(text));
            && (Open(d) == {} <==> u == d)
            && (Open(d) != {} ==> exists t :: t in Open(d) && (forall k :: k in Open(d) ==> t <= k)
                                    && u.accepted == d.accepted + [(t, text)] && u.slots[t] == Some(text))
  {
    RunInvariant(steps);
    var d := Run(steps);
    assert forall t :: t in Open(d) <==> t in d.waiters;
    if d.waiters == [] {
      assert Open(d) == {};
    } else {
      HeadIsLeast(d.waiters);
      assert d.waiters[0] in Open(d);
    }
  }
}
