// The queue as the program keeps it: one-slot channels in a slice of waiters,
// each locked region a method proved against AnswersSpec. A send or receive that
// would block has no meaning here, so that none can is part of the proof.
module AnswersModel {
  import opened Common
  import opened AnswersSpec

  // A channel of capacity one, owned by one call of wait.
  class Channel {
    ghost const ticket: nat
    var slot: Option<string>

    constructor (ghost ticket: nat)
      ensures this.ticket == ticket && slot == None
    {
      this.ticket := ticket;
      slot := None;
    }

    method Send(text: string)
      requires slot.None?
      modifies this
      ensures slot == Some(text)
    {
      slot := Some(text);
    }

    method Receive() returns (text: string)
      requires slot.Some?
      modifies this
      ensures old(slot) == Some(text) && slot == None
    {
      text := slot.value;
      slot := None;
    }
  }

  ghost function Tickets(ws: seq<Channel>): (ts: seq<nat>)
    ensures |ts| == |ws| && forall i :: 0 <= i < |ws| ==> ts[i] == ws[i].ticket
  {
    seq(|ws|, i requires 0 <= i < |ws| => ws[i].ticket)
  }

  ghost function Slots(cs: seq<Channel>): (ss: seq<Option<string>>)
    reads cs
    ensures |ss| == |cs| && forall i :: 0 <= i < |cs| ==> ss[i] == cs[i].slot
  {
    if cs == [] then [] else Slots(cs[..|cs| - 1]) + [cs[|cs| - 1].slot]
  }

  class Answers {
    var waiters: seq<Channel>
    // The history of the protocol: every call's channel and phase, and what was
    // accepted.
    ghost var calls: seq<Channel>
    ghost var phases: seq<Phase>
    ghost var accepted: seq<(nat, string)>

    ghost function View(): Desk
      reads this, calls
    {
      Desk(phases, Slots(calls), Tickets(waiters), accepted, false)
    }

    // How the objects hang together. What is kept beyond that is kept by every
    // step of the protocol (AnswersSpec.NextKeeps).
    ghost predicate Wired()
      reads this
    {
      && |calls| == |phases|
      && (forall i :: 0 <= i < |calls| ==> calls[i].ticket == i)
      && (forall ch :: ch in waiters ==> ch.ticket < |calls| && calls[ch.ticket] == ch)
    }

    constructor ()
      ensures Wired() && View() == EMPTY
    {
      waiters, calls, phases, accepted := [], [], [], [];
    }

    // A change to one channel is a change to one slot of the view.
    twostate lemma OneSlotChanged(n: nat)
      requires calls == old(calls) && n < |calls|
      requires forall i :: 0 <= i < |calls| ==> calls[i].ticket == i
      requires forall ch: Channel :: ch in calls && ch != calls[n] ==> ch.slot == old(ch.slot)
      ensures Slots(calls) == old(Slots(calls))[n := calls[n].slot]
    {
      forall i | 0 <= i < |calls| && i != n
        ensures calls[i].slot == old(calls[i].slot)
      {
        assert calls[i] in calls && calls[i].ticket != calls[n].ticket;
      }
    }

    // wait, up to its select.
    method Enqueue() returns (ch: Channel)
      requires Wired()
      modifies this
      ensures Wired() && View() == Next(old(View()), Ask)
      ensures fresh(ch) && calls == old(calls) + [ch] && ch.ticket == |old(calls)|
      ensures waiters == old(waiters) + [ch] && ch.slot == None
    {
      ghost var d := View();
      ch := new Channel(|phases|);
      assert View() == d;
      waiters := waiters + [ch];
      calls, phases := calls + [ch], phases + [Waiting];
      assert calls[..|calls| - 1] == old(calls);
      assert View().slots == d.slots + [None];
      assert View().waiters == d.waiters + [|d.phases|];
    }

    method Deliver(text: string) returns (ok: bool)
      requires Wired() && Consistent(View())
      modifies this`waiters, this`accepted, calls
      ensures Wired() && View() == Next(old(View()), AnswersSpec.Deliver(text))
      ensures ok <==> old(waiters) != []
      ensures if ok then waiters == old(waiters)[1..] && old(waiters)[0].slot == Some(text) else waiters == []
    {
      if |waiters| == 0 {
        return false;
      }
      HeadIsFree();
      HandOver(text);
      return true;
    }

    lemma HeadIsFree()
      requires Wired() && Consistent(View()) && waiters != []
      ensures waiters[0] in calls && waiters[0].slot.None?
    {
      var ch := waiters[0];
      assert ch in waiters && Tickets(waiters)[0] == ch.ticket && ch.ticket in View().waiters;
      assert Slots(calls)[ch.ticket] == ch.slot;
    }

    // The oldest waiter leaves the queue with the reply in its channel.
    method HandOver(text: string)
      requires Wired() && waiters != [] && waiters[0] in calls && waiters[0].slot.None?
      modifies this`waiters, this`accepted, calls
      ensures Wired() && View() == Next(old(View()), AnswersSpec.Deliver(text))
      ensures waiters == old(waiters)[1..] && old(waiters)[0].slot == Some(text)
    {
      var ch := waiters[0];
      ghost var d := View();
      assert ch in waiters && calls[ch.ticket] == ch;
      assert d.waiters[0] == ch.ticket && d.slots[ch.ticket] == None;
      assert Tickets(waiters[1..]) == d.waiters[1..];
      ch.Send(text);
      OneSlotChanged(ch.ticket);
      waiters := waiters[1..];
      accepted := accepted + [(ch.ticket, text)];
      assert View() == Desk(d.phases, d.slots[ch.ticket := Some(text)], d.waiters[1..],
                            d.accepted + [(ch.ticket, text)], false);
    }

    // The select of wait takes the reply.
    method Receive(ch: Channel) returns (text: string)
      requires Wired() && ch in calls && In(View(), ch.ticket, Waiting) && ch.slot.Some?
      modifies this`phases, ch
      ensures Wired() && View() == Next(old(View()), AnswersSpec.Receive(ch.ticket))
      ensures In(View(), ch.ticket, Answered(text))
      ensures old(ch.slot) == Some(text) && ch.slot == None
    {
      text := ch.Receive();
      OneSlotChanged(ch.ticket);
      phases := phases[ch.ticket := Answered(text)];
    }

    // The select of wait takes the timeout: nothing but its phase changes.
    ghost method Expire(ch: Channel)
      requires Wired() && ch in calls && In(View(), ch.ticket, Waiting)
      modifies this`phases
      ensures Wired() && View() == Next(old(View()), AnswersSpec.Expire(ch.ticket))
    {
      phases := phases[ch.ticket := TimedOut];
    }

    // The rest of wait after its timeout: out of the queue if still in it, and
    // otherwise the reply that was delivered meanwhile.
    method GiveUp(ch: Channel) returns (text: Option<string>)
      requires Wired() && Consistent(View()) && ch in calls && In(View(), ch.ticket, TimedOut)
      modifies this`waiters, this`phases, ch
      ensures Wired() && View() == Next(old(View()), Leave(ch.ticket))
      ensures In(View(), ch.ticket, if text.Some? then Answered(text.value) else NoAnswer)
      ensures text == if ch in old(waiters) then None else old(ch.slot)
    {
      var i := Find(ch);
      if i < |waiters| {
        LeaveQueue(ch, i);
        text := None;
      } else {
        NotQueued(ch);
        var reply := TakeLate(ch);
        text := Some(reply);
      }
    }

    // Where ch stands in the queue, or the queue's length.
    method Find(ch: Channel) returns (i: nat)
      ensures i <= |waiters| && ch !in waiters[..i] && (i < |waiters| ==> waiters[i] == ch)
    {
      i := 0;
      while i < |waiters| && waiters[i] != ch
        invariant 0 <= i <= |waiters| && ch !in waiters[..i]
      {
        i := i + 1;
      }
    }

    method LeaveQueue(ch: Channel, i: nat)
      requires Wired() && i < |waiters| && waiters[i] == ch && ch !in waiters[..i] && In(View(), ch.ticket, TimedOut)
      modifies this`waiters, this`phases
      ensures Wired() && View() == Next(old(View()), Leave(ch.ticket))
      ensures In(View(), ch.ticket, NoAnswer)
    {
      ghost var d := View();
      CutTicket(i);
      assert Next(d, Leave(ch.ticket))
          == d.(phases := d.phases[ch.ticket := NoAnswer], waiters := Without(d.waiters, ch.ticket));
      waiters := waiters[..i] + waiters[i + 1..];
      phases := phases[ch.ticket := NoAnswer];
      assert View().slots == d.slots;
    }

    // Cutting a waiter out of the slice takes its ticket out of the queue.
    lemma CutTicket(i: nat)
      requires Wired() && i < |waiters| && waiters[i] !in waiters[..i]
      ensures waiters[i].ticket in Tickets(waiters)
      ensures Tickets(waiters[..i] + waiters[i + 1..]) == Without(Tickets(waiters), waiters[i].ticket)
    {
      var ts := Tickets(waiters);
      assert forall k :: 0 <= k < i ==> waiters[k] in waiters && waiters[k] in waiters[..i];
      assert waiters[i] in waiters;
      assert ts[i] == waiters[i].ticket && forall k :: 0 <= k < i ==> ts[k] != ts[i];
      WithoutAt(ts, i);
      assert Tickets(waiters[..i] + waiters[i + 1..]) == ts[..i] + ts[i + 1..];
    }

    lemma NotQueued(ch: Channel)
      requires Wired() && Consistent(View()) && ch in calls && In(View(), ch.ticket, TimedOut)
      requires ch !in waiters[..|waiters|]
      ensures ch.ticket !in View().waiters && ch.slot.Some? && calls[ch.ticket] == ch
    {
      assert waiters[..|waiters|] == waiters;
      assert forall k :: 0 <= k < |waiters| ==> waiters[k] in waiters && waiters[k].ticket != ch.ticket;
      assert Slots(calls)[ch.ticket] == ch.slot;
    }

    method TakeLate(ch: Channel) returns (reply: string)
      requires Wired() && ch.ticket < |calls| && calls[ch.ticket] == ch && ch.slot.Some?
      requires In(View(), ch.ticket, TimedOut) && ch.ticket !in View().waiters
      modifies this`phases, ch
      ensures Wired() && View() == Next(old(View()), Leave(ch.ticket))
      ensures In(View(), ch.ticket, Answered(reply))
    {
      ghost var d := View();
      assert d.slots[ch.ticket] == ch.slot;
      assert Next(d, Leave(ch.ticket)) == AnswersSpec.Take(d, ch.ticket);
      reply := ch.Receive();
      OneSlotChanged(ch.ticket);
      phases := phases[ch.ticket := Answered(reply)];
    }
  }
}
