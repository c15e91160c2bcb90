// The registry as the program keeps it: a slice of guest objects, each locked
// region a method proved against SessionSpec. Sockets are left out: a failed
// send is an argument, a warning or an announcement is a result.
module RegistryModel {
  import opened Common
  import opened Names
  import opened SessionSpec

  const ACTIVITY_INTERVAL: int := 2_000_000_000

  // The zero time.Time, of the year 1, in nanoseconds since 1970.
  const ZERO_TIME: int := -62_135_596_800_000_000_000

  class Guest {
    ghost const id: nat
    const Name: string
    var Writable: bool
    const JoinedAt: int
    var warnedRO: bool
    var lastActivity: int

    constructor (ghost id: nat, name: string, writable: bool, joinedAt: int)
      ensures Value() == Member(id, name, writable) && JoinedAt == joinedAt
      ensures !warnedRO && lastActivity == ZERO_TIME
    {
      this.id, Name, Writable, JoinedAt, warnedRO, lastActivity := id, name, writable, joinedAt, false, ZERO_TIME;
    }

    ghost function Value(): Member
      reads this
    {
      Member(id, Name, Writable)
    }
  }

  // after is before without its first g, in the same order.
  ghost predicate Without(before: seq<Guest>, g: Guest, after: seq<Guest>) {
    if g in before
    then exists i :: 0 <= i < |before| && before[i] == g && g !in before[..i] && after == before[..i] + before[i + 1..]
    else after == before
  }

  // What became of a guest's keystrokes.
  datatype Handling = Passed(who: string, data: seq<Byte>, announce: bool) | Warned | Dropped

  class Registry {
    var guests: seq<Guest>
    const defaultWritable: bool
    ghost var joined: nat

    ghost function Members(): (ms: seq<Member>)
      reads this, guests
      ensures |ms| == |guests| && forall i :: 0 <= i < |guests| ==> ms[i] == guests[i].Value()
    {
      seq(|guests|, i requires 0 <= i < |guests| reads this, guests => guests[i].Value())
    }

    ghost function View(): Session
      reads this, guests
    {
      Session(Members(), joined, defaultWritable)
    }

    ghost predicate Valid()
      reads this, guests
    {
      Sound(View())
    }

    constructor (defaultWritable: bool)
      ensures Valid() && View() == Session([], 0, defaultWritable)
    {
      guests, joined := [], 0;
      this.defaultWritable := defaultWritable;
    }

    method FindLocked(name: string) returns (g: Guest?, ghost i: nat)
      ensures i == Find(Members(), name)
      ensures g != null <==> i < |guests|
      ensures g != null ==> g == guests[i] && g.Name == name
      ensures g == null <==> forall h :: h in guests ==> h.Name != name
    {
      var k := 0;
      while k < |guests|
        invariant 0 <= k <= |guests|
        invariant forall j :: 0 <= j < k ==> guests[j].Name != name
      {
        if guests[k].Name == name {
          FindIs(Members(), name, k);
          return guests[k], k;
        }
        k := k + 1;
      }
      FindIs(Members(), name, k);
      return null, k;
    }

    method Join(requested: string, now: int) returns (g: Guest)
      requires Valid()
      modifies this
      ensures Valid() && View() == Next(old(View()), SessionSpec.Join(requested))
      ensures fresh(g) && guests == old(guests) + [g] && g.id == old(joined)
      ensures Members() == old(Members()) + [Member(old(joined), g.Name, defaultWritable)]
      ensures FirstFree(Sanitize(requested), old(NamesOf(Members())), g.Name)
      ensures g.JoinedAt == now && !g.warnedRO && g.lastActivity == ZERO_TIME
    {
      var name := Unused(Sanitize(requested));
      ghost var before := View();
      NextKeepsSound(before, SessionSpec.Join(requested));
      g := new Guest(joined, name, defaultWritable, now);
      guests := guests + [g];
      joined := joined + 1;
      assert Members() == before.members + [g.Value()];
    }

    // The loop of Join. It ends because as many candidates as there are guests
    // cannot all be taken.
    method Unused(base: string) returns (name: string)
      ensures name == FreeName(base, NamesOf(Members()))
    {
      ghost var taken := NamesOf(Members());
      name := base;
      var n := 2;
      var holder, i := FindLocked(name);
      NameIsTaken(name);
      while holder != null
        invariant n >= 2 && name == Candidate(base, n - 1) && AllTaken(base, taken, n - 2)
        invariant holder != null <==> name in taken
        invariant NamesOf(Members()) == taken
        decreases |taken| + 2 - n
      {
        TakenFit(base, taken, n - 1);
        name := base + "-" + Decimal(n);
        n := n + 1;
        holder, i := FindLocked(name);
        NameIsTaken(name);
      }
      FreeNameIsLeast(base, taken, n - 1);
    }

    lemma NameIsTaken(name: string)
      ensures name in NamesOf(Members()) <==> Find(Members(), name) < |guests|
    {
      var ms := Members();
      var i := Find(ms, name);
      if i < |ms| {
        assert ms[i].name in NamesOf(ms);
      }
    }

    // Idempotent: a guest that is no longer listed is no longer removed.
    method Leave(g: Guest)
      requires Valid() && (g in guests || forall h :: h in guests ==> h.id != g.id)
      modifies this`guests
      ensures Valid() && View() == Next(old(View()), SessionSpec.Leave(g.id))
      ensures Without(old(guests), g, guests)
    {
      NextKeepsSound(View(), SessionSpec.Leave(g.id));
      var i := 0;
      while i < |guests|
        invariant 0 <= i <= |guests| && g !in guests[..i]
        invariant View() == old(View()) && guests == old(guests)
      {
        if guests[i] == g {
          GoneFrom(g, i);
          guests := guests[..i] + guests[i + 1..];
          assert Members() == old(Members())[..i] + old(Members())[i + 1..];
          return;
        }
        i := i + 1;
      }
      assert guests[..i] == guests;
      GoneFrom(g, i);
    }

    lemma GoneFrom(g: Guest, i: nat)
      requires Valid() && i <= |guests| && g !in guests[..i] && (i < |guests| ==> guests[i] == g)
      requires g in guests || forall h :: h in guests ==> h.id != g.id
      ensures Left(Members(), g.id) == if i < |guests| then Members()[..i] + Members()[i + 1..] else Members()
    {
      var ms := Members();
      forall k | 0 <= k < i
        ensures ms[k].id != g.id
      {
        assert guests[k] in guests[..i] && guests[k] in guests;
        if g in guests {
          var j :| 0 <= j < |guests| && guests[j] == g;
          assert ms[j].id == g.id;
        }
      }
      LeftAt(ms, g.id, i);
    }

    method CloseAll()
      requires Valid()
      modifies this`guests
      ensures Valid() && View() == Next(old(View()), SessionSpec.CloseAll) && guests == []
    {
      guests := [];
    }

    method HandleInput(g: Guest, data: seq<Byte>, now: int) returns (h: Handling)
      modifies g`warnedRO, g`lastActivity
      ensures h.Passed? <==> g.Writable
      ensures h.Passed? ==> h == Passed(g.Name, data, now - old(g.lastActivity) > ACTIVITY_INTERVAL)
      ensures h.Warned? <==> !g.Writable && !old(g.warnedRO)
      ensures g.warnedRO == (old(g.warnedRO) || !g.Writable)
      ensures g.lastActivity == if h.Passed? && h.announce then now else old(g.lastActivity)
    {
      var writable := g.Writable;
      var warned := g.warnedRO;
      if !writable {
        g.warnedRO := true;
      }
      var announce := false;
      if writable && now - g.lastActivity > ACTIVITY_INTERVAL {
        g.lastActivity := now;
        announce := true;
      }
      if writable {
        return Passed(g.Name, data, announce);
      }
      return if warned then Dropped else Warned;
    }

    // allow and deny, and whether anyone has the name.
    method Grant(name: string, writable: bool) returns (ok: bool)
      requires Valid()
      modifies guests
      ensures Valid()
      ensures View() == Next(old(View()), if writable then Allow(name) else Deny(name))
      ensures ok <==> name in old(NamesOf(Members()))
      ensures Permitted(old(Members()), Members(), name, writable)
    {
      NextIs(View(), if writable then Allow(name) else Deny(name));
      NextKeepsSound(View(), if writable then Allow(name) else Deny(name));
      NameIsTaken(name);
      var g, i := FindLocked(name);
      ok := g != null;
      if g != null {
        SetWritable(g, i, writable);
      }
    }

    method SetWritable(g: Guest, ghost i: nat, writable: bool)
      requires Valid() && i < |guests| && guests[i] == g
      modifies g
      ensures Members() == old(Members())[i := old(Members())[i].(writable := writable)]
      ensures g.warnedRO == (old(g.warnedRO) && !writable)
    {
      ghost var before := Members();
      assert forall k :: 0 <= k < |guests| && k != i ==> before[k].id == guests[k].id && before[k].id != before[i].id;
      g.Writable := writable;
      if writable {
        g.warnedRO := false;
      }
    }

    method Kick(name: string) returns (ok: bool)
      requires Valid()
      modifies this`guests
      ensures Valid()
      ensures ok <==> name in old(NamesOf(Members()))
      ensures View() == if ok then Next(old(View()), SessionSpec.Leave(old(Members())[Find(old(Members()), name)].id))
                        else old(View())
      ensures if ok then exists g :: g in old(guests) && g.Name == name && Without(old(guests), g, guests)
              else guests == old(guests)
    {
      NameIsTaken(name);
      var g, i := FindLocked(name);
      ok := g != null;
      if g != null {
        Leave(g);
      }
    }
  }
}
