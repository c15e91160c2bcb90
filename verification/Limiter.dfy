// The limiter as the program keeps it: one slice of times per sender, filtered
// in place over its own backing array.
module LimiterModel {
  import opened Common
  import opened LimiterSpec

  // A Go slice: the first length elements of its backing array.
  datatype Slice = Slice(buf: array<int>, length: nat)

  class SayLimiter {
    var recent: map<string, Slice>

    ghost function Buffers(): set<object>
      reads this
    {
      set w | w in recent :: recent[w].buf
    }

    // Slices fit their arrays, and no two senders share one.
    ghost predicate Valid()
      reads this
    {
      && (forall w :: w in recent ==> recent[w].length <= recent[w].buf.Length)
      && (forall v, w :: v in recent && w in recent && v != w ==> recent[v].buf != recent[w].buf)
    }

    ghost function View(): map<string, seq<int>>
      requires Valid()
      reads this, Buffers()
    {
      map w | w in recent :: recent[w].buf[..recent[w].length]
    }

    constructor ()
      ensures Valid() && View() == map[]
    {
      recent := map[];
    }

    method Allow(who: string, now: int) returns (ok: bool)
      requires Valid()
      modifies this, Buffers()
      ensures Valid()
      ensures ok == LimiterSpec.Allow(LogOf(old(View()), who), now).1
      ensures View() == old(View())[who := LimiterSpec.Allow(LogOf(old(View()), who), now).0]
      ensures Limits(LogOf(old(View()), who), now, View()[who], ok)
    {
      ghost var before := View();
      var slice := Lookup(who);
      var kept: Slice;
      kept, ok := AllowOne(slice, now);
      OthersKept(who);
      ghost var between := View();
      assert forall w :: w in recent && w != who ==> recent[w].buf != kept.buf;
      Store(who, kept);
      SetHidesDifference(between, before, who, View()[who]);
      AllowLimits(LogOf(before, who), now);
    }

    method Lookup(who: string) returns (slice: Slice)
      requires Valid()
      ensures slice.length <= slice.buf.Length && slice.buf[..slice.length] == LogOf(View(), who)
      ensures who in recent ==> slice == recent[who]
      ensures who !in recent ==> fresh(slice.buf)
    {
      if who in recent {
        slice := recent[who];
      } else {
        var none := new int[0];
        slice := Slice(none, 0);
      }
    }

    // Senders do not share an array, so filtering one log leaves the others.
    twostate lemma OthersKept(who: string)
      requires old(Valid()) && recent == old(recent)
      requires forall b: array<int> :: b in old(Buffers()) && (who in recent ==> b != recent[who].buf) ==> b[..] == old(b[..])
      ensures View().Keys == old(View()).Keys
      ensures forall w :: w in recent && w != who ==> View()[w] == old(View())[w]
    {
      forall w | w in recent && w != who
        ensures View()[w] == old(View())[w]
      {
        var b := recent[w].buf;
        assert b in Buffers();
        assert b[..] == old(b[..]);
        assert b[..recent[w].length] == b[..][..recent[w].length];
        assert old(b[..recent[w].length]) == old(b[..])[..recent[w].length];
      }
    }

    method Store(who: string, slice: Slice)
      requires Valid() && slice.length <= slice.buf.Length
      requires forall w :: w in recent && w != who ==> recent[w].buf != slice.buf
      modifies this`recent
      ensures Valid()
      ensures View() == old(View())[who := slice.buf[..slice.length]]
    {
      recent := recent[who := slice];
    }
  }

  lemma SetHidesDifference(m: map<string, seq<int>>, n: map<string, seq<int>>, k: string, v: seq<int>)
    requires m.Keys == n.Keys && forall w :: w in m && w != k ==> m[w] == n[w]
    ensures m[k := v] == n[k := v]
  {
  }

  // What allow does to the slice of one sender.
  method AllowOne(s: Slice, now: int) returns (t: Slice, ok: bool)
    requires s.length <= s.buf.Length
    modifies s.buf
    ensures t.buf == s.buf || fresh(t.buf)
    ensures t.length <= t.buf.Length
    ensures (t.buf[..t.length], ok) == LimiterSpec.Allow(old(s.buf[..s.length]), now)
  {
    t := Prune(s, now);
    ok := t.length < BURST;
    if ok {
      t := Append(t, now);
    }
  }

  // kept := s[:0], and then every entry that is recent enough appended to it:
  // reading runs ahead of writing in the same array.
  method Prune(s: Slice, now: int) returns (kept: Slice)
    requires s.length <= s.buf.Length
    modifies s.buf
    ensures kept.buf == s.buf && kept.length <= s.length
    ensures kept.buf[..kept.length] == Kept(old(s.buf[..s.length]), now)
    ensures kept.length == |Recent(old(s.buf[..s.length]), now)|
  {
    ghost var log := s.buf[..s.length];
    kept := Slice(s.buf, 0);
    var i := 0;
    while i < s.length
      invariant 0 <= i <= s.length && kept.buf == s.buf && kept.length <= i
      invariant s.buf[..kept.length] == Kept(log[..i], now)
      invariant forall k :: i <= k < s.length ==> s.buf[k] == log[k]
    {
      var t := s.buf[i];
      assert log[..i + 1][..i] == log[..i];
      if now - t < WINDOW {
        s.buf[kept.length] := t;
        kept := Slice(s.buf, kept.length + 1);
      }
      i := i + 1;
    }
    assert log[..i] == log;
    KeptCount(log, now);
  }

  // append: in place while the array has room, in a larger copy otherwise.
  method Append(s: Slice, x: int) returns (t: Slice)
    requires s.length <= s.buf.Length
    modifies s.buf
    ensures t.buf == s.buf || fresh(t.buf)
    ensures t.length <= t.buf.Length
    ensures t.buf[..t.length] == old(s.buf[..s.length]) + [x]
  {
    var buf := s.buf;
    if s.length == s.buf.Length {
      buf := new int[2 * s.length + 1];
      var i := 0;
      while i < s.length
        invariant 0 <= i <= s.length
        invariant buf[..i] == s.buf[..i]
        invariant s.buf[..] == old(s.buf[..])
      {
        buf[i] := s.buf[i];
        i := i + 1;
      }
    }
    buf[s.length] := x;
    t := Slice(buf, s.length + 1);
  }
}
