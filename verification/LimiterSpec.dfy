// The sliding-window limiter of internal/host/say.go, and why its pruned log is
// as good as the full history.
module LimiterSpec {
  import opened Common

  const BURST: nat := 5
  const WINDOW: int := 10_000_000_000

  // The entries under ten seconds old, in order.
  function Kept(log: seq<int>, now: int): seq<int> {
    if log == [] then [] else
      var t := log[|log| - 1];
      Kept(log[..|log| - 1], now) + (if now - t < WINDOW then [t] else [])
  }

  // The log after an attempt, and whether the message may be sent.
  function Allow(log: seq<int>, now: int): (seq<int>, bool) {
    var kept := Kept(log, now);
    if |kept| >= BURST then (kept, false) else (kept + [now], true)
  }

  // What an attempt does to a log: it passes exactly when fewer than five entries
  // are recent; those stay, as many of each as there are, and its own is added if
  // it passes.
  ghost predicate Limits(log: seq<int>, now: int, after: seq<int>, ok: bool) {
    && (ok <==> |Recent(log, now)| < BURST)
    && |after| == |Recent(log, now)| + (if ok then 1 else 0)
    && forall t :: multiset(after)[t] ==
         (if now - t < WINDOW then multiset(log)[t] else 0) + (if ok && t == now then 1 else 0)
  }

  lemma AllowLimits(log: seq<int>, now: int)
    ensures Limits(log, now, Allow(log, now).0, Allow(log, now).1)
  {
    var after, ok := Allow(log, now).0, Allow(log, now).1;
    KeptCount(log, now);
    forall t
      ensures multiset(after)[t] ==
        (if now - t < WINDOW then multiset(log)[t] else 0) + (if ok && t == now then 1 else 0)
    {
      KeptEach(log, now, t);
    }
  }

  datatype Attempt = Attempt(who: string, at: int)

  function LogOf(logs: map<string, seq<int>>, who: string): seq<int> {
    if who in logs then logs[who] else []
  }

  // The logs after a run of attempts by any senders.
  function Logs(es: seq<Attempt>): map<string, seq<int>> {
    if es == [] then map[] else
      var last, logs := es[|es| - 1], Logs(es[..|es| - 1]);
      logs[last.who := Allow(LogOf(logs, last.who), last.at).0]
  }

  // The verdict on an attempt after the run es.
  predicate Allowed(es: seq<Attempt>, a: Attempt) {
    Allow(LogOf(Logs(es), a.who), a.at).1
  }

  // Every message of who that was let through, with nothing forgotten.
  function Accepted(es: seq<Attempt>, who: string): seq<int> {
    if es == [] then [] else
      var front, last := es[..|es| - 1], es[|es| - 1];
      Accepted(front, who) + (if last.who == who && Allowed(front, last) then [last.at] else [])
  }

  ghost predicate InOrder(es: seq<Attempt>) {
    forall i, j :: 0 <= i < j < |es| ==> es[i].at <= es[j].at
  }

  ghost predicate NoLaterThan(es: seq<Attempt>, now: int) {
    forall i :: 0 <= i < |es| ==> es[i].at <= now
  }

  lemma {:induction false} KeptAppend(a: seq<int>, b: seq<int>, now: int)
    ensures Kept(a + b, now) == Kept(a, now) + Kept(b, now)
    decreases |b|
  {
    if b == [] {
      assert a + b == a;
    } else {
      KeptAppend(a, b[..|b| - 1], now);
      assert (a + b)[..|a + b| - 1] == a + b[..|b| - 1];
    }
  }

  // The places in a log of the entries under ten seconds old.
  ghost function Recent(log: seq<int>, now: int): set<int> {
    set i | 0 <= i < |log| && now - log[i] < WINDOW
  }

  // Pruning keeps exactly those.
  lemma {:induction false} KeptCount(log: seq<int>, now: int)
    ensures |Kept(log, now)| == |Recent(log, now)|
    decreases |log|
  {
    if log != [] {
      var front, last := log[..|log| - 1], log[|log| - 1];
      KeptCount(front, now);
      assert Recent(log, now) == Recent(front, now) + (if now - last < WINDOW then {|log| - 1} else {});
    }
  }

  // As many of each as there are.
  lemma {:induction false} KeptEach(log: seq<int>, now: int, t: int)
    ensures multiset(Kept(log, now))[t] == if now - t < WINDOW then multiset(log)[t] else 0
    decreases |log|
  {
    if log != [] {
      var front, last := log[..|log| - 1], log[|log| - 1];
      KeptEach(front, now, t);
      assert log == front + [last];
    }
  }

  // And in their order: they are found in the log one after the other.
  lemma {:induction false} KeptInOrder(log: seq<int>, now: int) returns (at: seq<int>)
    ensures |at| == |Kept(log, now)|
    ensures forall k :: 0 <= k < |at| ==> 0 <= at[k] < |log| && log[at[k]] == Kept(log, now)[k]
    ensures forall j, k :: 0 <= j < k < |at| ==> at[j] < at[k]
    decreases |log|
  {
    if log == [] {
      at := [];
    } else {
      at := KeptInOrder(log[..|log| - 1], now);
      if now - log[|log| - 1] < WINDOW {
        at := at + [|log| - 1];
      }
    }
  }

  // Pruning early loses nothing that a later pruning would keep.
  lemma {:induction false} KeptTwice(log: seq<int>, earlier: int, now: int)
    requires earlier <= now
    ensures Kept(Kept(log, earlier), now) == Kept(log, now)
    decreases |log|
  {
    if log != [] {
      var front, t := log[..|log| - 1], log[|log| - 1];
      KeptTwice(front, earlier, now);
      KeptAppend(Kept(front, earlier), [t], now);
      assert Kept([t], now) == if now - t < WINDOW then [t] else [] by {
        assert [t][..0] == [];
      }
      if earlier - t >= WINDOW {
        assert Kept(log, earlier) == Kept(front, earlier);
      }
    }
  }

  // One attempt, seen from who's log.
  lemma LogStep(es: seq<Attempt>, who: string)
    requires es != []
    ensures var front, last := es[..|es| - 1], es[|es| - 1];
            var log := LogOf(Logs(front), who);
            LogOf(Logs(es), who) == if last.who == who then Allow(log, last.at).0 else log
  {
  }

  // Pruning at an attempt, and its own entry, do not show at a later time.
  lemma AllowLooksAlike(log: seq<int>, history: seq<int>, at: int, now: int)
    requires at <= now && Kept(log, now) == Kept(history, now)
    ensures Kept(Allow(log, at).0, now) == Kept(history + (if Allow(log, at).1 then [at] else []), now)
  {
    KeptTwice(log, at, now);
    KeptAppend(Kept(log, at), [at], now);
    KeptAppend(history, [at], now);
    assert history + [] == history;
  }

  // The pruned log and the full history agree on what is recent.
  lemma {:induction false} LogAgreesWithHistory(es: seq<Attempt>, who: string, now: int)
    requires InOrder(es) && NoLaterThan(es, now)
    ensures Kept(LogOf(Logs(es), who), now) == Kept(Accepted(es, who), now)
    decreases |es|
  {
    if es != [] {
      var front, last := es[..|es| - 1], es[|es| - 1];
      LogAgreesWithHistory(front, who, now);
      LogStep(es, who);
      var more := if last.who == who && Allowed(front, last) then [last.at] else [];
      assert Accepted(es, who) == Accepted(front, who) + more;
      if last.who == who {
        AllowLooksAlike(LogOf(Logs(front), who), Accepted(front, who), last.at, now);
      } else {
        assert Accepted(front, who) + [] == Accepted(front, who);
      }
    }
  }

  lemma LimitedByKept(es: seq<Attempt>, a: Attempt)
    requires InOrder(es) && NoLaterThan(es, a.at)
    ensures Allowed(es, a) <==> |Kept(Accepted(es, a.who), a.at)| < BURST
  {
    LogAgreesWithHistory(es, a.who, a.at);
  }

  // A message is let through exactly when fewer than five of all the sender's
  // accepted messages are under ten seconds old.
  lemma LimitedByFullHistory(es: seq<Attempt>, a: Attempt)
    requires InOrder(es) && NoLaterThan(es, a.at)
    ensures Allowed(es, a) <==> |Recent(Accepted(es, a.who), a.at)| < BURST
  {
    LimitedByKept(es, a);
    KeptCount(Accepted(es, a.who), a.at);
  }

  lemma {:induction false} AcceptedInOrder(es: seq<Attempt>, who: string)
    requires InOrder(es)
    ensures forall i, j :: 0 <= i < j < |Accepted(es, who)| ==> Accepted(es, who)[i] <= Accepted(es, who)[j]
    ensures forall now :: NoLaterThan(es, now) ==> forall i :: 0 <= i < |Accepted(es, who)| ==> Accepted(es, who)[i] <= now
    decreases |es|
  {
    if es != [] {
      var front, last := es[..|es| - 1], es[|es| - 1];
      AcceptedInOrder(front, who);
      assert NoLaterThan(front, last.at);
      forall now | NoLaterThan(es, now)
        ensures NoLaterThan(front, now) && last.at <= now
      {
        assert es[|es| - 1].at <= now;
      }
    }
  }

  // From the first recent entry of an ordered log on, everything is recent.
  lemma {:induction false} RecentSuffix(log: seq<int>, i: nat, now: int)
    requires i < |log| && now - log[i] < WINDOW
    requires forall j, k :: 0 <= j < k < |log| ==> log[j] <= log[k]
    ensures |Kept(log, now)| >= |log| - i
    decreases |log|
  {
    if i < |log| - 1 {
      RecentSuffix(log[..|log| - 1], i, now);
    }
  }

  // A sender's (i+5)-th accepted message comes at least ten seconds after its
  // i-th.
  lemma {:induction false} BurstsAreSpaced(es: seq<Attempt>, who: string, i: nat)
    requires InOrder(es) && i + BURST < |Accepted(es, who)|
    ensures Accepted(es, who)[i + BURST] - Accepted(es, who)[i] >= WINDOW
    decreases |es|
  {
    var front, last := es[..|es| - 1], es[|es| - 1];
    var before := Accepted(front, who);
    if i + BURST < |before| {
      BurstsAreSpaced(front, who, i);
    } else {
      assert NoLaterThan(front, last.at);
      LimitedByKept(front, last);
      AcceptedInOrder(front, who);
      if last.at - before[i] < WINDOW {
        RecentSuffix(before, i, last.at);
      }
    }
  }

  // The attempts of one sender.
  function Only(es: seq<Attempt>, who: string): seq<Attempt> {
    if es == [] then [] else
      Only(es[..|es| - 1], who) + (if es[|es| - 1].who == who then [es[|es| - 1]] else [])
  }

  // Senders never affect each other: who's log and accepted messages are what
  // they would be had nobody else spoken.
  lemma {:induction false} SendersAreIndependent(es: seq<Attempt>, who: string)
    ensures LogOf(Logs(es), who) == LogOf(Logs(Only(es, who)), who)
    ensures Accepted(es, who) == Accepted(Only(es, who), who)
    decreases |es|
  {
    if es != [] {
      var front, last := es[..|es| - 1], es[|es| - 1];
      SendersAreIndependent(front, who);
      LogStep(es, who);
      if last.who == who {
        var only := Only(es, who);
        assert only[..|only| - 1] == Only(front, who) && only[|only| - 1] == last;
        LogStep(only, who);
        AcceptedStep(es, who);
        AcceptedStep(only, who);
      } else {
        assert Only(es, who) == Only(front, who);
      }
    }
  }

  lemma AcceptedStep(es: seq<Attempt>, who: string)
    requires es != [] && es[|es| - 1].who == who
    ensures var front, last := es[..|es| - 1], es[|es| - 1];
            Accepted(es, who) ==
              Accepted(front, who) + (if Allow(LogOf(Logs(front), who), last.at).1 then [last.at] else [])
  {
  }
}
