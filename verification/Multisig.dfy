// The multisig as the program keeps it: a table of proposal objects updated in
// place, each locked region a method proved against MultisigSpec. Callbacks
// (announce, event) are left out; what a vote executes after unlocking is its
// result.
module MultisigModel {
  import opened Common
  import opened MultisigSpec

  // strings.TrimSpace, over the characters unicode.IsSpace accepts.
  predicate IsSpace(c: char) {
    || '\t' <= c <= '\r' || c == ' ' || c == '\U{85}' || c == '\U{A0}' || c == '\U{1680}'
    || '\U{2000}' <= c <= '\U{200a}' || c == '\U{2028}' || c == '\U{2029}' || c == '\U{202f}'
    || c == '\U{205f}' || c == '\U{3000}'
  }

  function TrimSpace(s: string): (t: string)
    ensures t != "" ==> !IsSpace(t[0]) && !IsSpace(t[|t| - 1])
    decreases |s|
  {
    if s != "" && IsSpace(s[0]) then TrimSpace(s[1..])
    else if s != "" && IsSpace(s[|s| - 1]) then TrimSpace(s[..|s| - 1])
    else s
  }

  // What is kept is the text between white space at both ends.
  lemma {:induction false} TrimSpaceIs(s: string) returns (i: nat, j: nat)
    ensures i <= j <= |s| && TrimSpace(s) == s[i..j]
    ensures forall k :: 0 <= k < i || j <= k < |s| ==> IsSpace(s[k])
    decreases |s|
  {
    if s != "" && IsSpace(s[0]) {
      i, j := TrimSpaceIs(s[1..]);
      assert s[1..][i..j] == s[i + 1..j + 1];
      assert forall k :: 0 < k < i + 1 || j + 1 <= k < |s| ==> s[k] == s[1..][k - 1];
      i, j := i + 1, j + 1;
    } else if s != "" && IsSpace(s[|s| - 1]) {
      i, j := TrimSpaceIs(s[..|s| - 1]);
      assert s[..|s| - 1][i..j] == s[i..j];
      assert forall k :: 0 <= k < |s| - 1 ==> s[k] == s[..|s| - 1][k];
    } else {
      i, j := 0, |s|;
    }
  }

  // The names as trimmed, empty ones dropped.
  ghost function Names(texts: seq<string>): set<string> {
    set i | 0 <= i < |texts| && TrimSpace(texts[i]) != "" :: TrimSpace(texts[i])
  }

  datatype ConfigError = QuorumTooSmall | TooFewApprovers | NobodySupervised | SupervisedApprover(who: string)

  class HeldProposal {
    const id: int
    const who: string
    const data: seq<Byte>
    const created: int
    var approved: seq<string>
    var rejected: seq<string>
    var state: Status

    constructor (id: int, who: string, data: seq<Byte>, created: int)
      ensures Value() == Proposal(id, who, data, created, [], [], Pending) && this.id == id
    {
      this.id, this.who, this.data, this.created := id, who, data, created;
      approved, rejected, state := [], [], Pending;
    }

    ghost function Value(): Proposal
      reads this
    {
      Proposal(id, who, data, created, approved, rejected, state)
    }
  }

  class Multisig {
    const quorum: int
    const approvers: seq<string>
    const approver: set<string>
    const supervised: set<string>
    var next: nat
    var proposals: map<int, HeldProposal>

    ghost function Settings(): Config {
      Config(quorum, approvers, supervised)
    }

    ghost predicate Valid()
      reads this, proposals.Values
    {
      && ValidConfig(Settings())
      && approver == Elements(approvers)
      && forall id :: id in proposals ==> proposals[id].id == id
    }

    ghost function View(): Table
      reads this, proposals.Values
    {
      Table(next, map id | id in proposals :: proposals[id].Value())
    }

    constructor (quorum: int, approvers: seq<string>, approver: set<string>, supervised: set<string>)
      requires ValidConfig(Config(quorum, approvers, supervised)) && approver == Elements(approvers)
      ensures Valid() && View() == EMPTY && Settings() == Config(quorum, approvers, supervised)
    {
      this.quorum, this.approvers, this.approver, this.supervised := quorum, approvers, approver, supervised;
      next, proposals := 0, map[];
    }

    // A multisig, or what is wrong with the settings.
    static method New(quorum: int, approvers: seq<string>, supervised: seq<string>)
      returns (m: Multisig?, err: Option<ConfigError>)
      ensures m != null <==> 1 <= quorum <= |Names(approvers)| && Names(supervised) != {} && Names(approvers) !! Names(supervised)
      ensures m != null ==> err.None? && m.Valid() && m.View() == EMPTY && m.quorum == quorum
                            && Elements(m.approvers) == Names(approvers) && m.supervised == Names(supervised)
      ensures m == null ==> err.Some? && match err.value
        case QuorumTooSmall => quorum < 1
        case TooFewApprovers => 1 <= quorum && |Names(approvers)| < quorum
        case NobodySupervised => 1 <= quorum <= |Names(approvers)| && Names(supervised) == {}
        case SupervisedApprover(who) => 1 <= quorum <= |Names(approvers)| && who in Names(approvers) * Names(supervised)
    {
      m, err := null, None;
      var names: seq<string>, known: set<string> := [], {};
      var i := 0;
      while i < |approvers|
        invariant 0 <= i <= |approvers|
        invariant NoDup(names) && known == Elements(names) == Names(approvers[..i])
      {
        var a := TrimSpace(approvers[i]);
        NamesAppend(approvers, i);
        if a != "" && a !in known {
          NoDupAppend(names, a);
          known := known + {a};
          names := names + [a];
          assert Elements(names) == known;
        }
        i := i + 1;
      }
      assert approvers[..i] == approvers;
      NoDupCardinality(names);
      var watched: set<string> := {};
      i := 0;
      while i < |supervised|
        invariant 0 <= i <= |supervised|
        invariant watched == Names(supervised[..i])
      {
        var s := TrimSpace(supervised[i]);
        NamesAppend(supervised, i);
        if s != "" {
          watched := watched + {s};
        }
        i := i + 1;
      }
      assert supervised[..i] == supervised;
      if quorum < 1 {
        err := Some(QuorumTooSmall);
        return;
      } else if |names| < quorum {
        err := Some(TooFewApprovers);
        return;
      } else if watched == {} {
        err := Some(NobodySupervised);
        return;
      }
      var todo := watched;
      while todo != {}
        invariant todo <= watched
        invariant forall s :: s in watched - todo ==> s !in known
        decreases todo
      {
        var s :| s in todo;
        if s in known {
          assert s in Names(approvers) * Names(supervised);
          err := Some(SupervisedApprover(s));
          return;
        }
        todo := todo - {s};
      }
      assert forall a :: a in names ==> a in known;
      m := new Multisig(quorum, names, known, watched);
    }

    static lemma NamesAppend(texts: seq<string>, i: nat)
      requires i < |texts|
      ensures Names(texts[..i + 1]) ==
        Names(texts[..i]) + (if TrimSpace(texts[i]) == "" then {} else {TrimSpace(texts[i])})
    {
      var before, after := Names(texts[..i]), Names(texts[..i + 1]);
      assert forall k :: 0 <= k <= i ==> texts[..i + 1][k] == texts[k];
      assert forall k :: 0 <= k < i ==> texts[..i][k] == texts[k];
      forall n | n in before
        ensures n in after
      {
        var k :| 0 <= k < i && TrimSpace(texts[..i][k]) == n;
        assert TrimSpace(texts[..i + 1][k]) == n;
      }
      if TrimSpace(texts[i]) != "" {
        assert TrimSpace(texts[..i + 1][i]) in after;
      }
    }

    method Supervises(who: string) returns (yes: bool)
      ensures yes <==> who in supervised
    {
      yes := who in supervised;
    }

    // One proposal of the sweep: it may expire, or be due to be forgotten.
    method Expire(p: HeldProposal, now: int) returns (forget: bool)
      modifies p
      ensures p.Value() == Aged(old(p.Value()), now) && forget == Forgotten(old(p.Value()), now)
    {
      var age := now - p.created;
      forget := false;
      if p.state == Pending && age > PROPOSAL_TTL {
        p.state := Expired;
      } else if p.state != Pending && age > 4 * PROPOSAL_TTL {
        forget := true;
      }
    }

    // A change to one proposal object is a change to one entry of the view.
    twostate lemma OneEntryChanged(n: int)
      requires old(Valid()) && proposals == old(proposals) && next == old(next) && n in proposals
      requires forall p :: p in proposals.Values && p != proposals[n] ==> p.Value() == old(p.Value())
      ensures View() == old(View()).(proposals := old(View()).proposals[n := proposals[n].Value()])
    {
      assert forall k :: k in proposals && k != n ==> proposals[k] in proposals.Values && proposals[k] != proposals[n];
    }

    method Forget(id: int)
      requires Valid()
      modifies this`proposals
      ensures Valid() && proposals == old(proposals) - {id}
      ensures View() == old(View()).(proposals := old(View()).proposals - {id})
    {
      proposals := proposals - {id};
      assert View().proposals == old(View()).proposals - {id};
    }

    // Walks the table in any order.
    method ExpireLocked(now: int)
      requires Valid()
      modifies this`proposals, proposals.Values
      ensures Valid() && View() == Sweep(old(View()), now)
      ensures forall id :: id in proposals ==> id in old(proposals) && proposals[id] == old(proposals[id])
    {
      ghost var before := View();
      var todo: set<int> := proposals.Keys;
      while todo != {}
        invariant todo <= proposals.Keys <= before.proposals.Keys
        invariant forall id :: id in proposals ==> id in old(proposals) && proposals[id] == old(proposals[id])
        invariant Valid() && View() == PartlySwept(before, todo, now)
        decreases todo
      {
        ghost var some: int := SomethingIn(todo);
        var id: int :| id in todo;
        var p := proposals[id];
        SweepOne(before, todo, id, now);
        assert p in old(proposals).Values && p.Value() == View().proposals[id];
        label swept:
        var forget := Expire(p, now);
        OneEntryChanged@swept(id);
        todo := todo - {id};
        if forget {
          Forget(id);
        }
      }
    }

    // The locked region of hold, with its two readings of the clock.
    method Hold(who: string, data: seq<Byte>, sweepAt: int, now: int) returns (view: Proposal)
      requires Valid()
      modifies this, proposals.Values
      ensures Valid() && View() == MultisigSpec.Hold(old(View()), who, data, sweepAt, now)
      ensures view == Proposal(old(next) + 1, who, data, now, [], [], Pending) && View().proposals[view.id] == view
    {
      ExpireLocked(sweepAt);
      next := next + 1;
      var p := new HeldProposal(next, who, data, now);
      proposals := proposals[p.id := p];
      view := Proposal(p.id, p.who, p.data, p.created, p.approved, p.rejected, p.state);
    }

    // The middle of vote: the ballot is put down, and may close the proposal.
    method Count(p: HeldProposal, voter: string, approve: bool)
      modifies p
      ensures p.Value() == Cast(Settings(), old(p.Value()), voter, approve)
    {
      if approve {
        p.approved := p.approved + [voter];
      } else {
        p.rejected := p.rejected + [voter];
      }
      if |p.approved| >= quorum {
        p.state := Executed;
      } else if |approvers| - |p.rejected| < quorum {
        p.state := Rejected;
      }
    }

    // The locked region of vote; run is what the caller executes once unlocked.
    method Vote(voter: string, op: Op, id: Option<int>, now: int)
      returns (outcome: Outcome, run: Option<(string, seq<Byte>)>)
      requires Valid()
      modifies this, proposals.Values
      ensures Valid()
      ensures (View(), outcome) == MultisigSpec.Vote(Settings(), old(View()), now, voter, op, id)
      ensures run == if outcome.Counted? && outcome.view.state == Executed
                     then Some((outcome.view.who, outcome.view.data)) else None
    {
      run := None;
      if op.Unknown? {
        return Refused(UnknownVote), None;
      }
      if id.None? {
        return Refused(NotANumber), None;
      }
      if voter !in approver {
        return Refused(NotAnApprover), None;
      }
      ExpireLocked(now);
      var n: int := id.value;
      if n !in proposals {
        return Refused(NoSuchProposal), None;
      }
      var p := proposals[n];
      assert View().proposals[n] == p.Value();
      if p.state != Pending {
        return Refused(AlreadyClosed(p.state)), None;
      }
      if voter in p.approved || voter in p.rejected {
        return Refused(AlreadyVoted), None;
      }
      label swept:
      Count(p, voter, op == Approve);
      OneEntryChanged@swept(n);
      outcome := Counted(Proposal(p.id, p.who, p.data, p.created, p.approved, p.rejected, p.state));
      if p.state == Executed {
        run := Some((p.who, p.data));
      }
    }

    // The proposals that are waiting, by number. Putting the numbers in order for
    // display is left to the library's sort.
    method Waiting() returns (views: map<int, Proposal>)
      requires Valid()
      ensures forall id :: id in views <==> id in proposals && proposals[id].state == Pending
      ensures forall id :: id in views ==> views[id] == proposals[id].Value()
    {
      views := map[];
      var todo: set<int> := proposals.Keys;
      while todo != {}
        invariant todo <= proposals.Keys
        invariant forall id :: id in views <==> id in proposals && id !in todo && proposals[id].state == Pending
        invariant forall id :: id in views ==> views[id] == proposals[id].Value()
        decreases todo
      {
        ghost var some: int := SomethingIn(todo);
        var id: int :| id in todo;
        todo := todo - {id};
        var p := proposals[id];
        if p.state == Pending {
          views := views[id := Proposal(p.id, p.who, p.data, p.created, p.approved, p.rejected, p.state)];
        }
      }
    }

    method PendingList(now: int) returns (views: map<int, Proposal>)
      requires Valid()
      modifies this`proposals, proposals.Values
      ensures Valid() && View() == Sweep(old(View()), now)
      ensures forall id :: id in views <==> id in View().proposals && View().proposals[id].state == Pending
      ensures forall id :: id in views ==> views[id] == View().proposals[id]
    {
      ExpireLocked(now);
      views := Waiting();
    }
  }
}
