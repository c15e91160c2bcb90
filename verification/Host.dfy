// The closures of Run in internal/host/host.go, as methods over the objects they
// capture: the audit log, the PTY and the multisig.
module HostModel {
  import opened Common
  import opened MultisigSpec
  import opened MultisigModel

  // A vote as its JSON decodes.
  datatype Ballot = Ballot(voter: string, op: Op, id: int)

  class Host {
    var audit: seq<(string, seq<Byte>)>
    var pty: seq<(string, seq<Byte>)>
    const ms: Multisig?
    // What other goroutines have audited and not yet written.
    ghost var underway: seq<(string, seq<Byte>)>

    ghost predicate Valid()
      reads this, ms, if ms == null then {} else ms.proposals.Values
    {
      multiset(audit) == multiset(pty) + multiset(underway) && (ms != null ==> ms.Valid())
    }

    constructor (ms: Multisig?)
      requires ms != null ==> ms.Valid()
      ensures Valid() && this.ms == ms && audit == [] && pty == [] && underway == []
    {
      this.ms, audit, pty, underway := ms, [], [], [];
    }

    // The audit entry: between it and Emit the state is one that others may see.
    method Record(who: string, data: seq<Byte>)
      requires Valid()
      modifies this`audit, this`underway
      ensures Valid() && audit == old(audit) + [(who, data)] && underway == old(underway) + [(who, data)]
    {
      audit := audit + [(who, data)];
      underway := underway + [(who, data)];
    }

    // The write to the PTY, of the i-th entry on its way.
    method Emit(who: string, data: seq<Byte>, ghost i: nat)
      requires Valid() && i < |underway| && underway[i] == (who, data)
      modifies this`pty, this`underway
      ensures Valid() && pty == old(pty) + [(who, data)]
      ensures underway == old(underway[..i] + underway[i + 1..])
    {
      assert underway == underway[..i] + ([underway[i]] + underway[i + 1..]);
      pty := pty + [(who, data)];
      underway := underway[..i] + underway[i + 1..];
    }

    // applyInput, when nobody comes in between.
    method ApplyInput(who: string, data: seq<Byte>)
      requires Valid()
      modifies this`audit, this`pty, this`underway
      ensures Valid() && underway == old(underway)
      ensures audit == old(audit) + [(who, data)] && pty == old(pty) + [(who, data)]
    {
      ghost var before := underway;
      Record(who, data);
      Emit(who, data, |before|);
      assert underway == before;
    }

    // Keystrokes of a guest who may type: held if the guest is supervised.
    method WriteInput(who: string, data: seq<Byte>, sweepAt: int, now: int)
      requires Valid()
      modifies this`audit, this`pty, this`underway, ms, if ms == null then {} else ms.proposals.Values
      ensures Valid() && underway == old(underway)
      ensures ms != null && who in ms.supervised ==>
        audit == old(audit) && pty == old(pty) && ms.View() == MultisigSpec.Hold(old(ms.View()), who, data, sweepAt, now)
      ensures ms == null || who !in ms.supervised ==>
        && audit == old(audit) + [(who, data)] && pty == old(pty) + [(who, data)]
        && (ms != null ==> ms.View() == old(ms.View()))
    {
      if ms != null {
        var supervised := ms.Supervises(who);
        if supervised {
          var view := ms.Hold(who, data, sweepAt, now);
          return;
        }
      }
      ApplyInput(who, data);
    }

    // A guest's vote counts under the name it arrived under, and only if that is
    // the voter named inside; a vote that reaches the quorum runs.
    method OnVote(who: string, ballot: Option<Ballot>, now: int) returns (outcome: Option<Outcome>)
      requires Valid()
      modifies this`audit, this`pty, this`underway, ms, if ms == null then {} else ms.proposals.Values
      ensures Valid() && underway == old(underway)
      ensures outcome.Some? <==> ms != null && ballot.Some? && ballot.value.voter == who
      ensures outcome.None? ==> audit == old(audit) && pty == old(pty) && (ms != null ==> ms.View() == old(ms.View()))
      ensures outcome.Some? ==>
        && (ms.View(), outcome.value) ==
             MultisigSpec.Vote(ms.Settings(), old(ms.View()), now, who, ballot.value.op, Some(ballot.value.id))
        && var o := outcome.value;
           var run := if o.Counted? && o.view.state == Executed then [(o.view.who, o.view.data)] else [];
           audit == old(audit) + run && pty == old(pty) + run
    {
      if ms == null || ballot.None? || ballot.value.voter != who {
        return None;
      }
      var o, run := ms.Vote(who, ballot.value.op, Some(ballot.value.id), now);
      if run.Some? {
        ApplyInput(run.value.0, run.value.1);
      }
      outcome := Some(o);
    }
  }
}
