// The guest list of internal/session/registry.go as a value: who is connected
// under which name, and who may write.
module SessionSpec {
  import opened Common
  import opened Names

  // Guests are numbered in the order they join; the number stands for the
  // pointer the program compares.
  datatype Member = Member(id: nat, name: string, writable: bool)

  ghost function NamesOf(ms: seq<Member>): set<string> {
    set i | 0 <= i < |ms| :: ms[i].name
  }

  ghost function Joined(ms: seq<Member>, id: nat, requested: string, writable: bool): seq<Member> {
    ms + [Member(id, FreeName(Sanitize(requested), NamesOf(ms)), writable)]
  }

  function Left(ms: seq<Member>, id: nat): seq<Member> {
    if ms == [] then []
    else if ms[0].id == id then ms[1..]
    else [ms[0]] + Left(ms[1..], id)
  }

  lemma {:induction false} LeftAt(ms: seq<Member>, id: nat, i: nat)
    requires i <= |ms| && (i < |ms| ==> ms[i].id == id)
    requires forall k :: 0 <= k < i ==> ms[k].id != id
    ensures Left(ms, id) == if i < |ms| then ms[..i] + ms[i + 1..] else ms
    decreases i
  {
    if i > 0 {
      LeftAt(ms[1..], id, i - 1);
      if i < |ms| {
        assert ms[..i] + ms[i + 1..] == [ms[0]] + (ms[1..][..i - 1] + ms[1..][i..]);
      } else {
        assert [ms[0]] + ms[1..] == ms;
      }
    }
  }

  // The index of the first guest of a name, or the length.
  function Find(ms: seq<Member>, name: string): (i: nat)
    ensures i <= |ms| && (i < |ms| ==> ms[i].name == name)
    ensures forall k :: 0 <= k < i ==> ms[k].name != name
  {
    if ms == [] || ms[0].name == name then 0 else 1 + Find(ms[1..], name)
  }

  lemma FindIs(ms: seq<Member>, name: string, i: nat)
    requires i <= |ms| && (i < |ms| ==> ms[i].name == name)
    requires forall k :: 0 <= k < i ==> ms[k].name != name
    ensures Find(ms, name) == i
  {
  }

  // The same by number.
  function FindId(ms: seq<Member>, id: nat): (i: nat)
    ensures i <= |ms| && (i < |ms| ==> ms[i].id == id)
    ensures forall k :: 0 <= k < i ==> ms[k].id != id
  {
    if ms == [] || ms[0].id == id then 0 else 1 + FindId(ms[1..], id)
  }

  // allow and deny: nothing happens when nobody has the name.
  function Granted(ms: seq<Member>, name: string, writable: bool): seq<Member> {
    var i := Find(ms, name);
    if i < |ms| then ms[i := ms[i].(writable := writable)] else ms
  }

  // Numbers and names are pairwise different.
  ghost predicate Distinct(ms: seq<Member>) {
    forall i, j :: 0 <= i < j < |ms| ==> ms[i].id != ms[j].id && ms[i].name != ms[j].name
  }

  // What can happen to the list. Kicking, a failed send and a closed connection
  // all end in leaving.
  datatype Event = Join(requested: string) | Leave(id: nat) | Allow(name: string) | Deny(name: string) | CloseAll

  datatype Session = Session(members: seq<Member>, joined: nat, defaultWritable: bool)

  ghost function Next(s: Session, e: Event): Session {
    match e
    case Join(requested) =>
      s.(members := Joined(s.members, s.joined, requested, s.defaultWritable), joined := s.joined + 1)
    case Leave(id) => s.(members := Left(s.members, id))
    case Allow(name) => s.(members := Granted(s.members, name, true))
    case Deny(name) => s.(members := Granted(s.members, name, false))
    case CloseAll => s.(members := [])
  }

  ghost function Run(defaultWritable: bool, es: seq<Event>): Session {
    if es == [] then Session([], 0, defaultWritable)
    else Next(Run(defaultWritable, es[..|es| - 1]), es[|es| - 1])
  }

  ghost predicate Sound(s: Session) {
    && Distinct(s.members)
    && forall i :: 0 <= i < |s.members| ==> s.members[i].id < s.joined
  }

  // Leaving removes exactly the one guest and keeps the order of the others.
  lemma LeftIs(ms: seq<Member>, id: nat)
    requires Distinct(ms)
    ensures var l := Left(ms, id);
            && Distinct(l)
            && (forall m :: m in l <==> m in ms && m.id != id)
  {
    var i := FindId(ms, id);
    LeftAt(ms, id, i);
    if i < |ms| {
      var l := Left(ms, id);
      CutIs(ms, i);
      forall a, b | 0 <= a < b < |l|
        ensures l[a].id != l[b].id && l[a].name != l[b].name
      {
        assert l[a] == ms[if a < i then a else a + 1] && l[b] == ms[if b < i then b else b + 1];
      }
      forall k | 0 <= k < |l|
        ensures l[k].id != id
      {
        assert l[k] == ms[if k < i then k else k + 1];
      }
    }
  }

  // The others are found as before.
  lemma {:induction false} OthersFound(ms: seq<Member>, id: nat, other: nat)
    requires id != other
    ensures var l := Left(ms, id);
            var i, k := FindId(ms, other), FindId(l, other);
            if i < |ms| then k < |l| && l[k] == ms[i] else k == |l|
  {
    if ms != [] && ms[0].id != id && ms[0].id != other {
      OthersFound(ms[1..], id, other);
      assert Left(ms, id)[1..] == Left(ms[1..], id);
    }
  }

  // A sequence without its i-th element.
  lemma CutIs<T>(s: seq<T>, i: nat)
    requires i < |s|
    ensures var l := s[..i] + s[i + 1..];
            && |l| == |s| - 1
            && (forall k :: 0 <= k < |l| ==> l[k] == s[if k < i then k else k + 1])
            && (forall x :: x in s <==> x == s[i] || x in l)
  {
    assert s == s[..i] + ([s[i]] + s[i + 1..]);
  }

  lemma NextKeepsSound(s: Session, e: Event)
    requires Sound(s)
    ensures Sound(Next(s, e)) && Next(s, e).defaultWritable == s.defaultWritable
  {
    match e {
      case Join(requested) =>
        assert forall i :: 0 <= i < |s.members| ==> s.members[i].name in NamesOf(s.members);
      case Leave(id) =>
        LeftIs(s.members, id);
        var l := Left(s.members, id);
        forall i | 0 <= i < |l|
          ensures l[i].id < s.joined
        {
          assert l[i] in s.members;
        }
      case _ =>
    }
  }

  // What each event makes of the list: one more at the end, under the first free
  // form of the requested name; one less, the others in their order; the
  // permission of one name; nobody.
  lemma NextIs(s: Session, e: Event)
    requires Sound(s)
    ensures var u := Next(s, e);
            && u.joined == s.joined + (if e.Join? then 1 else 0)
            && match e
               case Join(requested) =>
                 && |u.members| == |s.members| + 1 && u.members[..|s.members|] == s.members
                 && u.members[|s.members|].id == s.joined && u.members[|s.members|].writable == s.defaultWritable
                 && FirstFree(Sanitize(requested), NamesOf(s.members), u.members[|s.members|].name)
               case Leave(id) =>
                 if exists m :: m in s.members && m.id == id
                 then exists i :: 0 <= i < |s.members| && s.members[i].id == id
                        && u.members == s.members[..i] + s.members[i + 1..]
                 else u.members == s.members
               case Allow(name) => Permitted(s.members, u.members, name, true)
               case Deny(name) => Permitted(s.members, u.members, name, false)
               case CloseAll => u.members == []
  {
    match e {
      case Join(requested) =>
      case Leave(id) =>
        LeftAt(s.members, id, FindId(s.members, id));
      case Allow(name) => GrantIsByName(s.members, name, true);
      case Deny(name) => GrantIsByName(s.members, name, false);
      case CloseAll =>
    }
  }

  // The guests of that name have the permission, and nothing else is changed.
  ghost predicate Permitted(before: seq<Member>, after: seq<Member>, name: string, writable: bool) {
    && |after| == |before|
    && forall i :: 0 <= i < |before| ==>
         after[i] == if before[i].name == name then Member(before[i].id, before[i].name, writable) else before[i]
  }

  // Names are pairwise different in every run.
  lemma {:induction false} NamesStayDistinct(defaultWritable: bool, es: seq<Event>)
    ensures Sound(Run(defaultWritable, es)) && Run(defaultWritable, es).defaultWritable == defaultWritable
    decreases |es|
  {
    if es != [] {
      NamesStayDistinct(defaultWritable, es[..|es| - 1]);
      NextKeepsSound(Run(defaultWritable, es[..|es| - 1]), es[|es| - 1]);
    }
  }

  // A guest keeps number and name for as long as it is listed, so a name means
  // one guest at any time: allow and deny change all of its holders, or none.
  lemma GrantIsByName(ms: seq<Member>, name: string, writable: bool)
    requires Distinct(ms)
    ensures |Granted(ms, name, writable)| == |ms|
    ensures forall i :: 0 <= i < |ms| ==>
      Granted(ms, name, writable)[i] == if ms[i].name == name then ms[i].(writable := writable) else ms[i]
  {
  }
}
