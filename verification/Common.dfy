// Vocabulary shared by every module of the model.
module Common {

  datatype Option<+T> = None | Some(value: T)

  type Byte = b: int | 0 <= b < 256

  function Min(a: nat, b: nat): nat {
    if a < b then a else b
  }

  // No element occurs twice.
  ghost predicate NoDup<T>(s: seq<T>) {
    forall i, j :: 0 <= i < j < |s| ==> s[i] != s[j]
  }

  ghost function Elements<T>(s: seq<T>): set<T> {
    set x | x in s
  }

  lemma NoDupAppend<T>(s: seq<T>, x: T)
    ensures NoDup(s + [x]) <==> NoDup(s) && x !in s
  {
    var t := s + [x];
    if NoDup(t) {
      forall i, j | 0 <= i < j < |s|
        ensures s[i] != s[j]
      {
        assert t[i] != t[j];
      }
      forall i | 0 <= i < |s|
        ensures s[i] != x
      {
        assert t[i] != t[|s|];
      }
    }
  }

  // A duplicate-free sequence has as many elements as positions.
  lemma {:induction false} NoDupCardinality<T>(s: seq<T>)
    requires NoDup(s)
    ensures |Elements(s)| == |s|
  {
    if s == [] {
      assert Elements(s) == {};
    } else {
      var front := s[..|s| - 1];
      NoDupCardinality(front);
      assert s == front + [s[|s| - 1]];
      assert Elements(s) == Elements(front) + {s[|s| - 1]};
      assert s[|s| - 1] !in Elements(front);
    }
  }

  // A subset is no larger than the set around it.
  lemma {:induction false} SubsetCardinality<T>(a: set<T>, b: set<T>)
    requires a <= b
    ensures |a| <= |b|
  {
    if a != {} {
      var x :| x in a;
      SubsetCardinality(a - {x}, b - {x});
    }
  }

  // Elements shared out over two sequences.
  lemma Shared<T>(a: seq<T>, b: seq<T>, whole: seq<T>)
    requires multiset(a) + multiset(b) == multiset(whole)
    ensures forall x :: x in whole <==> x in a || x in b
    ensures forall x :: multiset(b)[x] <= multiset(whole)[x]
  {
    forall x
      ensures x in whole <==> x in a || x in b
    {
      assert x in whole <==> x in multiset(whole);
      assert x in multiset(whole) <==> x in multiset(a) + multiset(b);
    }
  }

  lemma ThreeParts<T>(a: set<T>, b: set<T>, c: set<T>, whole: set<T>)
    requires whole == a + b + c && a !! b && a + b !! c
    ensures |whole| == |a| + |b| + |c|
  {
  }

  // The order of a Go map walk is open: any element may come next.
  lemma SomethingIn<T>(s: set<T>) returns (x: T)
    requires s != {}
    ensures x in s
  {
    x :| x in s;
  }
}
