// The names Join tries, in order, and why a free one comes soon.
module Names {
  import opened Common

  const MAX_NAME: nat := 24

  predicate NameChar(c: char) {
    'a' <= c <= 'z' || 'A' <= c <= 'Z' || '0' <= c <= '9' || c == '_' || c == '-'
  }

  // The allowed characters of s.
  function Clean(s: string): (t: string)
    ensures forall c :: c in t ==> NameChar(c)
  {
    if s == "" then "" else
      var rest := Clean(s[1..]);
      if NameChar(s[0]) then [s[0]] + rest else rest
  }

  // The base of a guest's name: never empty, at most 24 of the allowed
  // characters.
  function Sanitize(s: string): (t: string)
    ensures 1 <= |t| <= MAX_NAME && forall c :: c in t ==> NameChar(c)
    ensures Clean(s) == "" ==> t == "guest"
    ensures Clean(s) != "" ==> t <= Clean(s) && (t == Clean(s) || |t| == MAX_NAME)
    ensures (s != "" && |s| <= MAX_NAME && forall c :: c in s ==> NameChar(c)) ==> t == s
  {
    CleanIsIdentity(s);
    var t := Clean(s);
    var u := if |t| > MAX_NAME then t[..MAX_NAME] else t;
    if u == "" then "guest" else u
  }

  // Each allowed character stays, as often as it was there.
  lemma {:induction false} CleanKeepsAllowed(s: string, c: char)
    ensures multiset(Clean(s))[c] == if NameChar(c) then multiset(s)[c] else 0
  {
    if s != "" {
      CleanKeepsAllowed(s[1..], c);
      assert s == [s[0]] + s[1..];
    }
  }

  // And in order: what is kept of a text is what is kept of its parts.
  lemma {:induction false} CleanConcat(a: string, b: string)
    ensures Clean(a + b) == Clean(a) + Clean(b)
    decreases |a|
  {
    if a == "" {
      assert a + b == b;
    } else {
      CleanConcat(a[1..], b);
      assert (a + b)[0] == a[0] && (a + b)[1..] == a[1..] + b;
    }
  }

  lemma {:induction false} CleanIsIdentity(s: string)
    ensures (forall c :: c in s ==> NameChar(c)) ==> Clean(s) == s
  {
    if s != "" {
      CleanIsIdentity(s[1..]);
      assert s == [s[0]] + s[1..];
    }
  }

  function Digit(d: nat): char
    requires d < 10
  {
    "0123456789"[d]
  }

  lemma DigitsDiffer(d: nat, e: nat)
    requires d < 10 && e < 10 && Digit(d) == Digit(e)
    ensures d == e
  {
  }

  function Decimal(n: nat): (d: string)
    ensures d != ""
  {
    if n < 10 then [Digit(n)] else Decimal(n / 10) + [Digit(n % 10)]
  }

  lemma {:induction false} DecimalIsInjective(m: nat, n: nat)
    requires Decimal(m) == Decimal(n)
    ensures m == n
    decreases m
  {
    var d := Decimal(m);
    assert d[|d| - 1] == Digit(m % 10) == Digit(n % 10);
    DigitsDiffer(m % 10, n % 10);
    if m >= 10 && n >= 10 {
      assert Decimal(m / 10) == d[..|d| - 1] == Decimal(n / 10);
      DecimalIsInjective(m / 10, n / 10);
    }
  }

  // base, base-2, base-3, ...
  function Candidate(base: string, n: nat): string
    requires 1 <= n
  {
    if n == 1 then base else base + "-" + Decimal(n)
  }

  lemma CandidatesDiffer(base: string, m: nat, n: nat)
    requires 1 <= m < n
    ensures Candidate(base, m) != Candidate(base, n)
  {
    if m > 1 && Candidate(base, m) == Candidate(base, n) {
      var k := |base| + 1;
      assert Candidate(base, m)[k..] == Decimal(m) && Candidate(base, n)[k..] == Decimal(n);
      DecimalIsInjective(m, n);
    }
  }

  ghost predicate AllTaken(base: string, taken: set<string>, n: nat) {
    forall i :: 1 <= i <= n ==> Candidate(base, i) in taken
  }

  function DigitValue(c: char): nat
    requires '0' <= c <= '9'
  {
    c as int - '0' as int
  }

  predicate Digits(s: string) {
    forall i :: 0 <= i < |s| ==> '0' <= s[i] <= '9'
  }

  // A text of digits read as a number.
  function ReadDecimal(s: string): nat
    requires Digits(s)
  {
    if s == "" then 0 else 10 * ReadDecimal(s[..|s| - 1]) + DigitValue(s[|s| - 1])
  }

  // The decimals of a number are digits, without a leading zero, that read back
  // to it.
  lemma {:induction false} DecimalReads(n: nat)
    ensures Digits(Decimal(n))
    ensures ReadDecimal(Decimal(n)) == n
    ensures n > 0 ==> Decimal(n)[0] != '0'
  {
    var d := Decimal(n);
    assert '0' <= d[|d| - 1] <= '9' && DigitValue(d[|d| - 1]) == n % 10;
    if n >= 10 {
      DecimalReads(n / 10);
      assert d[..|d| - 1] == Decimal(n / 10);
      assert forall i :: 0 <= i < |d| - 1 ==> d[i] == Decimal(n / 10)[i];
    } else {
      assert d[..0] == "";
    }
  }

  // The candidates as texts: the base itself, then the base, a hyphen and the
  // decimals of 2, 3, ...
  lemma CandidateText(base: string, n: nat)
    requires n >= 1
    ensures n == 1 ==> Candidate(base, n) == base
    ensures n >= 2 ==>
      var c, k := Candidate(base, n), |base| + 1;
      && k < |c| && c[..k] == base + "-" && c[k] != '0'
      && Digits(c[k..]) && ReadDecimal(c[k..]) == n
  {
    if n >= 2 {
      DecimalReads(n);
      assert Candidate(base, n)[|base| + 1..] == Decimal(n);
    }
  }

  // name is the first candidate for base that is not taken.
  ghost predicate FirstFree(base: string, taken: set<string>, name: string) {
    name !in taken && exists m :: 1 <= m <= |taken| + 1 && name == Candidate(base, m) && AllTaken(base, taken, m - 1)
  }

  // Pigeonhole: as many candidates as are taken have to be different names.
  lemma {:induction false} TakenFit(base: string, taken: set<string>, n: nat)
    requires AllTaken(base, taken, n)
    ensures n <= |taken|
    decreases n
  {
    if n > 0 {
      var last := Candidate(base, n);
      forall i | 1 <= i <= n - 1
        ensures Candidate(base, i) in taken - {last}
      {
        CandidatesDiffer(base, i, n);
      }
      TakenFit(base, taken - {last}, n - 1);
    }
  }

  // The first free candidate, from the n-th on.
  ghost function FreeFrom(base: string, taken: set<string>, n: nat): (m: nat)
    requires 1 <= n && AllTaken(base, taken, n - 1)
    ensures n <= m <= |taken| + 1 && Candidate(base, m) !in taken && AllTaken(base, taken, m - 1)
    decreases |taken| + 1 - n
  {
    TakenFit(base, taken, n - 1);
    if Candidate(base, n) !in taken then n
    else
      assert AllTaken(base, taken, n);
      TakenFit(base, taken, n);
      FreeFrom(base, taken, n + 1)
  }

  // The name a guest gets: the least candidate nobody has.
  ghost function FreeName(base: string, taken: set<string>): (name: string)
    ensures name !in taken
    ensures exists m :: 1 <= m <= |taken| + 1 && name == Candidate(base, m) && AllTaken(base, taken, m - 1)
  {
    Candidate(base, FreeFrom(base, taken, 1))
  }

  lemma FreeNameIsLeast(base: string, taken: set<string>, m: nat)
    requires 1 <= m && Candidate(base, m) !in taken && AllTaken(base, taken, m - 1)
    ensures FreeName(base, taken) == Candidate(base, m)
  {
    var f := FreeFrom(base, taken, 1);
    assert m <= f <= m;
  }
}
