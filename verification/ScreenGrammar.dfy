// The recogniser of escape sequences against the standards' own grammar: which
// sequences it takes whole, and what the others leave on the screen.
module ScreenGrammar {
  import opened Common
  import opened Utf8
  import opened ScreenSpec
  import opened ScreenEscapes
  import opened ScreenText

  // ----- the grammar, by byte ranges

  // A control sequence (section 5.4 of ECMA-48): ESC [, parameter bytes,
  // intermediate bytes, a final byte.
  ghost predicate ControlSequence(e: seq<Byte>) {
    3 <= |e| && e[0] == ESCAPE && e[1] == 0x5b && 0x40 <= e[|e| - 1] <= 0x7e
    && exists m :: 2 <= m < |e| && ParametersUpTo(e, m)
  }

  ghost predicate ParametersUpTo(e: seq<Byte>, m: int)
    requires 3 <= |e| && 2 <= m < |e|
  {
    && (forall i :: 2 <= i < m ==> 0x30 <= e[i] <= 0x3f)
    && (forall i :: m <= i < |e| - 1 ==> 0x20 <= e[i] <= 0x2f)
  }

  // A control string (section 5.6 of ECMA-48) from its opener to ST: a device
  // control string, an operating system command, a privacy message or an
  // application program command with a command string, or SOS with a character
  // string of anything but SOS and ST.
  ghost predicate CommandString(e: seq<Byte>) {
    && 4 <= |e| && e[0] == ESCAPE && e[|e| - 2..] == [ESCAPE, BACKSLASH]
    && (e[1] == 0x50 || e[1] == 0x5d || e[1] == 0x5e || e[1] == 0x5f)
    && forall i :: 2 <= i < |e| - 2 ==> 0x08 <= e[i] <= 0x0d || 0x20 <= e[i] <= 0x7e
  }

  const SOS: Byte := 0x58

  ghost predicate CharacterString(e: seq<Byte>) {
    && 4 <= |e| && e[0] == ESCAPE && e[1] == SOS && e[|e| - 2..] == [ESCAPE, BACKSLASH]
    && forall i :: 2 <= i < |e| - 2 && e[i] == ESCAPE ==> e[i + 1] != SOS && e[i + 1] != BACKSLASH
  }

  // Any other escape sequence (sections 5.3 and 5.5 of ECMA-48, and section 13 of
  // ECMA-35 for those with intermediate bytes).
  ghost predicate EscapeSequence(e: seq<Byte>) {
    && 2 <= |e| && e[0] == ESCAPE && 0x30 <= e[|e| - 1] <= 0x7e
    && (forall i :: 1 <= i < |e| - 1 ==> 0x20 <= e[i] <= 0x2f)
    && (|e| == 2 ==> e[1] != 0x5b && e[1] != 0x50 && e[1] != SOS && e[1] != 0x5d && e[1] != 0x5e && e[1] != 0x5f)
  }

  ghost predicate Standard(e: seq<Byte>) {
    ControlSequence(e) || CommandString(e) || CharacterString(e) || EscapeSequence(e)
  }

  // ----- what is recognised

  // The recogniser ends e at its last byte and at none before.
  ghost predicate EndsExactly(e: seq<Byte>) {
    forall n :: 1 <= n <= |e| ==> (Completes(e[..n]) <==> n == |e|)
  }

  // Sequences the recogniser takes for shorter ones: SOS strings, and escape
  // sequences with intermediate bytes other than a charset designation of three
  // bytes.
  predicate Leaks(e: seq<Byte>)
    requires 2 <= |e|
  {
    e[1] == SOS || (0x20 <= e[1] <= 0x2f && !(0x28 <= e[1] <= 0x2b && |e| == 3))
  }

  lemma UnleakingIsSequence(e: seq<Byte>)
    requires Standard(e) && !Leaks(e)
    ensures IsSequence(e)
  {
    if ControlSequence(e) {
      var m :| 2 <= m < |e| && ParametersUpTo(e, m);
      assert forall i :: 2 <= i < |e| - 1 ==> 0x20 <= e[i] <= 0x3f;
    } else if CommandString(e) {
      assert e[|e| - 2] == e[|e| - 2..][0] && e[|e| - 1] == e[|e| - 2..][1];
    }
  }

  // Where a leaking sequence is taken to end.
  function LeakFrom(e: seq<Byte>): (k: nat)
    requires 2 <= |e|
    ensures k == 2 || k == 3
  {
    if 0x28 <= e[1] <= 0x2b then 3 else 2
  }

  // The part of a leaking sequence that is taken for all of it.
  lemma LeakingEndsEarly(e: seq<Byte>)
    requires Standard(e) && Leaks(e)
    ensures LeakFrom(e) < |e| && IsSequence(e[..LeakFrom(e)]) && KindOf(e[1]) != Control
    ensures Completes(e[..LeakFrom(e)])
  {
  }

  // Of the standard's sequences the recogniser takes exactly those that do not
  // leak for what they are.
  lemma RecognisedExactly(e: seq<Byte>)
    requires Standard(e)
    ensures EndsExactly(e) <==> !Leaks(e)
  {
    if Leaks(e) {
      LeakingEndsEarly(e);
    } else {
      UnleakingIsSequence(e);
      forall n | 1 <= n <= |e|
        ensures Completes(e[..n]) <==> n == |e|
      {
        SequenceCompletesLast(e, n);
      }
    }
  }

  // ----- what is left on the screen

  ghost predicate Ascii(p: seq<Byte>) {
    forall i :: 0 <= i < |p| ==> 0x20 <= p[i] <= 0x7e
  }

  lemma {:induction false} EncodeAscii(p: seq<Byte>)
    requires Ascii(p)
    ensures EncodeAll(p) == p
    decreases |p|
  {
    if p != [] {
      EncodeAscii(p[..|p| - 1]);
      assert p == p[..|p| - 1] + [p[|p| - 1]];
    }
  }

  lemma FeedAscii(cap: Option<nat>, s: State, p: seq<Byte>, rest: seq<Byte>)
    requires AtBoundary(s) && Ascii(p)
    ensures Feed(cap, s, p + rest) == Feed(cap, PutAll(s, p), rest)
  {
    EncodeAscii(p);
    FeedText(cap, s, p, rest);
  }

  // Drawing leaves the screen as it was only if there is nothing to draw.
  lemma DrawingShows(s: State, p: seq<Rune>)
    ensures PutAll(s, p) == s <==> p == []
  {
  }

  lemma WriteIsFeed(cap: Option<nat>, s: State, e: seq<Byte>)
    requires AtBoundary(s)
    ensures Write(cap, s, e) == Feed(cap, s, e + [])
  {
    assert s.pending + e == e + [] && s.(pending := []) == s;
  }

  // Past the end it is taken to have, a leaking sequence is read in the open.
  lemma LeakIsRead(cap: Option<nat>, s: State, e: seq<Byte>, rest: seq<Byte>)
    requires AtBoundary(s) && Standard(e) && Leaks(e)
    ensures Feed(cap, s, e + rest) == Feed(cap, s, e[LeakFrom(e)..] + rest)
  {
    var k := LeakFrom(e);
    LeakingEndsEarly(e);
    SequenceTakesEffect(cap, s, e[..k], e[k..] + rest);
    assert e[..k] + (e[k..] + rest) == e + rest;
  }

  // ST on its own does nothing.
  lemma LoneTerminator(cap: Option<nat>, s: State)
    requires AtBoundary(s)
    ensures Feed(cap, s, [ESCAPE, BACKSLASH]) == s
  {
    var e: seq<Byte> := [ESCAPE, BACKSLASH];
    SequenceTakesEffect(cap, s, e, []);
    assert e + [] == e;
  }

  // Text with ST after it: the text alone is seen.
  lemma TextThenTerminator(cap: Option<nat>, s: State, p: seq<Byte>)
    requires AtBoundary(s) && Ascii(p)
    ensures Feed(cap, s, p + [ESCAPE, BACKSLASH]) == PutAll(s, p)
  {
    FeedAscii(cap, s, p, [ESCAPE, BACKSLASH]);
    LoneTerminator(cap, PutAll(s, p));
  }

  // Strings whose payload is ASCII text; the other sequences have none.
  ghost predicate TextOnly(e: seq<Byte>) {
    CommandString(e) || CharacterString(e) ==> Ascii(e[2..|e| - 2])
  }

  const LIMIT: nat := MAX_ESCAPE + 1

  // What a sequence leaves to be drawn. A command string cut between ESC and
  // backslash leaves the backslash; cut right before them it leaves nothing.
  ghost function Drawn(e: seq<Byte>): seq<Byte>
    requires Standard(e)
  {
    if CharacterString(e) then e[2..|e| - 2]
    else if Leaks(e) then e[LeakFrom(e)..]
    else if |e| <= LIMIT then []
    else if CommandString(e) && |e| >= LIMIT + 2 then e[LIMIT..|e| - 2]
    else e[LIMIT..]
  }

  lemma LongCommandStringDraws(cap: Option<nat>, s: State, e: seq<Byte>)
    requires AtBoundary(s) && CommandString(e) && !CharacterString(e) && TextOnly(e) && !Leaks(e) && LIMIT < |e|
    ensures Feed(cap, s, e[LIMIT..] + []) == PutAll(s, Drawn(e))
  {
    var body := e[2..|e| - 2];
    var tail := e[LIMIT..];
    assert e[|e| - 2] == e[|e| - 2..][0] && e[|e| - 1] == e[|e| - 2..][1];
    if |e| == LIMIT + 1 {
      assert tail == [BACKSLASH];
      FeedAscii(cap, s, tail, []);
    } else {
      assert tail == body[LIMIT - 2..] + [ESCAPE, BACKSLASH];
      assert Drawn(e) == body[LIMIT - 2..];
      assert tail + [] == tail;
      TextThenTerminator(cap, s, body[LIMIT - 2..]);
    }
  }

  lemma LeakDraws(cap: Option<nat>, s: State, e: seq<Byte>)
    requires AtBoundary(s) && Standard(e) && TextOnly(e) && Leaks(e)
    ensures Feed(cap, s, e[LeakFrom(e)..] + []) == PutAll(s, Drawn(e))
  {
    if CharacterString(e) {
      var body := e[2..|e| - 2];
      assert e[2..] + [] == body + [ESCAPE, BACKSLASH];
      TextThenTerminator(cap, s, body);
    } else {
      FeedAscii(cap, s, e[LeakFrom(e)..], []);
    }
  }

  lemma WholeSequenceDraws(cap: Option<nat>, s: State, e: seq<Byte>)
    requires AtBoundary(s) && Standard(e) && !Leaks(e) && Neutral(e) && |e| <= LIMIT
    ensures Feed(cap, s, e + []) == s && Drawn(e) == []
  {
    UnleakingIsSequence(e);
    MeaningIs(s, e);
    SequenceTakesEffect(cap, s, e, []);
  }

  // What any sequence of the standards does to a screen: it erases, or it draws
  // what is listed above, and nothing else.
  lemma SequenceDraws(cap: Option<nat>, s: State, e: seq<Byte>)
    requires AtBoundary(s) && Standard(e) && TextOnly(e) && Neutral(e)
    ensures Write(cap, s, e) == PutAll(s, Drawn(e))
  {
    WriteIsFeed(cap, s, e);
    if Leaks(e) {
      LeakIsRead(cap, s, e, []);
      LeakDraws(cap, s, e);
    } else if |e| <= LIMIT {
      WholeSequenceDraws(cap, s, e);
    } else {
      UnleakingIsSequence(e);
      LongSequenceIsCut(cap, s, e, []);
      SurplusDraws(cap, s, e);
    }
  }

  lemma SurplusDraws(cap: Option<nat>, s: State, e: seq<Byte>)
    requires AtBoundary(s) && Standard(e) && TextOnly(e) && !Leaks(e) && LIMIT < |e|
    ensures Feed(cap, s, e[LIMIT..] + []) == PutAll(s, Drawn(e))
  {
    if CommandString(e) {
      LongCommandStringDraws(cap, s, e);
    } else {
      LongControlSequenceIsText(e);
      FeedAscii(cap, s, e[LIMIT..], []);
    }
  }

  lemma LongControlSequenceIsText(e: seq<Byte>)
    requires Standard(e) && !Leaks(e) && !CommandString(e) && LIMIT < |e|
    ensures Ascii(e[LIMIT..])
  {
    var m :| 2 <= m < |e| && ParametersUpTo(e, m);
    assert forall i :: 2 <= i < |e| ==> 0x20 <= e[i] <= 0x7e;
  }

  lemma ErasingShows(cap: Option<nat>, e: seq<Byte>) returns (s: State)
    requires !Neutral(e)
    ensures AtBoundary(s) && Write(cap, s, e) != s
  {
    s := State([[]], [0x61], true, [], []);
    WriteIsFeed(cap, s, e);
    assert IsSequence(e);
    MeaningIs(s, e);
    SequenceTakesEffect(cap, s, e, []);
  }

  // A sequence of the standards leaves every screen as it was exactly when it
  // neither erases nor leaves anything to be drawn.
  lemma TransparentExactly(cap: Option<nat>, e: seq<Byte>)
    requires Standard(e) && TextOnly(e)
    ensures (forall s :: AtBoundary(s) ==> Write(cap, s, e) == s) <==> Neutral(e) && Drawn(e) == []
  {
    if !Neutral(e) {
      var s := ErasingShows(cap, e);
    } else {
      forall s | AtBoundary(s)
        ensures Write(cap, s, e) == s <==> Drawn(e) == []
      {
        SequenceDraws(cap, s, e);
        DrawingShows(s, Drawn(e));
      }
      assert AtBoundary(BLANK);
    }
  }

  // A title ended by BEL, as terminals have it though the standards do not, is
  // invisible up to 255 bytes; what is longer appears as text.
  lemma TitleTransparentExactly(cap: Option<nat>, s: State, p: seq<Byte>)
    requires AtBoundary(s) && Ascii(p)
    ensures var after := Write(cap, s, [ESCAPE, 0x5d] + p + [BEL]);
            && (after == s <==> |p| < MAX_ESCAPE)
            && (MAX_ESCAPE <= |p| ==> after == PutAll(s, p[MAX_ESCAPE - 1..]))
  {
    var e := [ESCAPE, 0x5d] + p + [BEL];
    assert IsSequence(e) && Neutral(e) by {
      assert forall i :: 2 <= i < |e| - 1 ==> e[i] == p[i - 2];
    }
    if |e| <= LIMIT {
      EscapeTransparency(cap, s, e);
    } else {
      var surplus := p[MAX_ESCAPE - 1..];
      WriteIsFeed(cap, s, e);
      LongSequenceIsCut(cap, s, e, []);
      assert e[LIMIT..] + [] == surplus + [BEL];
      FeedAscii(cap, s, surplus, [BEL]);
      var t := PutAll(s, surplus);
      assert Feed(cap, t, [BEL]) == Feed(cap, t, []);
      DrawingShows(s, surplus);
    }
  }

  // A title ended by ST is invisible up to 253 bytes, and again at 255: at 254
  // the limit falls between ESC and backslash.
  lemma TerminatedTitleTransparentExactly(cap: Option<nat>, s: State, p: seq<Byte>)
    requires AtBoundary(s) && Ascii(p)
    ensures var after := Write(cap, s, [ESCAPE, 0x5d] + p + [ESCAPE, BACKSLASH]);
            && (after == s <==> |p| <= MAX_ESCAPE - 3 || |p| == MAX_ESCAPE - 1)
            && (|p| == MAX_ESCAPE - 2 ==> after == PutAll(s, [BACKSLASH as Rune]))
            && (MAX_ESCAPE <= |p| ==> after == PutAll(s, p[MAX_ESCAPE - 1..]))
  {
    var e := [ESCAPE, 0x5d] + p + [ESCAPE, BACKSLASH];
    assert e[2..|e| - 2] == p && e[|e| - 2..] == [ESCAPE, BACKSLASH];
    assert CommandString(e) by {
      assert forall i :: 2 <= i < |e| - 2 ==> e[i] == p[i - 2];
    }
    SequenceDraws(cap, s, e);
    DrawingShows(s, Drawn(e));
    if |p| >= MAX_ESCAPE - 1 {
      assert Drawn(e) == p[MAX_ESCAPE - 1..];
    } else if |p| == MAX_ESCAPE - 2 {
      assert Drawn(e) == [BACKSLASH];
    }
  }
}
