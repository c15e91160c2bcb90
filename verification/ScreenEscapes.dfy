// Escape sequences leave no trace on the screen: which ones, and up to what
// length exactly. What the standards call an escape sequence is the matter of
// ScreenGrammar; here it is what the recogniser takes for one.
module ScreenEscapes {
  import opened Common
  import opened Utf8
  import opened ScreenSpec
  import opened ScreenChunks

  // A whole sequence as the recogniser sees it: ESC, the byte that says how it
  // goes on, and the first byte that ends it.
  ghost predicate IsSequence(e: seq<Byte>) {
    && 2 <= |e|
    && e[0] == ESCAPE
    && match KindOf(e[1])
       case Control =>
         && 3 <= |e| && IsFinal(e[|e| - 1])
         && forall i :: 2 <= i < |e| - 1 ==> !IsFinal(e[i])
       case Text =>
         && 3 <= |e| && Terminates(e, |e| - 1)
         && forall i :: 2 <= i < |e| - 1 ==> !Terminates(e, i)
       case Charset => |e| == 3
       case Short => |e| == 2
  }

  // A string ends at BEL, or at a backslash right after an ESC of its own.
  predicate Terminates(e: seq<Byte>, i: nat)
    requires 2 <= i < |e|
  {
    e[i] == BEL || (e[i] == BACKSLASH && e[i - 1] == ESCAPE)
  }

  // What a complete sequence does to a screen at a boundary: only erasing does
  // anything.
  function Meaning(s: State, e: seq<Byte>): State
    requires 2 <= |e|
  {
    if KindOf(e[1]) == Control && 3 <= |e| then Csi(s, e[2..|e| - 1], e[|e| - 1]) else s
  }

  // No proper prefix of a sequence is complete, and the whole is.
  lemma SequenceCompletesLast(e: seq<Byte>, n: nat)
    requires IsSequence(e) && 1 <= n <= |e|
    ensures Completes(e[..n]) <==> n == |e|
  {
    if 3 <= n {
      assert e[..n][n - 1] == e[n - 1] && e[..n][n - 2] == e[n - 2] && e[..n][1] == e[1];
      if n < |e| && KindOf(e[1]) == Text {
        assert !Terminates(e, n - 1);
      } else if n == |e| && KindOf(e[1]) == Text {
        assert Terminates(e, n - 1);
      }
    }
  }

  // The bytes of a sequence are collected one by one.
  lemma {:induction false} FeedCollects(cap: Option<nat>, s: State, e: seq<Byte>, n: nat, rest: seq<Byte>)
    requires AtBoundary(s) && IsSequence(e) && n < |e| && n <= MAX_ESCAPE
    ensures Feed(cap, s, e + rest) == Feed(cap, s.(esc := e[..n]), e[n..] + rest)
  {
    if n == 0 {
      assert s.(esc := e[..0]) == s && e[0..] == e;
    } else {
      FeedCollects(cap, s, e, n - 1, rest);
      SequenceCompletesLast(e, n);
      assert e[..n - 1] + [e[n - 1]] == e[..n];
      assert (e[n - 1..] + rest)[0] == e[n - 1] && (e[n - 1..] + rest)[1..] == e[n..] + rest;
    }
  }

  // A sequence of at most 257 bytes does what it means and nothing else.
  lemma SequenceTakesEffect(cap: Option<nat>, s: State, e: seq<Byte>, rest: seq<Byte>)
    requires AtBoundary(s) && IsSequence(e) && |e| <= MAX_ESCAPE + 1
    ensures Feed(cap, s, e + rest) == Feed(cap, Meaning(s, e), rest)
  {
    var n := |e| - 1;
    FeedCollects(cap, s, e, n, rest);
    SequenceCompletesLast(e, |e|);
    assert e[..n] + [e[n]] == e && e[..|e|] == e;
    assert (e[n..] + rest)[0] == e[n] && (e[n..] + rest)[1..] == rest;
    assert EscapeByte(s.(esc := e[..n]), e[n]) == Meaning(s, e);
  }

  // A longer one is dropped after its first 257 bytes: all that follows is read
  // as if it stood in the open.
  lemma LongSequenceIsCut(cap: Option<nat>, s: State, e: seq<Byte>, rest: seq<Byte>)
    requires AtBoundary(s) && IsSequence(e) && MAX_ESCAPE + 1 < |e|
    ensures Feed(cap, s, e + rest) == Feed(cap, s, e[MAX_ESCAPE + 1..] + rest)
  {
    var n := MAX_ESCAPE;
    FeedCollects(cap, s, e, n, rest);
    SequenceCompletesLast(e, n + 1);
    assert e[..n] + [e[n]] == e[..n + 1];
    assert (e[n..] + rest)[0] == e[n] && (e[n..] + rest)[1..] == e[n + 1..] + rest;
    assert EscapeByte(s.(esc := e[..n]), e[n]) == s;
  }

  // The sequences that erase: two clear the screen, three the line.
  predicate ClearsScreen(e: seq<Byte>) {
    e == [ESCAPE, 0x5b, 0x32, 0x4a] || e == [ESCAPE, 0x5b, 0x33, 0x4a]
  }

  predicate ClearsLine(e: seq<Byte>) {
    e == [ESCAPE, 0x5b, 0x4b] || e == [ESCAPE, 0x5b, 0x30, 0x4b] || e == [ESCAPE, 0x5b, 0x32, 0x4b]
  }

  predicate Neutral(e: seq<Byte>) {
    !ClearsScreen(e) && !ClearsLine(e)
  }

  // A control sequence in its parts.
  lemma PartsOf(e: seq<Byte>)
    requires 3 <= |e| && e[0] == ESCAPE && e[1] == 0x5b
    ensures e == [ESCAPE, 0x5b] + e[2..|e| - 1] + [e[|e| - 1]]
  {
    assert e[..2] == [ESCAPE, 0x5b] && e[|e| - 1..] == [e[|e| - 1]];
    assert e == e[..2] + e[2..|e| - 1] + e[|e| - 1..];
  }

  lemma ErasersMean(s: State, e: seq<Byte>)
    requires !Neutral(e)
    ensures IsSequence(e)
    ensures ClearsScreen(e) ==> Meaning(s, e) == State([], [], false, s.esc, s.pending)
    ensures ClearsLine(e) ==> Meaning(s, e) == if s.cr then State(s.lines, [], true, s.esc, s.pending) else s
  {
    assert KindOf(e[1]) == Control;
    assert e[2..|e| - 1] == if |e| == 3 then [] else [e[2]];
  }

  lemma OthersMeanNothing(s: State, e: seq<Byte>)
    requires IsSequence(e) && Neutral(e)
    ensures Meaning(s, e) == s
  {
    if KindOf(e[1]) == Control {
      PartsOf(e);
    }
  }

  // What each sequence means: neutral ones nothing, whatever their final byte and
  // parameters.
  lemma MeaningIs(s: State, e: seq<Byte>)
    requires IsSequence(e)
    ensures ClearsScreen(e) ==> Meaning(s, e) == State([], [], false, s.esc, s.pending)
    ensures ClearsLine(e) ==> Meaning(s, e) == if s.cr then State(s.lines, [], true, s.esc, s.pending) else s
    ensures Neutral(e) ==> Meaning(s, e) == s
  {
    if Neutral(e) {
      OthersMeanNothing(s, e);
    } else {
      ErasersMean(s, e);
    }
  }

  // A neutral sequence of at most 257 bytes leaves the whole state as it was.
  lemma EscapeTransparency(cap: Option<nat>, s: State, e: seq<Byte>)
    requires AtBoundary(s) && IsSequence(e) && Neutral(e) && |e| <= MAX_ESCAPE + 1
    ensures Write(cap, s, e) == s
  {
    SequenceTakesEffect(cap, s, e, []);
    MeaningIs(s, e);
    assert e + [] == e && s.pending + e == e && s.(pending := []) == s;
  }

  // ESC [ 2 J or ESC [ 3 J: what was there before no longer matters.
  lemma ClearingStartsOver(cap: Option<nat>, s: State, e: seq<Byte>, rest: seq<Byte>)
    requires AtBoundary(s) && ClearsScreen(e)
    ensures Write(cap, s, e + rest) == Write(cap, BLANK, rest)
  {
    SequenceTakesEffect(cap, s, e, rest);
    MeaningIs(s, e);
    assert s.pending + (e + rest) == e + rest && BLANK.pending + rest == rest;
    assert s.(pending := []) == s && BLANK.(pending := []) == BLANK;
  }

  // ESC [ K, ESC [ 0 K and ESC [ 2 K after a return empty the line that is being
  // redrawn and touch nothing else; without the return they do nothing.
  lemma ErasingTheLine(cap: Option<nat>, s: State, e: seq<Byte>, rest: seq<Byte>)
    requires AtBoundary(s) && ClearsLine(e)
    ensures Write(cap, s, e + rest) == Write(cap, State(s.lines, if s.cr then [] else s.cur, s.cr, [], []), rest)
    ensures Write(cap, s, e) == State(s.lines, if s.cr then [] else s.cur, s.cr, [], [])
  {
    var t := State(s.lines, if s.cr then [] else s.cur, s.cr, [], []);
    SequenceTakesEffect(cap, s, e, rest);
    SequenceTakesEffect(cap, s, e, []);
    MeaningIs(s, e);
    assert s.pending + (e + rest) == e + rest && t.pending + rest == rest && s.pending + e == e + [];
    assert s.(pending := []) == s && t.(pending := []) == t;
  }

  // A stream as text with sequences in between.
  datatype Segment = Plain(bytes: seq<Byte>) | Sequence(bytes: seq<Byte>)

  function Whole(segments: seq<Segment>): seq<Byte> {
    if segments == [] then [] else segments[0].bytes + Whole(segments[1..])
  }

  function PlainOnly(segments: seq<Segment>): seq<Byte> {
    if segments == [] then []
    else (if segments[0].Plain? then segments[0].bytes else []) + PlainOnly(segments[1..])
  }

  // Each sequence is neutral, short enough, and stands at a rune boundary of the
  // text around it.
  ghost predicate AtRuneBoundaries(cap: Option<nat>, s: State, segments: seq<Segment>)
    decreases |segments|
  {
    segments == [] ||
    match segments[0]
    case Plain(p) => AtRuneBoundaries(cap, Write(cap, s, p), segments[1..])
    case Sequence(e) =>
      && AtBoundary(s) && IsSequence(e) && Neutral(e) && |e| <= MAX_ESCAPE + 1
      && AtRuneBoundaries(cap, s, segments[1..])
  }

  // Deleting every such sequence from a stream does not change the screen.
  lemma {:induction false} DeletingSequences(cap: Option<nat>, s: State, segments: seq<Segment>)
    requires AtRuneBoundaries(cap, s, segments)
    ensures Write(cap, s, Whole(segments)) == Write(cap, s, PlainOnly(segments))
    decreases |segments|
  {
    if segments != [] {
      var rest := segments[1..];
      match segments[0] {
        case Plain(p) =>
          DeletingSequences(cap, Write(cap, s, p), rest);
          WriteSplit(cap, s, p, Whole(rest));
          WriteSplit(cap, s, p, PlainOnly(rest));
        case Sequence(e) =>
          DeletingSequences(cap, s, rest);
          EscapeTransparency(cap, s, e);
          WriteSplit(cap, s, e, Whole(rest));
          assert [] + PlainOnly(rest) == PlainOnly(rest);
      }
    }
  }
}
