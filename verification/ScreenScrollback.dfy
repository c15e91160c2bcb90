// The bounded screen against the unbounded one, and what a snapshot is.
module ScreenScrollback {
  import opened Common
  import opened Utf8
  import opened ScreenSpec
  import opened ScreenChunks

  // The screen that forgets, as a view of the one that does not.
  function Trimmed(cap: nat, s: State): State {
    s.(lines := Last(Some(cap), s.lines))
  }

  lemma LastOfAppended<T>(cap: nat, xs: seq<T>, x: T)
    ensures Last(Some(cap), Last(Some(cap), xs) + [x]) == Last(Some(cap), xs + [x])
  {
  }

  lemma PrintRefines(cap: nat, s: State, r: Rune)
    ensures Print(Some(cap), Trimmed(cap, s), r) == Trimmed(cap, Print(None, s, r))
  {
    if r == NEWLINE {
      LastOfAppended(cap, s.lines, TrimRight(EncodeAll(s.cur), {SPACE}));
    }
  }

  lemma {:induction false} FeedRefines(cap: nat, s: State, buf: seq<Byte>)
    ensures Feed(Some(cap), Trimmed(cap, s), buf) == Trimmed(cap, Feed(None, s, buf))
    decreases |buf|
  {
    if buf == [] {
    } else if s.esc != [] || buf[0] == ESCAPE {
      assert EscapeByte(Trimmed(cap, s), buf[0]) == Trimmed(cap, EscapeByte(s, buf[0]));
      FeedRefines(cap, EscapeByte(s, buf[0]), buf[1..]);
    } else if !Incomplete(buf) {
      var d := DecodeRune(buf);
      PrintRefines(cap, s, d.rune);
      FeedRefines(cap, Print(None, s, d.rune), buf[d.size..]);
    }
  }

  // After any writes, the bounded screen holds the last lines of the unbounded
  // one and agrees with it in everything else.
  lemma {:induction false} ScrollbackRefines(cap: nat, s: State, chunks: seq<seq<Byte>>)
    ensures WriteAll(Some(cap), Trimmed(cap, s), chunks) == Trimmed(cap, WriteAll(None, s, chunks))
    decreases |chunks|
  {
    if chunks != [] {
      FeedRefines(cap, s.(pending := []), s.pending + chunks[0]);
      assert Trimmed(cap, s).(pending := []) == Trimmed(cap, s.(pending := []));
      ScrollbackRefines(cap, Write(None, s, chunks[0]), chunks[1..]);
    }
  }

  // The count of lines kept, for the program's own bound.
  lemma ScrollbackCount(chunks: seq<seq<Byte>>)
    ensures var all := WriteAll(None, BLANK, chunks).lines;
            var kept := WriteAll(Some(MAX_LINES), BLANK, chunks).lines;
            |kept| == Min(MAX_LINES, |all|) && kept == all[|all| - |kept|..]
  {
    assert Trimmed(MAX_LINES, BLANK) == BLANK;
    ScrollbackRefines(MAX_LINES, BLANK, chunks);
  }

  // Position i of text begins a line.
  predicate LineStart(text: seq<Byte>, i: nat)
    requires i <= |text|
  {
    i == 0 || text[i - 1] == NEWLINE
  }

  // A snapshot is a suffix of at most 12 KiB of the text on screen: all of it
  // when it fits; otherwise cut at the first line start after the 12 KiB mark,
  // or at the mark itself when no line starts there or later.
  lemma SnapshotIsBoundedSuffix(text: seq<Byte>)
    ensures var b := Bounded(text);
            var i := |text| - |b|;
            var mark := |text| - MAX_SNAPSHOT;
            && |b| <= MAX_SNAPSHOT && |b| <= |text| && b == text[i..]
            && (mark <= 0 ==> b == text)
            && (mark > 0 && (exists k :: mark < k <= |text| && LineStart(text, k)) ==>
                  mark < i && LineStart(text, i) && forall k :: mark < k < i ==> !LineStart(text, k))
            && (mark > 0 && (forall k :: mark < k <= |text| ==> !LineStart(text, k)) ==> i == mark)
  {
    var mark := |text| - MAX_SNAPSHOT;
    if mark > 0 {
      var window := text[mark..];
      var j := IndexOf(window, NEWLINE);
      assert forall k :: 0 <= k < |window| ==> window[k] == text[mark + k];
      forall k | mark < k <= |text| && LineStart(text, k)
        ensures mark + j < k
      {
        assert window[k - 1 - mark] == NEWLINE;
      }
      if j < |window| {
        assert LineStart(text, mark + j + 1);
        assert window[j + 1..] == text[mark + j + 1..];
      }
    }
  }
}
