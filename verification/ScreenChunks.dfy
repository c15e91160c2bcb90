// How the stream is cut into writes never matters, and what every state keeps.
module ScreenChunks {
  import opened Common
  import opened Utf8
  import opened ScreenSpec

  // The heart of the matter: feeding a and then writing b is feeding both.
  lemma {:induction false} FeedSplit(cap: Option<nat>, s: State, a: seq<Byte>, b: seq<Byte>)
    requires s.pending == []
    ensures Feed(cap, s, a + b) == Write(cap, Feed(cap, s, a), b)
    decreases |a|
  {
    if a == [] {
      assert a + b == b && s.pending + b == b;
      assert s.(pending := []) == s;
    } else if s.esc != [] || a[0] == ESCAPE {
      assert (a + b)[1..] == a[1..] + b;
      FeedSplit(cap, EscapeByte(s, a[0]), a[1..], b);
    } else if Incomplete(a) {
      assert s.(pending := a).(pending := []) == s;
    } else {
      DecodeIsStable(a, b);
      var d := DecodeRune(a);
      assert (a + b)[d.size..] == a[d.size..] + b;
      FeedSplit(cap, Print(cap, s, d.rune), a[d.size..], b);
    }
  }

  // Two writes leave the same screen as one write of both, from any state.
  lemma WriteSplit(cap: Option<nat>, s: State, a: seq<Byte>, b: seq<Byte>)
    ensures Write(cap, Write(cap, s, a), b) == Write(cap, s, a + b)
  {
    FeedSplit(cap, s.(pending := []), s.pending + a, b);
    assert s.pending + a + b == s.pending + (a + b);
  }

  // Runes whose encodings and sums of them a screen may hold.
  ghost predicate AllPrintable(rs: seq<Rune>) {
    forall r :: r in rs ==> Printable(r)
  }

  // A finished line is the encoding of printable runes and ends in no space.
  ghost predicate LineOk(line: seq<Byte>) {
    (exists rs :: AllPrintable(rs) && line == EncodeAll(rs)) && (line != [] ==> line[|line| - 1] != SPACE)
  }

  // What holds of every screen that writes can produce.
  ghost predicate Valid(cap: Option<nat>, s: State) {
    && (cap.Some? ==> |s.lines| <= cap.value)
    && (forall line :: line in s.lines ==> LineOk(line))
    && AllPrintable(s.cur)
    && |s.esc| <= MAX_ESCAPE
    && (s.esc != [] ==> s.esc[0] == ESCAPE && s.pending == [] && !Completes(s.esc))
    && (s.pending != [] ==> s.pending[0] != ESCAPE && |s.pending| <= 3 && exists r: Rune :: Begins(s.pending, r))
  }

  lemma TrimmedLineOk(rs: seq<Rune>)
    requires AllPrintable(rs)
    ensures LineOk(TrimRight(EncodeAll(rs), {SPACE}))
    decreases |rs|
  {
    var e := EncodeAll(rs);
    if e != [] && e[|e| - 1] == SPACE {
      assert Encode(rs[|rs| - 1]) == [SPACE] by {
        assert e[|e| - 1] == Encode(rs[|rs| - 1])[|Encode(rs[|rs| - 1])| - 1];
      }
      assert e[..|e| - 1] == EncodeAll(rs[..|rs| - 1]);
      TrimmedLineOk(rs[..|rs| - 1]);
    } else {
      assert TrimRight(e, {SPACE}) == e;
    }
  }

  lemma PrintKeepsValid(cap: Option<nat>, s: State, r: Rune)
    requires Valid(cap, s) && AtBoundary(s)
    ensures Valid(cap, Print(cap, s, r)) && AtBoundary(Print(cap, s, r))
  {
    if r == NEWLINE {
      TrimmedLineOk(s.cur);
    }
  }

  lemma EscapeKeepsValid(cap: Option<nat>, s: State, b: Byte)
    requires Valid(cap, s) && s.pending == [] && (s.esc != [] || b == ESCAPE)
    ensures Valid(cap, EscapeByte(s, b)) && EscapeByte(s, b).pending == []
  {
  }

  lemma {:induction false} FeedKeepsValid(cap: Option<nat>, s: State, buf: seq<Byte>)
    requires Valid(cap, s) && s.pending == []
    ensures Valid(cap, Feed(cap, s, buf))
    decreases |buf|
  {
    if buf == [] {
    } else if s.esc != [] || buf[0] == ESCAPE {
      EscapeKeepsValid(cap, s, buf[0]);
      FeedKeepsValid(cap, EscapeByte(s, buf[0]), buf[1..]);
    } else if Incomplete(buf) {
      IncompleteIsProperPrefix(buf);
    } else {
      var d := DecodeRune(buf);
      PrintKeepsValid(cap, s, d.rune);
      FeedKeepsValid(cap, Print(cap, s, d.rune), buf[d.size..]);
    }
  }

  // Every write keeps the invariant, and the blank screen has it.
  lemma WriteKeepsValid(cap: Option<nat>, s: State, p: seq<Byte>)
    requires Valid(cap, s)
    ensures Valid(cap, BLANK)
    ensures Valid(cap, Write(cap, s, p))
  {
    FeedKeepsValid(cap, s.(pending := []), s.pending + p);
  }

  // A write of nothing changes nothing, in a valid state.
  lemma WriteNothing(cap: Option<nat>, s: State)
    requires Valid(cap, s)
    ensures Write(cap, s, []) == s
  {
    assert s.pending + [] == s.pending;
    if s.pending != [] {
      IncompleteIsProperPrefix(s.pending);
    }
    assert s.(pending := []).(pending := s.pending) == s;
  }

  // Any way of cutting a stream into writes leaves the screen that a single
  // write of the whole stream leaves.
  lemma {:induction false} ChunkIndependence(cap: Option<nat>, s: State, chunks: seq<seq<Byte>>)
    requires Valid(cap, s)
    ensures WriteAll(cap, s, chunks) == Write(cap, s, Flatten(chunks))
    ensures Valid(cap, WriteAll(cap, s, chunks))
    decreases |chunks|
  {
    if chunks == [] {
      WriteNothing(cap, s);
    } else {
      WriteKeepsValid(cap, s, chunks[0]);
      ChunkIndependence(cap, Write(cap, s, chunks[0]), chunks[1..]);
      WriteSplit(cap, s, chunks[0], Flatten(chunks[1..]));
    }
  }

  // Two cuttings of one stream show an agent the same text.
  lemma SameStreamSameSnapshot(xs: seq<seq<Byte>>, ys: seq<seq<Byte>>)
    requires Flatten(xs) == Flatten(ys)
    ensures WriteAll(Some(MAX_LINES), BLANK, xs) == WriteAll(Some(MAX_LINES), BLANK, ys)
    ensures Snapshot(WriteAll(Some(MAX_LINES), BLANK, xs)) == Snapshot(WriteAll(Some(MAX_LINES), BLANK, ys))
  {
    ChunkIndependence(Some(MAX_LINES), BLANK, xs);
    ChunkIndependence(Some(MAX_LINES), BLANK, ys);
  }
}
