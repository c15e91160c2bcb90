// What an agent reads is what was printed: text goes through the byte parser
// and comes out as it went in, redrawn lines showing their last drawing.
module ScreenText {
  import opened Common
  import opened Utf8
  import opened ScreenSpec
  import opened ScreenChunks
  import opened ScreenScrollback

  // A whole text put on the current line.
  function PutAll(s: State, rs: seq<Rune>): State {
    if rs == [] then s else s.(cur := (if s.cr then [] else s.cur) + rs, cr := false)
  }

  // Any encoded rune but ESC is decoded, consumed and handled.
  lemma FeedAnyRune(cap: Option<nat>, s: State, r: Rune, rest: seq<Byte>)
    requires AtBoundary(s) && r != ESCAPE
    ensures Feed(cap, s, Encode(r) + rest) == Feed(cap, Print(cap, s, r), rest)
  {
    var buf := Encode(r) + rest;
    DecodeEncode(r, rest);
    assert buf[0] == Encode(r)[0];
    assert buf[|Encode(r)|..] == rest;
  }

  lemma FeedRune(cap: Option<nat>, s: State, r: Rune, rest: seq<Byte>)
    requires AtBoundary(s) && Printable(r)
    ensures Feed(cap, s, Encode(r) + rest) == Feed(cap, Put(s, r), rest)
  {
    FeedAnyRune(cap, s, r, rest);
    assert Print(cap, s, r) == Put(s, r);
  }

  lemma PutAllAppend(s: State, front: seq<Rune>, r: Rune)
    ensures Put(PutAll(s, front), r) == PutAll(s, front + [r])
  {
    var base := if s.cr then [] else s.cur;
    assert base + front + [r] == base + (front + [r]);
    assert [] + [r] == [r];
  }

  // UTF-8 text is put on the line rune for rune.
  lemma {:induction false} FeedText(cap: Option<nat>, s: State, rs: seq<Rune>, rest: seq<Byte>)
    requires AtBoundary(s) && AllPrintable(rs)
    ensures Feed(cap, s, EncodeAll(rs) + rest) == Feed(cap, PutAll(s, rs), rest)
    decreases |rs|
  {
    if rs == [] {
      assert EncodeAll(rs) + rest == rest;
    } else {
      var front, r := rs[..|rs| - 1], rs[|rs| - 1];
      PutAllAppend(s, front, r);
      assert front + [r] == rs;
      var tail := Encode(r) + rest;
      assert EncodeAll(rs) + rest == EncodeAll(front) + tail;
      FeedText(cap, s, front, tail);
      FeedRune(cap, PutAll(s, front), r, rest);
    }
  }

  // A backspace takes back the rune before it, however many bytes that had.
  lemma BackspaceUndoes(cap: Option<nat>, s: State, r: Rune, rest: seq<Byte>)
    requires AtBoundary(s) && !s.cr && Printable(r)
    ensures Feed(cap, s, Encode(r) + ([BACKSPACE] + rest)) == Feed(cap, s, rest)
  {
    var tail := [BACKSPACE] + rest;
    FeedRune(cap, s, r, tail);
    assert tail[0] == BACKSPACE && tail[1..] == rest;
    assert Put(s, r).cur[..|s.cur|] == s.cur;
  }

  // A tab ends at the next multiple of eight, at least one column on, and fills
  // with spaces; after a return it starts from an empty line.
  lemma TabReachesTabStop(cap: Option<nat>, s: State)
    ensures var t := Print(cap, s, TAB);
            var from := if s.cr then [] else s.cur;
            && t == State(s.lines, t.cur, false, s.esc, s.pending) && from < t.cur
            && |t.cur| % 8 == 0 && |t.cur| <= |from| + 8
            && forall i :: |from| <= i < |t.cur| ==> t.cur[i] == 0x20
  {
    assert ToTabStop((if s.cr then 0 else |s.cur|) + 1) < 8;
  }

  // ----- the other control characters, as bytes of a stream

  lemma FeedControl(cap: Option<nat>, s: State, b: Byte, rest: seq<Byte>)
    requires AtBoundary(s) && b < 0x80 && b != ESCAPE
    ensures Feed(cap, s, [b] + rest) == Feed(cap, Print(cap, s, b), rest)
  {
    FeedAnyRune(cap, s, b, rest);
  }

  // A return only remembers that the next character starts the line over.
  lemma ReturnWaits(cap: Option<nat>, s: State, rest: seq<Byte>)
    requires AtBoundary(s)
    ensures Feed(cap, s, [RETURN] + rest) == Feed(cap, State(s.lines, s.cur, true, [], []), rest)
  {
    FeedControl(cap, s, RETURN, rest);
  }

  // A backspace takes one character off the line, if there is one, and nothing
  // else; a return before it is still remembered.
  lemma BackspaceTakesOne(cap: Option<nat>, s: State, rest: seq<Byte>)
    requires AtBoundary(s)
    ensures s.cur == [] ==> Feed(cap, s, [BACKSPACE] + rest) == Feed(cap, s, rest)
    ensures s.cur != [] ==>
      Feed(cap, s, [BACKSPACE] + rest) == Feed(cap, State(s.lines, s.cur[..|s.cur| - 1], s.cr, [], []), rest)
  {
    FeedControl(cap, s, BACKSPACE, rest);
  }

  // A newline finishes the line as it stands, a remembered return or not.
  lemma NewlineFinishes(s: State, rest: seq<Byte>)
    requires AtBoundary(s)
    ensures Feed(None, s, [NEWLINE] + rest)
         == Feed(None, State(s.lines + [TrimRight(EncodeAll(s.cur), {SPACE})], [], false, [], []), rest)
  {
    FeedControl(None, s, NEWLINE, rest);
  }

  // Every other control character and DEL are passed over.
  lemma OtherControlsAreIgnored(cap: Option<nat>, s: State, b: Byte, rest: seq<Byte>)
    requires AtBoundary(s) && (b < 0x20 || b == 0x7f)
    requires b != ESCAPE && b != NEWLINE && b != RETURN && b != BACKSPACE && b != TAB
    ensures Feed(cap, s, [b] + rest) == Feed(cap, s, rest)
  {
    FeedControl(cap, s, b, rest);
  }

  // A byte from which no encoding goes on, neither a whole one nor the start of
  // one that may still come, is dropped alone.
  lemma BadBytesAreDropped(cap: Option<nat>, s: State, p: seq<Byte>)
    requires AtBoundary(s) && p != [] && p[0] != ESCAPE
    requires forall r: Rune :: !(Encode(r) <= p) && !Begins(p, r)
    ensures Feed(cap, s, p) == Feed(cap, s, p[1..])
  {
    var d := DecodeRune(p);
    IncompleteIsProperPrefix(p);
    assert !(Encode(d.rune) <= p);
    if d.rune != RUNE_ERROR || 2 <= d.size {
      EncodeDecode(p);
    }
  }

  // The replacement character is passed over.
  lemma ReplacementsAreIgnored(cap: Option<nat>, s: State, rest: seq<Byte>)
    requires AtBoundary(s)
    ensures Feed(cap, s, Encode(RUNE_ERROR) + rest) == Feed(cap, s, rest)
  {
    FeedAnyRune(cap, s, RUNE_ERROR, rest);
  }

  // One line of output: drafts drawn over each other, each followed by \r, and
  // then \n. The usual line ending is the case of a single draft.
  function DraftBytes(drafts: seq<seq<Rune>>): seq<Byte> {
    if drafts == [] then []
    else DraftBytes(drafts[..|drafts| - 1]) + (EncodeAll(drafts[|drafts| - 1]) + [RETURN])
  }

  // The last draft that drew anything.
  function LastDrawn(drafts: seq<seq<Rune>>): (shown: seq<Rune>)
    ensures shown == [] ==> forall i :: 0 <= i < |drafts| ==> drafts[i] == []
    ensures shown != [] ==>
      exists i :: 0 <= i < |drafts| && shown == drafts[i] && forall k :: i < k < |drafts| ==> drafts[k] == []
  {
    if drafts == [] then []
    else if drafts[|drafts| - 1] != [] then drafts[|drafts| - 1]
    else LastDrawn(drafts[..|drafts| - 1])
  }

  ghost predicate PrintableDrafts(drafts: seq<seq<Rune>>) {
    forall d :: d in drafts ==> AllPrintable(d)
  }

  lemma {:induction false} FeedDrafts(cap: Option<nat>, s: State, drafts: seq<seq<Rune>>, rest: seq<Byte>)
    requires AtBoundary(s) && s.cur == [] && !s.cr && PrintableDrafts(drafts)
    ensures Feed(cap, s, DraftBytes(drafts) + rest)
         == Feed(cap, s.(cur := LastDrawn(drafts), cr := drafts != []), rest)
    decreases |drafts|
  {
    if drafts == [] {
      assert DraftBytes(drafts) + rest == rest;
    } else {
      var front, d := drafts[..|drafts| - 1], drafts[|drafts| - 1];
      var tail := [RETURN] + rest;
      assert DraftBytes(drafts) + rest == DraftBytes(front) + (EncodeAll(d) + tail);
      FeedDrafts(cap, s, front, EncodeAll(d) + tail);
      var t := s.(cur := LastDrawn(front), cr := front != []);
      FeedText(cap, t, d, tail);
      var u := PutAll(t, d);
      assert tail[0] == RETURN && tail[1..] == rest;
      assert Feed(cap, u, tail) == Feed(cap, u.(cr := true), rest);
      assert [] + d == d;
    }
  }

  function DocumentBytes(doc: seq<seq<seq<Rune>>>): seq<Byte> {
    if doc == [] then []
    else DocumentBytes(doc[..|doc| - 1]) + (DraftBytes(doc[|doc| - 1]) + [NEWLINE])
  }

  // The lines as they should be read: last drawing, without trailing spaces.
  function Rendered(doc: seq<seq<seq<Rune>>>): seq<seq<Byte>> {
    if doc == [] then []
    else Rendered(doc[..|doc| - 1]) + [TrimRight(EncodeAll(LastDrawn(doc[|doc| - 1])), {SPACE})]
  }

  ghost predicate PrintableDocument(doc: seq<seq<seq<Rune>>>) {
    forall drafts :: drafts in doc ==> PrintableDrafts(drafts)
  }

  lemma FeedLine(s: State, drafts: seq<seq<Rune>>, rest: seq<Byte>)
    requires AtBoundary(s) && s.cur == [] && !s.cr && PrintableDrafts(drafts)
    ensures Feed(None, s, DraftBytes(drafts) + [NEWLINE] + rest)
         == Feed(None, s.(lines := s.lines + [TrimRight(EncodeAll(LastDrawn(drafts)), {SPACE})]), rest)
  {
    var tail := [NEWLINE] + rest;
    assert DraftBytes(drafts) + [NEWLINE] + rest == DraftBytes(drafts) + tail;
    FeedDrafts(None, s, drafts, tail);
    var u := s.(cur := LastDrawn(drafts), cr := drafts != []);
    assert tail[0] == NEWLINE && tail[1..] == rest;
    assert Feed(None, u, tail) == Feed(None, Newline(None, u), rest);
  }

  lemma {:induction false} FeedDocument(s: State, doc: seq<seq<seq<Rune>>>, rest: seq<Byte>)
    requires AtBoundary(s) && s.cur == [] && !s.cr && PrintableDocument(doc)
    ensures Feed(None, s, DocumentBytes(doc) + rest) == Feed(None, s.(lines := s.lines + Rendered(doc)), rest)
    decreases |doc|
  {
    if doc == [] {
      assert DocumentBytes(doc) + rest == rest && s.lines + Rendered(doc) == s.lines;
    } else {
      var front, drafts := doc[..|doc| - 1], doc[|doc| - 1];
      var line := DraftBytes(drafts) + [NEWLINE];
      assert DocumentBytes(doc) + rest == DocumentBytes(front) + (line + rest);
      FeedDocument(s, front, line + rest);
      FeedLine(s.(lines := s.lines + Rendered(front)), drafts, rest);
      assert s.lines + Rendered(front) + [TrimRight(EncodeAll(LastDrawn(drafts)), {SPACE})] == s.lines + Rendered(doc);
    }
  }

  // However the output is cut into writes, the scrollback is the last 400
  // rendered lines, and the snapshot is their text, bounded.
  lemma AgentReadsWhatWasPrinted(doc: seq<seq<seq<Rune>>>, chunks: seq<seq<Byte>>)
    requires PrintableDocument(doc) && Flatten(chunks) == DocumentBytes(doc)
    ensures var s := WriteAll(Some(MAX_LINES), BLANK, chunks);
            var shown := Last(Some(MAX_LINES), Rendered(doc));
            && s == BLANK.(lines := shown)
            && Snapshot(s) == Bounded(TrimRight(Join(shown + [[]], NEWLINE), {NEWLINE, SPACE}))
  {
    ChunkIndependence(None, BLANK, chunks);
    assert BLANK.pending + DocumentBytes(doc) == DocumentBytes(doc) + [];
    FeedDocument(BLANK, doc, []);
    assert [] + Rendered(doc) == Rendered(doc);
    assert Trimmed(MAX_LINES, BLANK) == BLANK;
    ScrollbackRefines(MAX_LINES, BLANK, chunks);
  }

  // ----- what a snapshot shows of any screen

  // A text cut at its newlines.
  function SplitLines(text: seq<Byte>): (parts: seq<seq<Byte>>)
    ensures parts != []
  {
    if text == [] then [[]]
    else
      var last, front := text[|text| - 1], SplitLines(text[..|text| - 1]);
      if last == NEWLINE then front + [[]]
      else front[..|front| - 1] + [front[|front| - 1] + [last]]
  }

  lemma {:induction false} SplitTail(front: seq<Byte>, tail: seq<Byte>)
    requires NEWLINE !in tail
    ensures SplitLines(front + [NEWLINE] + tail) == SplitLines(front) + [tail]
    decreases |tail|
  {
    var text := front + [NEWLINE] + tail;
    if tail == [] {
      assert text[..|text| - 1] == front;
    } else {
      assert tail[|tail| - 1] in tail && text[|text| - 1] == tail[|tail| - 1];
      SplitTail(front, tail[..|tail| - 1]);
      assert text[..|text| - 1] == front + [NEWLINE] + tail[..|tail| - 1];
      var parts := SplitLines(front);
      assert (parts + [tail[..|tail| - 1]])[..|parts|] == parts;
      assert tail == tail[..|tail| - 1] + [tail[|tail| - 1]];
    }
  }

  lemma {:induction false} SplitOne(line: seq<Byte>)
    requires NEWLINE !in line
    ensures SplitLines(line) == [line]
    decreases |line|
  {
    if line != [] {
      assert line[|line| - 1] in line;
      SplitOne(line[..|line| - 1]);
      assert line == line[..|line| - 1] + [line[|line| - 1]];
    }
  }

  // Joined lines can be told apart again.
  lemma {:induction false} SplitJoin(parts: seq<seq<Byte>>)
    requires parts != [] && forall line :: line in parts ==> NEWLINE !in line
    ensures SplitLines(Join(parts, NEWLINE)) == parts
    decreases |parts|
  {
    var front, last := parts[..|parts| - 1], parts[|parts| - 1];
    if front == [] {
      SplitOne(last);
    } else {
      SplitJoin(front);
      SplitTail(Join(front, NEWLINE), last);
    }
  }

  lemma EncodedRuneHasNoNewline(r: Rune)
    requires Printable(r)
    ensures NEWLINE !in Encode(r)
  {
    var e := Encode(r);
    if r < 0x80 {
      assert e == [r];
    } else {
      assert e[0] >= 0xC0 && e[1] >= 0x80 && (|e| > 2 ==> e[2] >= 0x80) && (|e| > 3 ==> e[3] >= 0x80);
    }
  }

  lemma {:induction false} EncodedHasNoNewline(rs: seq<Rune>)
    requires AllPrintable(rs)
    ensures NEWLINE !in EncodeAll(rs)
    decreases |rs|
  {
    if rs != [] {
      EncodedHasNoNewline(rs[..|rs| - 1]);
      EncodedRuneHasNoNewline(rs[|rs| - 1]);
    }
  }

  // A snapshot of any screen that writes can produce: a bounded suffix of a text
  // without newlines and spaces at its end, which lacks only such of a text whose
  // lines are the finished lines and the current one.
  lemma SnapshotShowsTheScreen(cap: Option<nat>, s: State) returns (text: seq<Byte>)
    requires Valid(cap, s)
    ensures SplitLines(text) == s.lines + [EncodeAll(s.cur)]
    ensures FullText(s) <= text && forall i :: |FullText(s)| <= i < |text| ==> text[i] == NEWLINE || text[i] == SPACE
    ensures FullText(s) != [] ==> FullText(s)[|FullText(s)| - 1] != NEWLINE && FullText(s)[|FullText(s)| - 1] != SPACE
    ensures Snapshot(s) == Bounded(FullText(s))
  {
    text := Join(s.lines + [EncodeAll(s.cur)], NEWLINE);
    LinesHaveNoNewline(cap, s);
    SplitJoin(s.lines + [EncodeAll(s.cur)]);
  }

  lemma LinesHaveNoNewline(cap: Option<nat>, s: State)
    requires Valid(cap, s)
    ensures forall line :: line in s.lines + [EncodeAll(s.cur)] ==> NEWLINE !in line
  {
    EncodedHasNoNewline(s.cur);
    forall line | line in s.lines
      ensures NEWLINE !in line
    {
      assert LineOk(line);
      var rs :| AllPrintable(rs) && line == EncodeAll(rs);
      EncodedHasNoNewline(rs);
    }
  }
}
