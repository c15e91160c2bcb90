// What the screen of internal/agent/screen.go does, as functions on values: one
// byte of an escape sequence, one rune of text, one whole write, one snapshot.
// The scrollback bound is a parameter, so that the same parser can also be
// looked at without it.
module ScreenSpec {
  import opened Common
  import opened Utf8

  const MAX_LINES: nat := 400
  const MAX_SNAPSHOT: nat := 12288
  const MAX_ESCAPE: nat := 256

  const BEL: Byte := 0x07
  const BACKSPACE: Byte := 0x08
  const TAB: Byte := 0x09
  const NEWLINE: Byte := 0x0a
  const RETURN: Byte := 0x0d
  const ESCAPE: Byte := 0x1b
  const SPACE: Byte := 0x20
  const BACKSLASH: Byte := 0x5c

  // Finished lines are Go strings, that is bytes; the line being written is a
  // slice of runes. esc and pending are what a write left unfinished.
  datatype State = State(lines: seq<seq<Byte>>, cur: seq<Rune>, cr: bool, esc: seq<Byte>, pending: seq<Byte>)

  const BLANK := State([], [], false, [], [])

  // At a boundary nothing is carried over to the next write.
  predicate AtBoundary(s: State) {
    s.esc == [] && s.pending == []
  }

  predicate Printable(r: Rune) {
    0x20 <= r && r != 0x7f && r != RUNE_ERROR
  }

  function TrimRight(s: seq<Byte>, cut: set<Byte>): (t: seq<Byte>)
    ensures t <= s
    ensures t != [] ==> t[|t| - 1] !in cut
    ensures forall i :: |t| <= i < |s| ==> s[i] in cut
  {
    if s != [] && s[|s| - 1] in cut then TrimRight(s[..|s| - 1], cut) else s
  }

  function Last<T>(cap: Option<nat>, s: seq<T>): seq<T> {
    if cap.Some? && cap.value < |s| then s[|s| - cap.value..] else s
  }

  function Put(s: State, r: Rune): State {
    s.(cur := (if s.cr then [] else s.cur) + [r], cr := false)
  }

  function Newline(cap: Option<nat>, s: State): State {
    s.(lines := Last(cap, s.lines + [TrimRight(EncodeAll(s.cur), {SPACE})]), cur := [], cr := false)
  }

  // How far the next column that is a multiple of eight is.
  function ToTabStop(column: nat): (n: nat)
    ensures n < 8 && (column + n) % 8 == 0
  {
    (8 - column % 8) % 8
  }

  function PadToTabStop(cur: seq<Rune>): seq<Rune> {
    cur + seq(ToTabStop(|cur|), _ => 0x20 as Rune)
  }

  function Tab(s: State): State {
    var t := Put(s, 0x20);
    t.(cur := PadToTabStop(t.cur))
  }

  function Print(cap: Option<nat>, s: State, r: Rune): State {
    if r == NEWLINE then Newline(cap, s)
    else if r == RETURN then s.(cr := true)
    else if r == BACKSPACE then (if s.cur == [] then s else s.(cur := s.cur[..|s.cur| - 1]))
    else if r == TAB then Tab(s)
    else if Printable(r) then Put(s, r)
    else s
  }

  predicate IsFinal(b: Byte) {
    0x40 <= b <= 0x7e
  }

  // The effect of a complete control sequence.
  function Csi(s: State, params: seq<Byte>, final: Byte): State {
    if final == 0x4a && (params == [0x32] || params == [0x33]) then
      s.(lines := [], cur := [], cr := false)
    else if final == 0x4b && (params == [] || params == [0x30] || params == [0x32]) && s.cr then
      s.(cur := [])
    else s
  }

  // How an escape sequence goes on, by its second byte: a control sequence
  // (CSI), a string (OSC, DCS, APC, PM), a charset designation, or nothing more.
  datatype Kind = Control | Text | Charset | Short

  function KindOf(b: Byte): Kind {
    if b == 0x5b then Control
    else if b == 0x5d || b == 0x50 || b == 0x5f || b == 0x5e then Text
    else if b == 0x28 || b == 0x29 || b == 0x2a || b == 0x2b then Charset
    else Short
  }

  // Does the last byte of e, an escape sequence so far, complete it?
  predicate Completes(e: seq<Byte>) {
    2 <= |e| &&
    var b := e[|e| - 1];
    match KindOf(e[1])
    case Control => 2 < |e| && IsFinal(b)
    case Text => b == BEL || (b == BACKSLASH && 2 < |e| && e[|e| - 2] == ESCAPE)
    case Charset => |e| == 3
    case Short => true
  }

  // One more byte of an escape sequence.
  function EscapeByte(s: State, b: Byte): State {
    var e := s.esc + [b];
    if Completes(e) then
      (if KindOf(e[1]) == Control then Csi(s, e[2..|e| - 1], b) else s).(esc := [])
    else if MAX_ESCAPE < |e| then s.(esc := [])
    else s.(esc := e)
  }

  // The rest of a write.
  function Feed(cap: Option<nat>, s: State, buf: seq<Byte>): State
    decreases |buf|
  {
    if buf == [] then s
    else if s.esc != [] || buf[0] == ESCAPE then Feed(cap, EscapeByte(s, buf[0]), buf[1..])
    else if Incomplete(buf) then s.(pending := buf)
    else
      var d := DecodeRune(buf);
      Feed(cap, Print(cap, s, d.rune), buf[d.size..])
  }

  function Write(cap: Option<nat>, s: State, p: seq<Byte>): State {
    Feed(cap, s.(pending := []), s.pending + p)
  }

  function WriteAll(cap: Option<nat>, s: State, chunks: seq<seq<Byte>>): State
    decreases |chunks|
  {
    if chunks == [] then s else WriteAll(cap, Write(cap, s, chunks[0]), chunks[1..])
  }

  function Flatten(chunks: seq<seq<Byte>>): seq<Byte> {
    if chunks == [] then [] else chunks[0] + Flatten(chunks[1..])
  }

  function Join(parts: seq<seq<Byte>>, sep: Byte): seq<Byte> {
    if parts == [] then []
    else if |parts| == 1 then parts[0]
    else Join(parts[..|parts| - 1], sep) + [sep] + parts[|parts| - 1]
  }

  // The first index of b in s, or |s| when there is none.
  function IndexOf(s: seq<Byte>, b: Byte): (i: nat)
    ensures i <= |s|
    ensures i < |s| ==> s[i] == b
    ensures forall k :: 0 <= k < i ==> s[k] != b
  {
    if s == [] || s[0] == b then 0 else 1 + IndexOf(s[1..], b)
  }

  // Everything on the screen, before the bound of a snapshot.
  function FullText(s: State): seq<Byte> {
    TrimRight(Join(s.lines + [EncodeAll(s.cur)], NEWLINE), {NEWLINE, SPACE})
  }

  function Bounded(text: seq<Byte>): seq<Byte> {
    if |text| <= MAX_SNAPSHOT then text else
      var window := text[|text| - MAX_SNAPSHOT..];
      var i := IndexOf(window, NEWLINE);
      if i < |window| then window[i + 1..] else window
  }

  function Snapshot(s: State): seq<Byte> {
    Bounded(FullText(s))
  }
}
