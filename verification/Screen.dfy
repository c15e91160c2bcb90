// The screen as the program keeps it: fields updated byte by byte by the loops
// of internal/agent/screen.go, each method proved against ScreenSpec.
module ScreenModel {
  import opened Common
  import opened Utf8
  import opened ScreenSpec

  class Screen {
    var lines: seq<seq<Byte>>
    var cur: seq<Rune>
    var cr: bool
    var esc: seq<Byte>
    var pending: seq<Byte>

    ghost function View(): State
      reads this
    {
      State(lines, cur, cr, esc, pending)
    }

    constructor ()
      ensures View() == BLANK
    {
      lines, cur, cr, esc, pending := [], [], false, [], [];
    }

    method Write(p: seq<Byte>)
      modifies this
      ensures View() == ScreenSpec.Write(Some(MAX_LINES), old(View()), p)
    {
      var buf := pending + p;
      pending := [];
      while buf != []
        invariant pending == []
        invariant Feed(Some(MAX_LINES), View(), buf) == ScreenSpec.Write(Some(MAX_LINES), old(View()), p)
        decreases |buf|
      {
        if esc != [] || buf[0] == ESCAPE {
          var n, done := Escape(buf);
          buf := buf[n..];
          if !done {
            return;
          }
          continue;
        }
        var d := DecodeRune(buf);
        if d.rune == RUNE_ERROR && d.size <= 1 && !FullRune(buf) {
          pending := buf;
          return;
        }
        buf := buf[d.size..];
        Print(d.rune);
      }
    }

    // The rune switch in the loop of Write.
    method Print(r: Rune)
      modifies `lines, `cur, `cr
      ensures View() == ScreenSpec.Print(Some(MAX_LINES), old(View()), r)
    {
      if r == NEWLINE {
        Newline();
      } else if r == RETURN {
        cr := true;
      } else if r == BACKSPACE {
        if |cur| > 0 {
          cur := cur[..|cur| - 1];
        }
      } else if r == TAB {
        Put(0x20);
        Pad();
      } else if r >= 0x20 && r != 0x7f && r != RUNE_ERROR {
        Put(r);
      }
    }

    method Pad()
      modifies `cur
      ensures cur == PadToTabStop(old(cur))
    {
      ghost var start, n := cur, 0;
      while |cur| % 8 != 0
        invariant n <= ToTabStop(|start|) && |cur| == |start| + n
        invariant cur == start + seq(n, _ => 0x20 as Rune)
        decreases ToTabStop(|start|) - n
      {
        cur := cur + [0x20];
        n := n + 1;
      }
    }

    method Put(r: Rune)
      modifies `cur, `cr
      ensures View() == ScreenSpec.Put(old(View()), r)
    {
      if cr {
        cur := [];
        cr := false;
      }
      cur := cur + [r];
    }

    method Newline()
      modifies `lines, `cur, `cr
      ensures View() == ScreenSpec.Newline(Some(MAX_LINES), old(View()))
    {
      cr := false;
      lines := lines + [TrimRight(EncodeAll(cur), {SPACE})];
      cur := [];
      if |lines| > MAX_LINES {
        lines := lines[|lines| - MAX_LINES..];
      }
    }

    // Consumes an escape sequence from the start of buf, going on with a partial
    // one; n bytes were used, and done says whether the sequence has ended.
    method Escape(buf: seq<Byte>) returns (n: nat, done: bool)
      requires esc != [] || (buf != [] && buf[0] == ESCAPE)
      requires buf != []
      modifies this
      ensures n <= |buf| && (done ==> 0 < n) && (!done ==> n == |buf|)
      ensures Feed(Some(MAX_LINES), View(), buf[n..]) == Feed(Some(MAX_LINES), old(View()), buf)
      ensures done <==> esc == []
      ensures pending == old(pending)
    {
      var i := 0;
      while i < |buf|
        invariant 0 <= i <= |buf|
        invariant i == 0 ==> View() == old(View())
        invariant i != 0 ==> esc != []
        invariant pending == old(pending)
        invariant Feed(Some(MAX_LINES), View(), buf[i..]) == Feed(Some(MAX_LINES), old(View()), buf)
      {
        assert buf[i..][1..] == buf[i + 1..];
        var ended := Collect(buf[i]);
        i := i + 1;
        if ended {
          return i, true;
        }
      }
      return |buf|, false;
    }

    // One byte of a sequence: the body of the loop in escape.
    method Collect(b: Byte) returns (ended: bool)
      modifies `lines, `cur, `cr, `esc
      ensures View() == EscapeByte(old(View()), b)
      ensures ended <==> esc == []
    {
      esc := esc + [b];
      if |esc| < 2 {
        return false;
      }
      match KindOf(esc[1]) {
        case Control =>
          if |esc| > 2 && 0x40 <= b <= 0x7e {
            ApplyCsi(esc[2..|esc| - 1], b);
            esc := [];
            return true;
          }
        case Text =>
          if b == BEL || (b == BACKSLASH && |esc| > 2 && esc[|esc| - 2] == ESCAPE) {
            esc := [];
            return true;
          }
        case Charset =>
          if |esc| == 3 {
            esc := [];
            return true;
          }
        case Short =>
          esc := [];
          return true;
      }
      if |esc| > MAX_ESCAPE {
        esc := [];
        return true;
      }
      return false;
    }

    method ApplyCsi(params: seq<Byte>, final: Byte)
      modifies `lines, `cur, `cr
      ensures View() == Csi(old(View()), params, final)
    {
      if final == 0x4a {
        if params == [0x32] || params == [0x33] {
          lines := [];
          cur := [];
          cr := false;
        }
      } else if final == 0x4b {
        if params == [] || params == [0x30] || params == [0x32] {
          if cr {
            cur := [];
          }
        }
      }
    }

    method Snapshot() returns (text: seq<Byte>)
      ensures text == ScreenSpec.Snapshot(View())
    {
      var all := lines + [EncodeAll(cur)];
      text := TrimRight(Join(all, NEWLINE), {NEWLINE, SPACE});
      assert text == FullText(View());
      assert ScreenSpec.Snapshot(View()) == Bounded(text);
      text := Cut(text);
    }

    // The size limit of Snapshot.
    method Cut(all: seq<Byte>) returns (text: seq<Byte>)
      ensures text == Bounded(all)
    {
      text := all;
      if |text| > MAX_SNAPSHOT {
        text := text[|text| - MAX_SNAPSHOT..];
        var i := IndexOf(text, NEWLINE);
        if i < |text| {
          text := text[i + 1..];
        }
      }
    }
  }
}
