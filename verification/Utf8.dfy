// The two functions of Go's unicode/utf8 package that the screen relies on,
// DecodeRune and FullRune, written out over bytes 0..255, with the encoder of
// section 3 of RFC 3629 as their independent reference.
module Utf8 {
  import opened Common

  // Unicode scalar values: code points that are not surrogates.
  type Rune = r: int | 0 <= r < 0xD800 || 0xE000 <= r < 0x110000

  const RUNE_ERROR: Rune := 0xFFFD

  datatype Decoded = Decoded(rune: Rune, size: nat)

  // What a leading byte announces: the length of the sequence and the range
  // its second byte must fall in (section 4 of RFC 3629). Length 0 marks a byte
  // that no encoding starts with.
  datatype Lead = Lead(length: nat, low: int, high: int)

  function LeadOf(b: Byte): (l: Lead)
    ensures l.length <= 4
    ensures 2 <= l.length ==> 0x80 <= l.low <= l.high <= 0xBF
  {
    if b < 0x80 then Lead(1, 0, 0)
    else if b < 0xC2 then Lead(0, 0, 0)
    else if b < 0xE0 then Lead(2, 0x80, 0xBF)
    else if b == 0xE0 then Lead(3, 0xA0, 0xBF)
    else if b == 0xED then Lead(3, 0x80, 0x9F)
    else if b < 0xF0 then Lead(3, 0x80, 0xBF)
    else if b == 0xF0 then Lead(4, 0x90, 0xBF)
    else if b < 0xF4 then Lead(4, 0x80, 0xBF)
    else if b == 0xF4 then Lead(4, 0x80, 0x8F)
    else Lead(0, 0, 0)
  }

  predicate Continues(b: Byte) {
    0x80 <= b <= 0xBF
  }

  // The payload of a byte whose fixed leading bits are mark.
  function Bits(b: int, mark: int): int {
    b - mark
  }

  // The value so far, extended by the six payload bits of a continuation byte.
  function Shift(high: int, b: int): int {
    high * 64 + Bits(b, 0x80)
  }

  function DecodeRune(p: seq<Byte>): (d: Decoded)
    ensures d.size <= |p| && d.size <= 4
    ensures p != [] ==> 1 <= d.size
  {
    if p == [] then Decoded(RUNE_ERROR, 0)
    else
      var l := LeadOf(p[0]);
      if l.length == 1 then Decoded(p[0], 1)
      else if l.length == 0 || |p| < l.length || !(l.low <= p[1] <= l.high) then Decoded(RUNE_ERROR, 1)
      else if l.length == 2 then Decoded(Shift(Bits(p[0], 0xC0), p[1]), 2)
      else if !Continues(p[2]) then Decoded(RUNE_ERROR, 1)
      else if l.length == 3 then Decoded(Shift(Shift(Bits(p[0], 0xE0), p[1]), p[2]), 3)
      else if !Continues(p[3]) then Decoded(RUNE_ERROR, 1)
      else Decoded(Shift(Shift(Shift(Bits(p[0], 0xF0), p[1]), p[2]), p[3]), 4)
  }

  // Does p begin with a whole rune, a bad encoding counting as one of width 1?
  predicate FullRune(p: seq<Byte>) {
    p != [] &&
    var l := LeadOf(p[0]);
    || l.length <= |p|
    || (1 < |p| && !(l.low <= p[1] <= l.high))
    || (2 < |p| && !Continues(p[2]))
  }

  // The bytes so far are the start of a rune that is still on its way.
  predicate Incomplete(p: seq<Byte>) {
    var d := DecodeRune(p);
    d.rune == RUNE_ERROR && d.size <= 1 && !FullRune(p)
  }

  function Encode(r: Rune): (e: seq<Byte>)
    ensures 1 <= |e| <= 4
  {
    if r < 0x80 then [r]
    else if r < 0x800 then [0xC0 + r / 64, 0x80 + r % 64]
    else if r < 0x10000 then [0xE0 + r / 64 / 64, 0x80 + r / 64 % 64, 0x80 + r % 64]
    else [0xF0 + r / 64 / 64 / 64, 0x80 + r / 64 / 64 % 64, 0x80 + r / 64 % 64, 0x80 + r % 64]
  }

  // Decoding an encoding gives the rune back, whatever bytes come after it.
  lemma DecodeEncode(r: Rune, rest: seq<Byte>)
    ensures DecodeRune(Encode(r) + rest) == Decoded(r, |Encode(r)|)
  {
    var e := Encode(r);
    var p := e + rest;
    assert forall i :: 0 <= i < |e| ==> p[i] == e[i];
    if 0x80 <= r < 0x800 {
      assert LeadOf(p[0]) == Lead(2, 0x80, 0xBF);
    } else if 0x800 <= r < 0x10000 {
      assert LeadOf(p[0]).length == 3 && LeadOf(p[0]).low <= p[1] <= LeadOf(p[0]).high;
    } else if 0x10000 <= r {
      assert LeadOf(p[0]).length == 4 && LeadOf(p[0]).low <= p[1] <= LeadOf(p[0]).high;
    }
  }

  // The six bits Shift appended can be split off again.
  lemma Unshift(high: int, b: Byte)
    requires Continues(b)
    ensures Shift(high, b) / 64 == high && 0x80 + Shift(high, b) % 64 == b
  {
  }

  // Everything DecodeRune does not call an error is exactly an encoding.
  lemma EncodeDecode(p: seq<Byte>)
    requires DecodeRune(p).rune != RUNE_ERROR || 2 <= DecodeRune(p).size
    ensures var d := DecodeRune(p); p[..d.size] == Encode(d.rune)
  {
    var d := DecodeRune(p);
    if 2 <= d.size {
      var high := Bits(p[0], if d.size == 2 then 0xC0 else if d.size == 3 then 0xE0 else 0xF0);
      Unshift(high, p[1]);
      if 3 <= d.size {
        Unshift(Shift(high, p[1]), p[2]);
        if d.size == 4 {
          Unshift(Shift(Shift(high, p[1]), p[2]), p[3]);
        }
      }
    }
  }

  // p is a non-empty proper prefix of the encoding of r.
  predicate Begins(p: seq<Byte>, r: Rune) {
    p != [] && |p| < |Encode(r)| && p == Encode(r)[..|p|]
  }

  // The bytes that have to wait for more input are exactly the non-empty
  // proper prefixes of encodings, and there are at most three of them.
  lemma IncompleteIsProperPrefix(p: seq<Byte>)
    requires p != []
    ensures Incomplete(p) <==> exists r: Rune :: Begins(p, r)
    ensures Incomplete(p) ==> |p| <= 3
  {
    if Incomplete(p) {
      var r := Completion(p);
      assert Begins(p, r);
    }
    if exists r: Rune :: Begins(p, r) {
      var r: Rune :| Begins(p, r);
      ProperPrefixIsIncomplete(p, r);
    }
  }

  lemma ProperPrefixIsIncomplete(p: seq<Byte>, r: Rune)
    requires Begins(p, r)
    ensures Incomplete(p)
  {
    var e := Encode(r);
    assert p[0] == e[0] && LeadOf(e[0]).length == |e|;
    assert |p| > 1 ==> p[1] == e[1] && LeadOf(e[0]).low <= e[1] <= LeadOf(e[0]).high;
    assert |p| > 2 ==> p[2] == e[2];
  }

  // Fills a partial encoding up with the smallest bytes allowed.
  lemma Completion(p: seq<Byte>) returns (r: Rune)
    requires p != [] && Incomplete(p)
    ensures Begins(p, r)
  {
    var l := LeadOf(p[0]);
    var full: seq<Byte> := if |p| == 1 then [p[0], l.low] else p;
    full := full + [0x80, 0x80];
    r := DecodeRune(full).rune;
    EncodeDecode(full);
    assert p == full[..|p|];
    assert p == Encode(r)[..|p|];
  }

  // A rune that is complete is decoded the same when more bytes follow it.
  lemma DecodeIsStable(a: seq<Byte>, b: seq<Byte>)
    requires a != [] && !Incomplete(a)
    ensures DecodeRune(a + b) == DecodeRune(a)
    ensures !Incomplete(a + b)
  {
    assert forall i :: 0 <= i < |a| ==> (a + b)[i] == a[i];
  }

  function EncodeAll(rs: seq<Rune>): seq<Byte> {
    if rs == [] then [] else EncodeAll(rs[..|rs| - 1]) + Encode(rs[|rs| - 1])
  }
}
