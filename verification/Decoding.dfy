// What the decoders of internal/hood/hood.go read out of returned bytes, against
// an encoder written the other way round.
module Decoding {
  import opened Common
  import opened BatchSpec
  import opened ReadSpec

  // ----- numbers

  // v in n bytes, the most significant first.
  function ToBytes(v: nat, n: nat): (w: seq<Byte>)
    ensures |w| == n
  {
    if n == 0 then [] else ToBytes(v / 256, n - 1) + [v % 256]
  }

  lemma {:induction false} BytesReadBack(v: nat, n: nat)
    requires v < Power256(n)
    ensures BigEndian(ToBytes(v, n)) == v
  {
    if n > 0 {
      BytesReadBack(v / 256, n - 1);
      var w := ToBytes(v, n);
      assert w[..|w| - 1] == ToBytes(v / 256, n - 1);
    }
  }

  lemma {:induction false} BytesAreTheirNumber(w: seq<Byte>)
    ensures ToBytes(BigEndian(w), |w|) == w
    decreases |w|
  {
    if w != [] {
      BytesAreTheirNumber(w[..|w| - 1]);
    }
  }

  lemma {:induction false} ZeroIsAllZeros(w: seq<Byte>)
    ensures BigEndian(w) == 0 <==> forall i :: 0 <= i < |w| ==> w[i] == 0
    decreases |w|
  {
    if w != [] {
      ZeroIsAllZeros(w[..|w| - 1]);
    }
  }

  predicate IsInt256(v: int) {
    -(Power256(WORD) as int) <= 2 * v < Power256(WORD)
  }

  // A number of 256 bits in two's complement.
  function SignedWord(v: int): (w: seq<Byte>)
    requires IsInt256(v)
    ensures |w| == WORD
  {
    ToBytes(if v < 0 then v + Power256(WORD) else v, WORD)
  }

  lemma SignedReadsBack(v: int)
    requires IsInt256(v)
    ensures Signed(SignedWord(v)) == v
  {
    var n: nat := if v < 0 then v + Power256(WORD) else v;
    BytesReadBack(n, WORD);
    BigEndianBound(SignedWord(v));
  }

  // The low 64 bits as a signed number: the one in range that differs by a
  // multiple of 2^64.
  lemma Int64Is(n: nat)
    ensures -0x8000_0000_0000_0000 <= Int64(n) < 0x8000_0000_0000_0000
    ensures (n - Int64(n)) % 0x1_0000_0000_0000_0000 == 0
    ensures n < 0x8000_0000_0000_0000 ==> Int64(n) == n
  {
  }

  // ----- which data is taken

  // Hex data of one word or more.
  predicate IsData(raw: Option<Raw>) {
    raw.Some? && raw.value.bytes.Some? && |raw.value.bytes.value| > 0 && |raw.value.bytes.value| % 32 == 0
  }

  // Word k of the data.
  function WordAt(raw: Option<Raw>, k: nat): (w: seq<Byte>)
    requires IsData(raw) && 32 * (k + 1) <= |raw.value.bytes.value|
    ensures |w| == 32
  {
    raw.value.bytes.value[32 * k..32 * (k + 1)]
  }

  lemma WordsAre(raw: Option<Raw>)
    ensures Words(raw).Some? <==> IsData(raw)
    ensures IsData(raw) ==> |Words(raw).value| == |raw.value.bytes.value| / 32
    ensures IsData(raw) ==> forall k {:trigger Words(raw).value[k]} :: 0 <= k < |Words(raw).value| ==>
              32 * (k + 1) <= |raw.value.bytes.value| && Words(raw).value[k] == WordAt(raw, k)
  {
    if IsData(raw) {
      var b := raw.value.bytes.value;
      forall k | 0 <= k < |Words(raw).value|
        ensures 32 * (k + 1) <= |b| && Words(raw).value[k] == WordAt(raw, k)
      {
        SplitAt(b, k);
      }
    }
  }

  // ----- rounds

  // Five words at least: the answer is the second, the time of the update the
  // fourth.
  lemma DecodeRoundIs(s: Slot, decimals: int)
    ensures var d, data := DecodeRound(s, decimals), IsData(s.result);
            var long := data && 5 * 32 <= |s.result.value.bytes.value|;
            && (forall e :: d == Bad(Called(e)) <==> s.err == Some(e))
            && (d == Bad(BadData) <==> s.err.None? && !data)
            && (d == Bad(ShortReturn) <==> s.err.None? && data && !long)
            && (d == Bad(NonPositiveAnswer) <==> s.err.None? && long && Signed(WordAt(s.result, 1)) <= 0)
            && (d.Good? <==> s.err.None? && long && Signed(WordAt(s.result, 1)) > 0)
            && (d.Good? ==> d.value == Round(Signed(WordAt(s.result, 1)), decimals, Int64(BigEndian(WordAt(s.result, 3)))))
  {
    WordsAre(s.result);
  }

  // What latestRoundData returns, and perhaps more.
  function RoundData(roundId: nat, answer: int, startedAt: nat, updatedAt: nat, answeredIn: nat, more: seq<Byte>): seq<Byte>
    requires IsInt256(answer)
  {
    ToBytes(roundId, WORD) + SignedWord(answer) + ToBytes(startedAt, WORD) + ToBytes(updatedAt, WORD)
    + ToBytes(answeredIn, WORD) + more
  }

  lemma FiveWords(a: seq<Byte>, b: seq<Byte>, c: seq<Byte>, d: seq<Byte>, e: seq<Byte>, more: seq<Byte>)
    requires |a| == |b| == |c| == |d| == |e| == 32
    ensures var all := a + b + c + d + e + more;
            |all| == 160 + |more| && all[32..64] == b && all[96..128] == d
  {
    assert a + b + c + d + e + more == a + b + (c + d + e + more);
    assert a + b + c + d + e + more == a + b + c + d + (e + more);
  }

  lemma RoundWords(roundId: nat, answer: int, startedAt: nat, updatedAt: nat, answeredIn: nat, more: seq<Byte>)
    requires IsInt256(answer) && updatedAt < Power256(WORD)
    ensures var b := RoundData(roundId, answer, startedAt, updatedAt, answeredIn, more);
            |b| == 160 + |more| && Signed(b[32..64]) == answer && BigEndian(b[96..128]) == updatedAt
  {
    var second, fourth := SignedWord(answer), ToBytes(updatedAt, WORD);
    FiveWords(ToBytes(roundId, WORD), second, ToBytes(startedAt, WORD), fourth, ToBytes(answeredIn, WORD), more);
    SignedReadsBack(answer);
    BytesReadBack(updatedAt, WORD);
  }

  lemma RoundFromWords(raw: Raw, decimals: int, answer: int, updatedAt: nat)
    requires IsData(Some(raw)) && 160 <= |raw.bytes.value|
    requires Signed(raw.bytes.value[32..64]) == answer && BigEndian(raw.bytes.value[96..128]) == updatedAt
    ensures DecodeRound(Slot(Some(raw), None), decimals) ==
      if answer > 0 then Good(Round(answer, decimals, Int64(updatedAt))) else Bad(NonPositiveAnswer)
  {
    DecodeRoundIs(Slot(Some(raw), None), decimals);
  }

  // It is read as its answer and the low 64 bits of its update time, and refused
  // exactly when the answer is not positive.
  lemma RoundReadsBack(roundId: nat, answer: int, startedAt: nat, updatedAt: nat, answeredIn: nat, more: seq<Byte>,
                       raw: Raw, decimals: int)
    requires IsInt256(answer) && updatedAt < Power256(WORD) && |more| % 32 == 0
    requires raw.bytes == Some(RoundData(roundId, answer, startedAt, updatedAt, answeredIn, more))
    ensures DecodeRound(Slot(Some(raw), None), decimals) ==
      if answer > 0 then Good(Round(answer, decimals, Int64(updatedAt))) else Bad(NonPositiveAnswer)
  {
    RoundWords(roundId, answer, startedAt, updatedAt, answeredIn, more);
    RoundFromWords(raw, decimals, answer, updatedAt);
  }

  // ----- tokens

  // The multiplier is the first word of the first reply. The token is paused
  // exactly when the second reply is data and some byte of its first word is not
  // zero.
  lemma DecodeTokenIs(m: Slot, p: Slot)
    ensures var d := DecodeToken(m, p);
            && (forall e :: d == Bad(Called(e)) <==> m.err == Some(e))
            && (d == Bad(BadData) <==> m.err.None? && !IsData(m.result))
            && (d.Good? <==> m.err.None? && IsData(m.result))
            && (d.Good? ==>
                  && d.value.multiplier == BigEndian(WordAt(m.result, 0))
                  && (d.value.oraclePaused <==>
                        p.err.None? && IsData(p.result) && exists i :: 0 <= i < 32 && WordAt(p.result, 0)[i] != 0))
  {
    WordsAre(m.result);
    WordsAre(p.result);
    if IsData(p.result) {
      ZeroIsAllZeros(WordAt(p.result, 0));
    }
  }

  // An encoded multiplier and an encoded flag are read as they were meant.
  lemma TokenReadsBack(multiplier: nat, paused: bool, m: Raw, p: Raw)
    requires multiplier < Power256(WORD)
    requires m.bytes == Some(ToBytes(multiplier, WORD)) && p.bytes == Some(ToBytes(if paused then 1 else 0, WORD))
    ensures DecodeToken(Slot(Some(m), None), Slot(Some(p), None)) == Good(TokenState(multiplier, paused))
  {
    BytesReadBack(multiplier, WORD);
    OneIsSmall(WORD);
    BytesReadBack(if paused then 1 else 0, WORD);
    DecodeTokenIs(Slot(Some(m), None), Slot(Some(p), None));
    ZeroIsAllZeros(p.bytes.value);
    assert WordAt(Some(m), 0) == m.bytes.value && WordAt(Some(p), 0) == p.bytes.value;
  }

  lemma {:induction false} OneIsSmall(n: nat)
    ensures n > 0 ==> 1 < Power256(n)
    ensures Power256(n) >= 1
  {
    if n > 0 {
      OneIsSmall(n - 1);
    }
  }
}
