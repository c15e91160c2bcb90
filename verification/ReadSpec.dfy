// The layout of Read's calls in internal/hood/hood.go and the decoding of their
// slots: which slot belongs to which feed and token.
module ReadSpec {
  import opened Common
  import opened BatchSpec

  const LATEST_ROUND_DATA := "0xfeaf968c"
  const UI_MULTIPLIER := "0xa60bf13d"
  const ORACLE_PAUSED := "0x7706ba52"

  datatype Feed = Feed(proxy: string, decimals: int)

  // price is answer / 10^decimals, and multiplier is per 10^18, both exact here.
  datatype Round = Round(answer: int, decimals: int, updatedAt: int)
  datatype TokenState = TokenState(multiplier: int, oraclePaused: bool)

  datatype DecodeError = Called(err: CallError) | BadData | ShortReturn | NonPositiveAnswer

  datatype Decoded<+T> = Good(value: T) | Bad(why: DecodeError)

  // ----- words

  const WORD: nat := 32

  // The result as 32-byte words.
  function Words(raw: Option<Raw>): (ws: Option<seq<seq<Byte>>>)
    ensures ws.Some? ==> ws.value != [] && forall w :: w in ws.value ==> |w| == WORD
  {
    if raw.None? || raw.value.bytes.None? then None
    else
      var b := raw.value.bytes.value;
      if |b| == 0 || |b| % WORD != 0 then None else Some(Split(b))
  }

  function Split(b: seq<Byte>): (ws: seq<seq<Byte>>)
    requires |b| % WORD == 0
    ensures |ws| == |b| / WORD && forall w :: w in ws ==> |w| == WORD
  {
    if b == [] then [] else
      var front := b[..|b| - WORD];
      assert |front| % WORD == 0;
      Split(front) + [b[|b| - WORD..]]
  }

  lemma {:induction false} SplitAt(b: seq<Byte>, k: nat)
    requires |b| % WORD == 0 && WORD * (k + 1) <= |b|
    ensures Split(b)[k] == b[WORD * k..WORD * (k + 1)]
    decreases |b|
  {
    var front := b[..|b| - WORD];
    assert |front| % WORD == 0;
    if WORD * (k + 1) <= |front| {
      SplitAt(front, k);
    }
  }

  function BigEndian(w: seq<Byte>): nat {
    if w == [] then 0 else 256 * BigEndian(w[..|w| - 1]) + w[|w| - 1]
  }

  function Power256(n: nat): nat {
    if n == 0 then 1 else 256 * Power256(n - 1)
  }

  // A word as a two's-complement number.
  function Signed(w: seq<Byte>): int
    requires |w| == WORD
  {
    if w[0] >= 0x80 then BigEndian(w) - Power256(WORD) else BigEndian(w)
  }

  // The low 64 bits of a number, as an int64.
  function Int64(n: nat): int {
    var low := n % 0x1_0000_0000_0000_0000;
    if low >= 0x8000_0000_0000_0000 then low - 0x1_0000_0000_0000_0000 else low
  }

  function DecodeRound(s: Slot, decimals: int): Decoded<Round> {
    if s.err.Some? then Bad(Called(s.err.value))
    else match Words(s.result)
      case None => Bad(BadData)
      case Some(ws) =>
        if |ws| < 5 then Bad(ShortReturn)
        else if Signed(ws[1]) <= 0 then Bad(NonPositiveAnswer)
        else Good(Round(Signed(ws[1]), decimals, Int64(BigEndian(ws[3]))))
  }

  // A failed read of oraclePaused counts as not paused.
  function DecodeToken(m: Slot, p: Slot): Decoded<TokenState> {
    if m.err.Some? then Bad(Called(m.err.value))
    else match Words(m.result)
      case None => Bad(BadData)
      case Some(ws) =>
        var paused := p.err.None? && Words(p.result).Some? && BigEndian(Words(p.result).value[0]) != 0;
        Good(TokenState(BigEndian(ws[0]), paused))
  }

  lemma {:induction false} BigEndianBound(w: seq<Byte>)
    ensures BigEndian(w) < Power256(|w|)
    ensures w != [] ==> (w[0] >= 0x80 <==> 2 * BigEndian(w) >= Power256(|w|))
    decreases |w|
  {
    if w != [] {
      var front := w[..|w| - 1];
      BigEndianBound(front);
      if |w| == 1 {
        assert BigEndian(front) == 0 && Power256(1) == 256;
      } else {
        assert front[0] == w[0];
      }
    }
  }

  // The sign bit makes Signed the number between -2^255 and 2^255 that is the
  // word modulo 2^256; so an answer is positive just when it is not zero and its
  // top bit is clear.
  lemma SignedIsTwosComplement(w: seq<Byte>)
    requires |w| == WORD
    ensures -(Power256(WORD) as int) <= 2 * Signed(w) < Power256(WORD)
    ensures Signed(w) == BigEndian(w) || Signed(w) == BigEndian(w) - Power256(WORD)
    ensures Signed(w) > 0 <==> w[0] < 0x80 && BigEndian(w) != 0
  {
    BigEndianBound(w);
  }

  // ----- layout

  function Layout(feeds: seq<Feed>, tokens: seq<string>): seq<Request> {
    [Plain("eth_chainId"), Plain("eth_getBlockByNumber")]
    + seq(|feeds|, i requires 0 <= i < |feeds| => EthCall(feeds[i].proxy, LATEST_ROUND_DATA))
    + TokenCalls(tokens)
  }

  function TokenCalls(tokens: seq<string>): (cs: seq<Request>)
    ensures |cs| == 2 * |tokens|
    ensures forall k :: 0 <= k < |tokens| ==>
      cs[2 * k] == EthCall(tokens[k], UI_MULTIPLIER) && cs[2 * k + 1] == EthCall(tokens[k], ORACLE_PAUSED)
  {
    if tokens == [] then [] else
      var t := tokens[|tokens| - 1];
      TokenCalls(tokens[..|tokens| - 1]) + [EthCall(t, UI_MULTIPLIER), EthCall(t, ORACLE_PAUSED)]
  }

  function FeedSlot(k: nat): nat {
    2 + k
  }

  function TokenSlot(feeds: nat, k: nat): nat {
    2 + feeds + 2 * k
  }

  // Every feed and token finds its own calls where the decoder looks.
  lemma LayoutIsAligned(feeds: seq<Feed>, tokens: seq<string>)
    ensures var cs := Layout(feeds, tokens);
            && |cs| == TokenSlot(|feeds|, |tokens|)
            && cs[0] == Plain("eth_chainId") && cs[1] == Plain("eth_getBlockByNumber")
            && (forall k :: 0 <= k < |feeds| ==> cs[FeedSlot(k)] == EthCall(feeds[k].proxy, LATEST_ROUND_DATA))
            && (forall k :: 0 <= k < |tokens| ==>
                  && cs[TokenSlot(|feeds|, k)] == EthCall(tokens[k], UI_MULTIPLIER)
                  && cs[TokenSlot(|feeds|, k) + 1] == EthCall(tokens[k], ORACLE_PAUSED))
  {
  }

  // What each feed's and each token's slots decode to, whatever the decoder.
  function RoundsBy(decode: (Slot, int) -> Decoded<Round>, feeds: seq<Feed>, slots: seq<Slot>): (ds: seq<Decoded<Round>>)
    requires FeedSlot(|feeds|) <= |slots|
    ensures |ds| == |feeds|
    ensures forall k :: 0 <= k < |feeds| ==> ds[k] == decode(slots[FeedSlot(k)], feeds[k].decimals)
  {
    seq(|feeds|, k requires 0 <= k < |feeds| => decode(slots[FeedSlot(k)], feeds[k].decimals))
  }

  function StatesBy(decode: (Slot, Slot) -> Decoded<TokenState>, feeds: nat, tokens: nat, slots: seq<Slot>)
    : (ds: seq<Decoded<TokenState>>)
    requires TokenSlot(feeds, tokens) <= |slots|
    ensures |ds| == tokens
    ensures forall k :: 0 <= k < tokens ==> ds[k] == decode(slots[TokenSlot(feeds, k)], slots[TokenSlot(feeds, k) + 1])
  {
    seq(tokens, k requires 0 <= k < tokens => decode(slots[TokenSlot(feeds, k)], slots[TokenSlot(feeds, k) + 1]))
  }

  function RoundsOf(feeds: seq<Feed>, slots: seq<Slot>): (ds: seq<Decoded<Round>>)
    requires FeedSlot(|feeds|) <= |slots|
    ensures |ds| == |feeds|
  {
    RoundsBy(DecodeRound, feeds, slots)
  }

  function StatesOf(feeds: nat, tokens: nat, slots: seq<Slot>): (ds: seq<Decoded<TokenState>>)
    requires TokenSlot(feeds, tokens) <= |slots|
    ensures |ds| == tokens
  {
    StatesBy(DecodeToken, feeds, tokens, slots)
  }

  // A slot that every decoder takes, and one that none does.
  function GoodSlot(): Slot {
    Slot(Some(Raw(Some(seq(63, _ => 0 as Byte) + [1] + seq(96, _ => 0 as Byte)), None, None)), None)
  }

  function BadSlot(): Slot {
    Slot(None, Some(Remote("")))
  }

  lemma GoodSlotIsGood(decimals: int)
    ensures DecodeRound(GoodSlot(), decimals).Good? && DecodeToken(GoodSlot(), BadSlot()).Good?
  {
    var b := GoodSlot().result.value.bytes.value;
    assert |b| == 160;
    var ws := Words(GoodSlot().result).value;
    SplitAt(b, 1);
    assert ws[1] == b[32..64];
    assert ws[1][31] == 1 && ws[1][0] == 0;
    assert BigEndian(ws[1]) == 256 * BigEndian(ws[1][..31]) + 1;
  }
}
