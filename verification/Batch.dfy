// batch and Read as the program runs them: index loops over chunks, replies,
// feeds and tokens.
module BatchModel {
  import opened Common
  import opened BatchSpec
  import opened Landing
  import opened ReadSpec
  import opened ReadWhole

  // The calls of several posts, one after the other.
  function Joined(posted: seq<seq<Request>>): seq<Request> {
    if posted == [] then [] else Joined(posted[..|posted| - 1]) + posted[|posted| - 1]
  }

  // The posts so far carry the calls before lo, each once.
  ghost predicate Sent(calls: seq<Request>, posted: seq<seq<Request>>, lo: nat) {
    && (forall k :: 0 <= k < |posted| ==> 1 <= |posted[k]| <= MAX_BATCH)
    && Joined(posted) == calls[..Min(lo, |calls|)]
  }

  lemma SentMore(calls: seq<Request>, posted: seq<seq<Request>>, lo: nat)
    requires lo < |calls| && Sent(calls, posted, lo)
    ensures Sent(calls, posted + [Chunk(calls, lo)], lo + MAX_BATCH)
  {
    assert (posted + [Chunk(calls, lo)])[..|posted|] == posted;
  }

  // post, with its retries, is a function of the chunk it is given.
  method Batch(calls: seq<Request>, post: (nat, seq<Request>) -> PostResult)
    returns (slots: seq<Slot>, failed: Option<string>, ghost posted: seq<seq<Request>>)
    ensures failed == FirstFailure(calls, post, 0)
    ensures failed.None? <==> Posted(calls, post, |calls|)
    ensures forall k :: 0 <= k < |posted| ==> 1 <= |posted[k]| <= MAX_BATCH
    ensures Joined(posted) <= calls && (failed.None? ==> Joined(posted) == calls)
    ensures failed.None? ==> |slots| == |calls| && forall i :: 0 <= i < |calls| ==> slots[i] == Chunked(calls, post, i)
  {
    NoFailureIsPosted(calls, post, 0);
    slots, failed, posted := [], None, [];
    while |slots| < |calls|
      invariant |slots| <= |calls|
      invariant forall k :: 0 <= k < |slots| ==> slots[k] == Blank(calls[k])
    {
      slots := slots + [Blank(calls[|slots|])];
    }
    var lo := 0;
    while lo < |calls|
      invariant 0 <= lo && |slots| == |calls| && lo % MAX_BATCH == 0
      invariant Posted(calls, post, lo) && Filled(calls, post, slots, lo)
      invariant FirstFailure(calls, post, lo) == FirstFailure(calls, post, 0)
      invariant Sent(calls, posted, lo)
      decreases |calls| - lo
    {
      var chunk := Chunk(calls, lo);
      var sent := post(lo, chunk);
      SentMore(calls, posted, lo);
      posted := posted + [chunk];
      if sent.Failed? {
        return slots, Some(sent.error), posted;
      }
      var placed := PlaceReplies(slots, lo, |chunk|, sent.replies);
      ChunkPlaced(calls, post, slots, lo, sent.replies);
      PostedMore(calls, post, lo);
      slots := placed;
      lo := lo + MAX_BATCH;
    }
  }

  // The slots of the calls before lo are final, the others untouched.
  ghost predicate Filled(calls: seq<Request>, post: (nat, seq<Request>) -> PostResult, slots: seq<Slot>, lo: nat) {
    && |slots| == |calls|
    && forall i :: 0 <= i < |calls| ==> slots[i] == if i < lo then Chunked(calls, post, i) else Blank(calls[i])
  }

  // What one more chunk's replies leave in slot i.
  lemma SlotPlaced(calls: seq<Request>, post: (nat, seq<Request>) -> PostResult, slots: seq<Slot>, lo: nat,
                   rs: seq<Reply>, i: nat)
    requires lo < |calls| == |slots| && lo % MAX_BATCH == 0 && i < |calls| && post(lo, Chunk(calls, lo)) == Replies(rs)
    requires slots[i] == if i < lo then Chunked(calls, post, i) else Blank(calls[i])
    ensures Place(slots, lo, lo + |Chunk(calls, lo)|, rs)[i]
         == if i < lo + MAX_BATCH then Chunked(calls, post, i) else Blank(calls[i])
  {
    PlaceIs(slots, lo, lo + |Chunk(calls, lo)|, rs, i);
    if i < lo + MAX_BATCH {
      ChunkStart(i, lo);
    }
  }

  lemma ChunkPlaced(calls: seq<Request>, post: (nat, seq<Request>) -> PostResult, slots: seq<Slot>, lo: nat, rs: seq<Reply>)
    requires lo < |calls| == |slots| && lo % MAX_BATCH == 0 && post(lo, Chunk(calls, lo)) == Replies(rs)
    requires Filled(calls, post, slots, lo)
    ensures Filled(calls, post, Place(slots, lo, lo + |Chunk(calls, lo)|, rs), lo + MAX_BATCH)
  {
    var placed := Place(slots, lo, lo + |Chunk(calls, lo)|, rs);
    forall i | 0 <= i < |calls|
      ensures placed[i] == if i < lo + MAX_BATCH then Chunked(calls, post, i) else Blank(calls[i])
    {
      SlotPlaced(calls, post, slots, lo, rs, i);
    }
  }

  // The inner loop of batch.
  method PlaceReplies(slots: seq<Slot>, lo: nat, n: nat, rs: seq<Reply>) returns (placed: seq<Slot>)
    requires lo + n <= |slots|
    ensures placed == Place(slots, lo, lo + n, rs)
  {
    placed := slots;
    var k := 0;
    while k < |rs|
      invariant 0 <= k <= |rs| && placed == Place(slots, lo, lo + n, rs[..k])
    {
      var r := rs[k];
      assert rs[..k + 1][..k] == rs[..k];
      if r.id < lo || r.id >= lo + n {
      } else if r.outcome.Failure? {
        placed := placed[r.id := placed[r.id].(err := Some(Remote(r.outcome.message)))];
      } else {
        placed := placed[r.id := Slot(Some(r.outcome.raw), None)];
      }
      k := k + 1;
    }
    assert rs[..k] == rs;
  }

  method ReadAll(feeds: seq<Feed>, tokens: seq<string>, post: (nat, seq<Request>) -> PostResult) returns (r: ReadResult)
    ensures r == ReadOf(feeds, tokens, post)
    ensures Posted(Layout(feeds, tokens), post, |Layout(feeds, tokens)|) <==> !(r.NotRead? && r.why.BatchFailed?)
    ensures !(r.NotRead? && r.why.BatchFailed?) ==>
      var slots := SlotsOf(Layout(feeds, tokens), post);
      && |slots| == TokenSlot(|feeds|, |tokens|)
      && match r
         case NotRead(CallFailed(i, err)) =>
           i <= 1 && slots[i].err == Some(err) && (i == 1 ==> slots[0].err.None?)
         case NotRead(BadHeader(i)) =>
           && i <= 1 && slots[0].err.None? && slots[1].err.None?
           && (i == 1 ==> slots[0].result.Some? && slots[0].result.value.quantity.Some?)
           && (slots[i].result.Some? ==> if i == 0 then slots[i].result.value.quantity.None? else slots[i].result.value.block.None?)
         case NotRead(BatchFailed(_)) => false
         case Read(s) =>
           && slots[0].err.None? && slots[1].err.None? && slots[0].result.Some? && slots[1].result.Some?
           && slots[0].result.value.quantity.Some? && slots[1].result.value.block == Some(s.head)
           && s.chainId == slots[0].result.value.quantity.value % 0x1_0000_0000_0000_0000
           && s.views == Collected(feeds, tokens, slots)
  {
    var calls := BuildCalls(feeds, tokens);
    LayoutIsAligned(feeds, tokens);
    var slots, failed, _ := Batch(calls, post);
    if failed.Some? {
      return NotRead(BatchFailed(failed.value));
    }
    assert slots == SlotsOf(calls, post);
    if slots[0].err.Some? {
      return NotRead(CallFailed(0, slots[0].err.value));
    }
    if slots[1].err.Some? {
      return NotRead(CallFailed(1, slots[1].err.value));
    }
    if slots[0].result.None? || slots[0].result.value.quantity.None? {
      return NotRead(BadHeader(0));
    }
    if slots[1].result.None? || slots[1].result.value.block.None? {
      return NotRead(BadHeader(1));
    }
    var views := Collect(feeds, tokens, slots);
    var id := slots[0].result.value.quantity.value % 0x1_0000_0000_0000_0000;
    return Read(Snapshot(id, slots[1].result.value.block.value, views));
  }

  method BuildCalls(feeds: seq<Feed>, tokens: seq<string>) returns (calls: seq<Request>)
    ensures calls == Layout(feeds, tokens)
  {
    calls := [Plain("eth_chainId"), Plain("eth_getBlockByNumber")];
    var k := 0;
    while k < |feeds|
      invariant 0 <= k <= |feeds|
      invariant calls == [Plain("eth_chainId"), Plain("eth_getBlockByNumber")]
                         + seq(k, i requires 0 <= i < k => EthCall(feeds[i].proxy, LATEST_ROUND_DATA))
    {
      calls := calls + [EthCall(feeds[k].proxy, LATEST_ROUND_DATA)];
      k := k + 1;
    }
    ghost var start := calls;
    k := 0;
    while k < |tokens|
      invariant 0 <= k <= |tokens| && calls == start + TokenCalls(tokens[..k])
    {
      assert tokens[..k + 1][..k] == tokens[..k];
      calls := calls + [EthCall(tokens[k], UI_MULTIPLIER), EthCall(tokens[k], ORACLE_PAUSED)];
      k := k + 1;
    }
    assert tokens[..k] == tokens;
  }

  // The two loops of Read with their running index, one after the other, for
  // any decoders.
  method Collect(feeds: seq<Feed>, tokens: seq<string>, slots: seq<Slot>) returns (views: Views)
    requires |slots| == TokenSlot(|feeds|, |tokens|)
    ensures views == Collected(feeds, tokens, slots)
  {
    var i;
    views, i := CollectFeeds(DecodeRound, feeds, slots);
    views := CollectTokens(DecodeToken, views, i, |feeds|, tokens, slots);
  }

  method CollectFeeds(decode: (Slot, int) -> Decoded<Round>, feeds: seq<Feed>, slots: seq<Slot>)
    returns (views: Views, i: nat)
    requires FeedSlot(|feeds|) <= |slots|
    ensures i == FeedSlot(|feeds|) && views == FeedsInto(feeds, RoundsBy(decode, feeds, slots), |feeds|)
  {
    views, i := NOTHING, 2;
    var k := 0;
    while k < |feeds|
      invariant 0 <= k <= |feeds| && i == FeedSlot(k)
      invariant views == FeedsInto(feeds, RoundsBy(decode, feeds, slots), k)
    {
      views := RoundInto(views, feeds[k].proxy, decode(slots[i], feeds[k].decimals));
      i, k := i + 1, k + 1;
    }
  }

  method CollectTokens(decode: (Slot, Slot) -> Decoded<TokenState>, fed: Views, start: nat, feeds: nat,
                       tokens: seq<string>, slots: seq<Slot>) returns (views: Views)
    requires start == TokenSlot(feeds, 0) && |slots| == TokenSlot(feeds, |tokens|)
    ensures views == TokensInto(fed, tokens, StatesBy(decode, feeds, |tokens|, slots), |tokens|)
  {
    views := fed;
    var i, k := start, 0;
    while k < |tokens|
      invariant 0 <= k <= |tokens| && i == TokenSlot(feeds, k)
      invariant views == TokensInto(fed, tokens, StatesBy(decode, feeds, |tokens|, slots), k)
    {
      views := StateInto(views, tokens[k], decode(slots[i], slots[i + 1]));
      i, k := i + 2, k + 1;
    }
  }
}
