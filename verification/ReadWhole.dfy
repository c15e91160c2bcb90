// Read from end to end, as a function of what the server answers: what it pairs
// with what, and when every address lands on one side.
module ReadWhole {
  import opened Common
  import opened BatchSpec
  import opened ReadSpec
  import opened Landing
  import opened Decoding

  // Read as far as it fills its maps; the first two calls are the chain's own.
  datatype ReadError = BatchFailed(error: string) | CallFailed(index: nat, err: CallError) | BadHeader(index: nat)

  datatype Snapshot = Snapshot(chainId: int, head: Head, views: Views)

  datatype ReadResult = Read(snapshot: Snapshot) | NotRead(why: ReadError)

  // What the batch makes of call i.
  function SlotsOf(calls: seq<Request>, post: (nat, seq<Request>) -> PostResult): (slots: seq<Slot>)
    ensures |slots| == |calls| && forall i :: 0 <= i < |calls| ==> slots[i] == Chunked(calls, post, i)
  {
    seq(|calls|, i requires 0 <= i < |calls| => Chunked(calls, post, i))
  }

  // What Read returns.
  function ReadOf(feeds: seq<Feed>, tokens: seq<string>, post: (nat, seq<Request>) -> PostResult): ReadResult {
    LayoutIsAligned(feeds, tokens);
    var calls := Layout(feeds, tokens);
    match FirstFailure(calls, post, 0)
    case Some(error) => NotRead(BatchFailed(error))
    case None =>
      var slots := SlotsOf(calls, post);
      WithHead(slots[0], slots[1], Collected(feeds, tokens, slots))
  }

  // The views, if the first two calls came back with a chain and a block.
  function WithHead(chain: Slot, block: Slot, views: Views): (r: ReadResult)
    ensures r.Read? ==> r.snapshot.views == views
  {
    if chain.err.Some? then NotRead(CallFailed(0, chain.err.value))
    else if block.err.Some? then NotRead(CallFailed(1, block.err.value))
    else if chain.result.None? || chain.result.value.quantity.None? then NotRead(BadHeader(0))
    else if block.result.None? || block.result.value.block.None? then NotRead(BadHeader(1))
    else
      var id := chain.result.value.quantity.value % 0x1_0000_0000_0000_0000;
      Read(Snapshot(id, block.result.value.block.value, views))
  }

  // The views of a read are collected from the slots of its batch.
  lemma ReadCollects(feeds: seq<Feed>, tokens: seq<string>, post: (nat, seq<Request>) -> PostResult) returns (views: Views)
    ensures |Layout(feeds, tokens)| == TokenSlot(|feeds|, |tokens|)
    ensures views == Collected(feeds, tokens, SlotsOf(Layout(feeds, tokens), post))
    ensures ReadOf(feeds, tokens, post) ==
      match FirstFailure(Layout(feeds, tokens), post, 0)
      case Some(error) => NotRead(BatchFailed(error))
      case None => WithHead(SlotsOf(Layout(feeds, tokens), post)[0], SlotsOf(Layout(feeds, tokens), post)[1], views)
  {
    LayoutIsAligned(feeds, tokens);
    views := Collected(feeds, tokens, SlotsOf(Layout(feeds, tokens), post));
  }

  lemma OneGoodHasHead(n: nat, chosen: nat, views: Views)
    requires 2 <= n
    ensures WithHead(OneGood(n, chosen)[0], OneGood(n, chosen)[1], views).Read?
  {
  }

  // From a server that answers each call at most once, in any order, a read in
  // chunks gives every feed and every token, at distinct addresses, exactly the
  // decoding of the server's answers to its own calls.
  lemma ReadPairsEveryAddress(feeds: seq<Feed>, tokens: seq<string>, post: (nat, seq<Request>) -> PostResult,
                              answer: nat -> Option<Outcome>)
    requires NoDup(Addresses(feeds, tokens))
    requires Posted(Layout(feeds, tokens), post, |Layout(feeds, tokens)|)
    requires forall lo :: 0 <= lo < |Layout(feeds, tokens)| && lo % MAX_BATCH == 0 ==>
      AnswersOnce(post(lo, Chunk(Layout(feeds, tokens), lo)).replies, lo,
                  Min(lo + MAX_BATCH, |Layout(feeds, tokens)|), answer)
    ensures var slots := SlotsOf(Layout(feeds, tokens), post);
            && |slots| == TokenSlot(|feeds|, |tokens|)
            && (forall k :: 0 <= k < |feeds| ==>
                  var reply := Final(EthCall(feeds[k].proxy, LATEST_ROUND_DATA), answer(FeedSlot(k)));
                  HasRound(Collected(feeds, tokens, slots), feeds[k].proxy, DecodeRound(reply, feeds[k].decimals)))
            && (forall k :: 0 <= k < |tokens| ==>
                  var i := TokenSlot(|feeds|, k);
                  var multiplier := Final(EthCall(tokens[k], UI_MULTIPLIER), answer(i));
                  var paused := Final(EthCall(tokens[k], ORACLE_PAUSED), answer(i + 1));
                  HasState(Collected(feeds, tokens, slots), tokens[k], DecodeToken(multiplier, paused)))
  {
    var calls := Layout(feeds, tokens);
    forall i | 0 <= i < |calls|
      ensures SlotsOf(calls, post)[i] == Final(calls[i], answer(i))
    {
      ChunkedAnswers(calls, post, answer, i);
    }
    EachReadsItsOwnCalls(feeds, tokens, SlotsOf(calls, post), answer);
  }

  // In particular, a feed whose call is answered with an encoded round has that
  // round's answer and update time among the values, or an error if the answer is
  // not positive.
  lemma ReadReturnsTheRound(feeds: seq<Feed>, tokens: seq<string>, post: (nat, seq<Request>) -> PostResult,
                            answer: nat -> Option<Outcome>, k: nat,
                            roundId: nat, price: int, startedAt: nat, updatedAt: nat, answeredIn: nat, raw: Raw)
    requires NoDup(Addresses(feeds, tokens)) && k < |feeds|
    requires Posted(Layout(feeds, tokens), post, |Layout(feeds, tokens)|)
    requires forall lo :: 0 <= lo < |Layout(feeds, tokens)| && lo % MAX_BATCH == 0 ==>
      AnswersOnce(post(lo, Chunk(Layout(feeds, tokens), lo)).replies, lo,
                  Min(lo + MAX_BATCH, |Layout(feeds, tokens)|), answer)
    requires IsInt256(price) && updatedAt < Power256(WORD)
    requires answer(FeedSlot(k)) == Some(Answer(raw))
    requires raw.bytes == Some(RoundData(roundId, price, startedAt, updatedAt, answeredIn, []))
    ensures var r := ReadOf(feeds, tokens, post);
            r.Read? ==>
              HasRound(r.snapshot.views, feeds[k].proxy,
                       if price > 0 then Good(Round(price, feeds[k].decimals, Int64(updatedAt))) else Bad(NonPositiveAnswer))
  {
    ReadPairsEveryAddress(feeds, tokens, post, answer);
    RoundReadsBack(roundId, price, startedAt, updatedAt, answeredIn, [], raw, feeds[k].decimals);
    var views := ReadCollects(feeds, tokens, post);
  }

  // ----- a server made to order

  // It answers every call of a chunk once, in order.
  function Serving(outcome: nat -> Outcome): (nat, seq<Request>) -> PostResult {
    (lo: nat, chunk: seq<Request>) => Replies(RepliesFrom(outcome, lo, |chunk|))
  }

  function RepliesFrom(outcome: nat -> Outcome, lo: nat, n: nat): seq<Reply> {
    if n == 0 then [] else RepliesFrom(outcome, lo, n - 1) + [Reply(lo + n - 1, outcome(lo + n - 1))]
  }

  lemma {:induction false} ServedOnce(outcome: nat -> Outcome, lo: nat, n: nat, i: nat)
    ensures Of(RepliesFrom(outcome, lo, n), i) == if lo <= i < lo + n then [outcome(i)] else []
    decreases n
  {
    if n > 0 {
      ServedOnce(outcome, lo, n - 1, i);
      var rs := RepliesFrom(outcome, lo, n);
      assert rs[..|rs| - 1] == RepliesFrom(outcome, lo, n - 1);
    }
  }

  lemma ServingFills(calls: seq<Request>, outcome: nat -> Outcome, i: nat)
    requires i < |calls|
    ensures Chunked(calls, Serving(outcome), i) == Final(calls[i], Some(outcome(i)))
  {
    var lo := ChunkOf(i);
    ServedOnce(outcome, lo, |Chunk(calls, lo)|, i);
    SettledOnce(calls[i], [outcome(i)], Some(outcome(i)));
  }

  lemma ServingNeverFails(calls: seq<Request>, outcome: nat -> Outcome)
    ensures FirstFailure(calls, Serving(outcome), 0) == None
  {
    NoFailureIsPosted(calls, Serving(outcome), 0);
  }

  // The answers that leave the slots of OneGood.
  function OneGoodOutcome(q: nat, chosen: nat): Outcome {
    var s := OneGoodAt(q, chosen);
    if s.result.Some? then Answer(s.result.value) else Failure("")
  }

  function OneGoodServer(chosen: nat): (nat, seq<Request>) -> PostResult {
    Serving((q: nat) => OneGoodOutcome(q, chosen))
  }

  lemma OneGoodServed(calls: seq<Request>, chosen: nat)
    ensures FirstFailure(calls, OneGoodServer(chosen), 0) == None
    ensures SlotsOf(calls, OneGoodServer(chosen)) == OneGood(|calls|, chosen)
  {
    var outcome := (q: nat) => OneGoodOutcome(q, chosen);
    ServingNeverFails(calls, outcome);
    forall i | 0 <= i < |calls|
      ensures SlotsOf(calls, OneGoodServer(chosen))[i] == OneGoodAt(i, chosen)
    {
      ServingFills(calls, outcome, i);
    }
  }

  // ----- one side or both

  ghost predicate OnBothSides(r: ReadResult, a: string) {
    r.Read? && (a in r.snapshot.views.rounds || a in r.snapshot.views.tokens) && a in r.snapshot.views.errors
  }

  // For an address that is asked for twice there is a server from which Read
  // returns it both among the values and in Errors.
  lemma RepeatedAddressOnBothSides(feeds: seq<Feed>, tokens: seq<string>, i: nat, j: nat)
    requires i < j < |feeds| + |tokens| && Addresses(feeds, tokens)[i] == Addresses(feeds, tokens)[j]
    ensures OnBothSides(ReadOf(feeds, tokens, OneGoodServer(SlotOf(|feeds|, i))), Addresses(feeds, tokens)[i])
  {
    var views := ReadCollects(feeds, tokens, OneGoodServer(SlotOf(|feeds|, i)));
    OneGoodServed(Layout(feeds, tokens), SlotOf(|feeds|, i));
    OneGoodHasHead(TokenSlot(|feeds|, |tokens|), SlotOf(|feeds|, i), views);
    FirstGoodSecondBad(feeds, tokens, i, j);
  }

  lemma DistinctReadOnOneSide(feeds: seq<Feed>, tokens: seq<string>, post: (nat, seq<Request>) -> PostResult)
    requires NoDup(Addresses(feeds, tokens)) && ReadOf(feeds, tokens, post).Read?
    ensures OneSided(feeds, tokens, ReadOf(feeds, tokens, post).snapshot.views)
  {
    var views := ReadCollects(feeds, tokens, post);
    DistinctIsOneSided(feeds, tokens, SlotsOf(Layout(feeds, tokens), post));
  }

  // Whenever a server lets Read return a Snapshot, every feed and token is in
  // exactly one of values and Errors.
  ghost predicate AlwaysOneSided(feeds: seq<Feed>, tokens: seq<string>) {
    forall post: (nat, seq<Request>) -> PostResult :: ReadOf(feeds, tokens, post).Read? ==>
      OneSided(feeds, tokens, ReadOf(feeds, tokens, post).snapshot.views)
  }

  // This is so exactly when no address is asked for twice.
  lemma OneSideExactlyWhenDistinct(feeds: seq<Feed>, tokens: seq<string>)
    ensures NoDup(Addresses(feeds, tokens)) <==> AlwaysOneSided(feeds, tokens)
  {
    if NoDup(Addresses(feeds, tokens)) {
      forall post: (nat, seq<Request>) -> PostResult | ReadOf(feeds, tokens, post).Read?
        ensures OneSided(feeds, tokens, ReadOf(feeds, tokens, post).snapshot.views)
      {
        DistinctReadOnOneSide(feeds, tokens, post);
      }
    } else {
      RepeatedIsNotOneSided(feeds, tokens);
    }
  }

  lemma RepeatedIsNotOneSided(feeds: seq<Feed>, tokens: seq<string>)
    requires !NoDup(Addresses(feeds, tokens))
    ensures !AlwaysOneSided(feeds, tokens)
  {
    var all := Addresses(feeds, tokens);
    var i, j :| 0 <= i < j < |all| && all[i] == all[j];
    var post := OneGoodServer(SlotOf(|feeds|, i));
    RepeatedAddressOnBothSides(feeds, tokens, i, j);
    assert all[i] in all;
    assert !OneSided(feeds, tokens, ReadOf(feeds, tokens, post).snapshot.views);
  }
}
