// JSON-RPC batching in internal/hood/hood.go: what the replies of a server make
// of the slots of a batch, chunked or whole.
module BatchSpec {
  import opened Common

  const MAX_BATCH: nat := 25

  datatype Request = Plain(name: string) | EthCall(to: string, data: string)

  datatype Head = Head(number: int, time: int)

  // A raw JSON result, by what the library's decoders make of it: a hex string's
  // bytes, a hex quantity, a block.
  datatype Raw = Raw(bytes: Option<seq<Byte>>, quantity: Option<int>, block: Option<Head>)

  datatype Outcome = Answer(raw: Raw) | Failure(message: string)

  datatype Reply = Reply(id: int, outcome: Outcome)

  datatype PostResult = Failed(error: string) | Replies(replies: seq<Reply>)

  datatype CallError = NoResponse(request: Request) | Remote(message: string)

  // One call's result and error, both of which the program keeps.
  datatype Slot = Slot(result: Option<Raw>, err: Option<CallError>)

  function Blank(r: Request): Slot {
    Slot(None, Some(NoResponse(r)))
  }

  // An error reply sets the error alone.
  function Settle(s: Slot, o: Outcome): Slot {
    match o
    case Answer(raw) => Slot(Some(raw), None)
    case Failure(message) => s.(err := Some(Remote(message)))
  }

  function SettleAll(s: Slot, os: seq<Outcome>): Slot {
    if os == [] then s else Settle(SettleAll(s, os[..|os| - 1]), os[|os| - 1])
  }

  // The replies that carry one id, in the order they came.
  function Of(rs: seq<Reply>, id: int): seq<Outcome> {
    if rs == [] then []
    else Of(rs[..|rs| - 1], id) + (if rs[|rs| - 1].id == id then [rs[|rs| - 1].outcome] else [])
  }

  // The first index of the chunk that call i travels in.
  function ChunkOf(i: nat): nat {
    i - i % MAX_BATCH
  }

  lemma ChunkStart(i: nat, lo: nat)
    requires lo % MAX_BATCH == 0 && i < lo + MAX_BATCH
    ensures lo <= i ==> ChunkOf(i) == lo
    ensures i % MAX_BATCH == 0 ==> i <= lo
  {
  }

  function Chunk(calls: seq<Request>, lo: nat): seq<Request>
    requires lo <= |calls|
  {
    calls[lo..Min(lo + MAX_BATCH, |calls|)]
  }

  // What a list of replies to calls lo.. leaves in the slots: replies with other
  // ids are passed over.
  function Place(slots: seq<Slot>, lo: nat, hi: nat, rs: seq<Reply>): (t: seq<Slot>)
    requires lo <= hi <= |slots|
    ensures |t| == |slots|
  {
    if rs == [] then slots else
      var t := Place(slots, lo, hi, rs[..|rs| - 1]);
      var r := rs[|rs| - 1];
      if lo <= r.id < hi then t[r.id := Settle(t[r.id], r.outcome)] else t
  }

  lemma {:induction false} PlaceIs(slots: seq<Slot>, lo: nat, hi: nat, rs: seq<Reply>, i: nat)
    requires lo <= hi <= |slots| && i < |slots|
    ensures Place(slots, lo, hi, rs)[i] == if lo <= i < hi then SettleAll(slots[i], Of(rs, i)) else slots[i]
    decreases |rs|
  {
    if rs != [] {
      var before := Of(rs[..|rs| - 1], i);
      PlaceIs(slots, lo, hi, rs[..|rs| - 1], i);
      assert (before + [rs[|rs| - 1].outcome])[..|before|] == before;
      assert before + [] == before;
    }
  }

  // A server answers each id of a request at most once, in any order, when the
  // replies for every id are the one it has for it, or none.
  ghost predicate AnswersOnce(rs: seq<Reply>, lo: nat, hi: nat, answer: nat -> Option<Outcome>) {
    forall i :: lo <= i < hi ==> Of(rs, i) == match answer(i) case Some(o) => [o] case None => []
  }

  // What a call should come back with.
  function Final(r: Request, answer: Option<Outcome>): Slot {
    match answer
    case None => Blank(r)
    case Some(Answer(raw)) => Slot(Some(raw), None)
    case Some(Failure(message)) => Slot(None, Some(Remote(message)))
  }

  lemma SettledOnce(r: Request, os: seq<Outcome>, answer: Option<Outcome>)
    requires os == match answer case Some(o) => [o] case None => []
    ensures SettleAll(Blank(r), os) == Final(r, answer)
  {
    if answer.Some? {
      assert os[..0] == [];
    }
  }

  // What chunked batching leaves in slot i.
  function Chunked(calls: seq<Request>, post: (nat, seq<Request>) -> PostResult, i: nat): Slot
    requires i < |calls|
  {
    var lo := ChunkOf(i);
    match post(lo, Chunk(calls, lo))
    case Replies(rs) => SettleAll(Blank(calls[i]), Of(rs, i))
    case Failed(_) => Blank(calls[i])
  }

  ghost predicate Posted(calls: seq<Request>, post: (nat, seq<Request>) -> PostResult, hi: nat) {
    forall lo :: 0 <= lo < hi && lo < |calls| && lo % MAX_BATCH == 0 ==> post(lo, Chunk(calls, lo)).Replies?
  }

  // The error of the first chunk, from lo on, that cannot be posted.
  function FirstFailure(calls: seq<Request>, post: (nat, seq<Request>) -> PostResult, lo: nat): Option<string>
    decreases |calls| - lo
  {
    if |calls| <= lo then None
    else match post(lo, Chunk(calls, lo))
      case Failed(error) => Some(error)
      case Replies(_) => FirstFailure(calls, post, lo + MAX_BATCH)
  }

  lemma PostedMore(calls: seq<Request>, post: (nat, seq<Request>) -> PostResult, lo: nat)
    requires lo % MAX_BATCH == 0 && lo < |calls| && Posted(calls, post, lo) && post(lo, Chunk(calls, lo)).Replies?
    ensures Posted(calls, post, lo + MAX_BATCH)
    ensures FirstFailure(calls, post, lo) == FirstFailure(calls, post, lo + MAX_BATCH)
  {
    forall l | 0 <= l < lo + MAX_BATCH && l < |calls| && l % MAX_BATCH == 0
      ensures post(l, Chunk(calls, l)).Replies?
    {
      ChunkStart(l, lo);
    }
  }

  lemma {:induction false} NoFailureIsPosted(calls: seq<Request>, post: (nat, seq<Request>) -> PostResult, lo: nat)
    requires lo % MAX_BATCH == 0 && Posted(calls, post, lo)
    ensures FirstFailure(calls, post, lo).None? <==> Posted(calls, post, |calls|)
    decreases |calls| - lo
  {
    if lo < |calls| && post(lo, Chunk(calls, lo)).Replies? {
      PostedMore(calls, post, lo);
      NoFailureIsPosted(calls, post, lo + MAX_BATCH);
    }
  }

  // That error is the one of the first chunk that fails, all before it being
  // posted.
  lemma {:induction false} FirstFailureIs(calls: seq<Request>, post: (nat, seq<Request>) -> PostResult, lo: nat)
    returns (at: nat)
    requires lo % MAX_BATCH == 0 && Posted(calls, post, lo) && FirstFailure(calls, post, lo).Some?
    ensures at < |calls| && at % MAX_BATCH == 0 && Posted(calls, post, at)
    ensures post(at, Chunk(calls, at)) == Failed(FirstFailure(calls, post, lo).value)
    decreases |calls| - lo
  {
    if post(lo, Chunk(calls, lo)).Failed? {
      at := lo;
    } else {
      PostedMore(calls, post, lo);
      at := FirstFailureIs(calls, post, lo + MAX_BATCH);
    }
  }

  // One unchunked batch.
  function BigBatch(calls: seq<Request>, rs: seq<Reply>): seq<Slot> {
    Place(seq(|calls|, i requires 0 <= i < |calls| => Blank(calls[i])), 0, |calls|, rs)
  }

  lemma BigBatchAnswers(calls: seq<Request>, rs: seq<Reply>, answer: nat -> Option<Outcome>)
    requires AnswersOnce(rs, 0, |calls|, answer)
    ensures |BigBatch(calls, rs)| == |calls|
    ensures forall i :: 0 <= i < |calls| ==> BigBatch(calls, rs)[i] == Final(calls[i], answer(i))
  {
    var slots := seq(|calls|, i requires 0 <= i < |calls| => Blank(calls[i]));
    forall i | 0 <= i < |calls|
      ensures BigBatch(calls, rs)[i] == Final(calls[i], answer(i))
    {
      PlaceIs(slots, 0, |calls|, rs, i);
      SettledOnce(calls[i], Of(rs, i), answer(i));
    }
  }

  // In chunks, from a server that answers each id at most once, slot i holds
  // call i's reply or its error.
  lemma ChunkedAnswers(calls: seq<Request>, post: (nat, seq<Request>) -> PostResult, answer: nat -> Option<Outcome>, i: nat)
    requires Posted(calls, post, |calls|) && i < |calls|
    requires forall lo :: 0 <= lo < |calls| && lo % MAX_BATCH == 0 ==>
      AnswersOnce(post(lo, Chunk(calls, lo)).replies, lo, Min(lo + MAX_BATCH, |calls|), answer)
    ensures Chunked(calls, post, i) == Final(calls[i], answer(i))
  {
    var lo := ChunkOf(i);
    assert lo % MAX_BATCH == 0 && lo <= i < lo + MAX_BATCH;
    SettledOnce(calls[i], Of(post(lo, Chunk(calls, lo)).replies, i), answer(i));
  }

  // So chunks give what one big batch to the same server gives.
  lemma ChunkedEqualsBigBatch(calls: seq<Request>, post: (nat, seq<Request>) -> PostResult, rs: seq<Reply>,
                              answer: nat -> Option<Outcome>)
    requires Posted(calls, post, |calls|)
    requires forall lo :: 0 <= lo < |calls| && lo % MAX_BATCH == 0 ==>
      AnswersOnce(post(lo, Chunk(calls, lo)).replies, lo, Min(lo + MAX_BATCH, |calls|), answer)
    requires AnswersOnce(rs, 0, |calls|, answer)
    ensures |BigBatch(calls, rs)| == |calls|
    ensures forall i :: 0 <= i < |calls| ==> Chunked(calls, post, i) == BigBatch(calls, rs)[i]
  {
    BigBatchAnswers(calls, rs, answer);
    forall i | 0 <= i < |calls|
      ensures Chunked(calls, post, i) == Final(calls[i], answer(i))
    {
      ChunkedAnswers(calls, post, answer, i);
    }
  }

  // The documented rule that an error leaves the result nil holds of a slot
  // exactly when no error reply comes last after an answer to the same id.
  lemma {:induction false} ErrorLeavesResultNil(r: Request, os: seq<Outcome>)
    ensures var s := SettleAll(Blank(r), os);
            && (s.result.None? ==> s.err.Some?)
            && (s.err.Some? && s.result.Some? <==>
                  os != [] && os[|os| - 1].Failure? && exists k :: 0 <= k < |os| && os[k].Answer?)
    decreases |os|
  {
    if os != [] {
      var front := os[..|os| - 1];
      ErrorLeavesResultNil(r, front);
      ResultStays(r, front);
      if k :| 0 <= k < |os| && os[k].Answer? {
        assert k < |front| ==> front[k].Answer?;
      }
      if k :| 0 <= k < |front| && front[k].Answer? {
        assert os[k].Answer?;
      }
    }
  }

  // Of several replies to one id the last decides about the error, and the last
  // answer is the result.
  lemma {:induction false} LastReplyCounts(r: Request, os: seq<Outcome>)
    ensures var s := SettleAll(Blank(r), os);
            && (os == [] ==> s == Blank(r))
            && (os != [] ==> s.err == match os[|os| - 1] case Answer(_) => None case Failure(m) => Some(Remote(m)))
            && (forall k :: 0 <= k < |os| && os[k].Answer? && (forall l :: k < l < |os| ==> os[l].Failure?) ==>
                  s.result == Some(os[k].raw))
            && ((forall k :: 0 <= k < |os| ==> os[k].Failure?) ==> s.result == None)
    decreases |os|
  {
    if os != [] {
      LastReplyCounts(r, os[..|os| - 1]);
    }
  }

  lemma {:induction false} ResultStays(r: Request, os: seq<Outcome>)
    ensures SettleAll(Blank(r), os).result.Some? <==> exists k :: 0 <= k < |os| && os[k].Answer?
    decreases |os|
  {
    if os != [] {
      var front, last := os[..|os| - 1], os[|os| - 1];
      ResultStays(r, front);
      if last.Answer? {
        assert os[|os| - 1].Answer?;
      } else if k :| 0 <= k < |front| && front[k].Answer? {
        assert os[k].Answer?;
      }
    }
  }
}
