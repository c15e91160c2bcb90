// Where decoded reads land in the maps of a Snapshot, and when each address
// lands on one side only.
module Landing {
  import opened Common
  import opened BatchSpec
  import opened ReadSpec

  datatype Views = Views(rounds: map<string, Round>, tokens: map<string, TokenState>, errors: map<string, DecodeError>)

  const NOTHING := Views(map[], map[], map[])

  function RoundInto(v: Views, a: string, d: Decoded<Round>): Views {
    match d
    case Good(r) => v.(rounds := v.rounds[a := r])
    case Bad(e) => v.(errors := v.errors[a := e])
  }

  function StateInto(v: Views, a: string, d: Decoded<TokenState>): Views {
    match d
    case Good(t) => v.(tokens := v.tokens[a := t])
    case Bad(e) => v.(errors := v.errors[a := e])
  }

  // The first n feeds.
  function FeedsInto(feeds: seq<Feed>, rounds: seq<Decoded<Round>>, n: nat): Views
    requires n <= |feeds| == |rounds|
  {
    if n == 0 then NOTHING else RoundInto(FeedsInto(feeds, rounds, n - 1), feeds[n - 1].proxy, rounds[n - 1])
  }

  // The first n tokens after what is there already.
  function TokensInto(v: Views, tokens: seq<string>, states: seq<Decoded<TokenState>>, n: nat): Views
    requires n <= |tokens| == |states|
  {
    if n == 0 then v else StateInto(TokensInto(v, tokens, states, n - 1), tokens[n - 1], states[n - 1])
  }

  function Collected(feeds: seq<Feed>, tokens: seq<string>, slots: seq<Slot>): Views
    requires TokenSlot(|feeds|, |tokens|) <= |slots|
  {
    var rounds, states := RoundsOf(feeds, slots), StatesOf(|feeds|, |tokens|, slots);
    TokensInto(FeedsInto(feeds, rounds, |feeds|), tokens, states, |tokens|)
  }

  lemma {:induction false} FeedsLand(feeds: seq<Feed>, rounds: seq<Decoded<Round>>, n: nat, a: string)
    requires n <= |feeds| == |rounds|
    ensures var v := FeedsInto(feeds, rounds, n);
            && (a in v.rounds <==> exists k :: 0 <= k < n && feeds[k].proxy == a && rounds[k].Good? == true)
            && (a in v.errors <==> exists k :: 0 <= k < n && feeds[k].proxy == a && rounds[k].Good? == false)
            && v.tokens == map[]
  {
    if n > 0 {
      FeedsLand(feeds, rounds, n - 1, a);
    }
  }

  lemma {:induction false} TokensLand(v: Views, tokens: seq<string>, states: seq<Decoded<TokenState>>, n: nat, a: string)
    requires n <= |tokens| == |states|
    ensures var u := TokensInto(v, tokens, states, n);
            && u.rounds == v.rounds
            && (a in u.tokens <==> a in v.tokens || exists k :: 0 <= k < n && tokens[k] == a && states[k].Good? == true)
            && (a in u.errors <==> a in v.errors || exists k :: 0 <= k < n && tokens[k] == a && states[k].Good? == false)
  {
    if n > 0 {
      TokensLand(v, tokens, states, n - 1, a);
    }
  }

  // ----- distinct addresses

  function Addresses(feeds: seq<Feed>, tokens: seq<string>): (all: seq<string>)
    ensures |all| == |feeds| + |tokens|
    ensures forall k :: 0 <= k < |feeds| ==> all[k] == feeds[k].proxy
    ensures forall k :: |feeds| <= k < |feeds| + |tokens| ==> all[k] == tokens[k - |feeds|]
  {
    seq(|feeds|, i requires 0 <= i < |feeds| => feeds[i].proxy) + tokens
  }

  // Was the read behind the k-th address good?
  predicate ReadGood(feeds: seq<Feed>, tokens: seq<string>, slots: seq<Slot>, k: nat)
    requires k < |feeds| + |tokens| && TokenSlot(|feeds|, |tokens|) <= |slots|
  {
    if k < |feeds| then RoundsOf(feeds, slots)[k].Good?
    else StatesOf(|feeds|, |tokens|, slots)[k - |feeds|].Good?
  }

  // The reads of an address, counted over feeds and tokens or over all
  // addresses.
  lemma ReadsByPosition(feeds: seq<Feed>, tokens: seq<string>, slots: seq<Slot>, a: string, good: bool)
    requires TokenSlot(|feeds|, |tokens|) <= |slots|
    ensures
      || (exists k :: 0 <= k < |feeds| && feeds[k].proxy == a && RoundsOf(feeds, slots)[k].Good? == good)
      || (exists k :: 0 <= k < |tokens| && tokens[k] == a && StatesOf(|feeds|, |tokens|, slots)[k].Good? == good)
      <==>
      exists k :: 0 <= k < |feeds| + |tokens| && Addresses(feeds, tokens)[k] == a && ReadGood(feeds, tokens, slots, k) == good
  {
    var all := Addresses(feeds, tokens);
    if k :| 0 <= k < |feeds| && feeds[k].proxy == a && RoundsOf(feeds, slots)[k].Good? == good {
      assert all[k] == a && ReadGood(feeds, tokens, slots, k) == good;
    }
    if k :| 0 <= k < |tokens| && tokens[k] == a && StatesOf(|feeds|, |tokens|, slots)[k].Good? == good {
      assert all[|feeds| + k] == a && ReadGood(feeds, tokens, slots, |feeds| + k) == good;
    }
    if k :| 0 <= k < |all| && all[k] == a && ReadGood(feeds, tokens, slots, k) == good {
      if k < |feeds| {
        assert feeds[k].proxy == a;
      } else {
        assert tokens[k - |feeds|] == a;
      }
    }
  }

  // Whatever the lists, an address is among the values if some read of it was
  // good, and among the errors if some read of it was bad.
  lemma AddressesLand(feeds: seq<Feed>, tokens: seq<string>, slots: seq<Slot>, a: string)
    requires TokenSlot(|feeds|, |tokens|) <= |slots|
    ensures var v, all := Collected(feeds, tokens, slots), Addresses(feeds, tokens);
            && (a in v.rounds || a in v.tokens <==>
                  exists k :: 0 <= k < |all| && all[k] == a && ReadGood(feeds, tokens, slots, k) == true)
            && (a in v.errors <==>
                  exists k :: 0 <= k < |all| && all[k] == a && ReadGood(feeds, tokens, slots, k) == false)
  {
    var rounds, states := RoundsOf(feeds, slots), StatesOf(|feeds|, |tokens|, slots);
    ReadsByPosition(feeds, tokens, slots, a, true);
    ReadsByPosition(feeds, tokens, slots, a, false);
    FeedsLand(feeds, rounds, |feeds|, a);
    TokensLand(FeedsInto(feeds, rounds, |feeds|), tokens, states, |tokens|, a);
  }

  // Every address is found on exactly one side: read, or in Errors.
  ghost predicate OneSided(feeds: seq<Feed>, tokens: seq<string>, v: Views) {
    forall a :: a in Addresses(feeds, tokens) ==> ((a in v.rounds || a in v.tokens) <==> a !in v.errors)
  }

  lemma DistinctIsOneSided(feeds: seq<Feed>, tokens: seq<string>, slots: seq<Slot>)
    requires NoDup(Addresses(feeds, tokens)) && TokenSlot(|feeds|, |tokens|) <= |slots|
    ensures OneSided(feeds, tokens, Collected(feeds, tokens, slots))
  {
    var all := Addresses(feeds, tokens);
    forall a | a in all
      ensures var v := Collected(feeds, tokens, slots); (a in v.rounds || a in v.tokens) <==> a !in v.errors
    {
      AddressesLand(feeds, tokens, slots, a);
      var k :| 0 <= k < |all| && all[k] == a;
      assert forall l :: 0 <= l < |all| && all[l] == a ==> l == k;
    }
  }

  // Sound heads, and after them only the chosen slot holds data.
  function OneGood(n: nat, chosen: nat): (slots: seq<Slot>)
    ensures |slots| == n && forall q :: 0 <= q < n ==> slots[q] == OneGoodAt(q, chosen)
  {
    seq(n, q requires 0 <= q < n => OneGoodAt(q, chosen))
  }

  function OneGoodAt(q: nat, chosen: nat): Slot {
    if q == 0 then Slot(Some(Raw(None, Some(1), None)), None)
    else if q == 1 then Slot(Some(Raw(None, None, Some(Head(1, 1)))), None)
    else if q == chosen then GoodSlot()
    else BadSlot()
  }

  // The slot, or first slot, of the k-th address.
  function SlotOf(feeds: nat, k: nat): nat {
    if k < feeds then FeedSlot(k) else TokenSlot(feeds, k - feeds)
  }

  lemma OneGoodReads(feeds: seq<Feed>, tokens: seq<string>, i: nat, k: nat)
    requires i < |feeds| + |tokens| && k < |feeds| + |tokens|
    ensures ReadGood(feeds, tokens, OneGood(TokenSlot(|feeds|, |tokens|), SlotOf(|feeds|, i)), k) == (k == i)
  {
    GoodSlotIsGood(if k < |feeds| then feeds[k].decimals else 0);
  }

  // Of two entries for one address the first can be read well and the second
  // badly.
  lemma FirstGoodSecondBad(feeds: seq<Feed>, tokens: seq<string>, i: nat, j: nat)
    requires i < j < |feeds| + |tokens| && Addresses(feeds, tokens)[i] == Addresses(feeds, tokens)[j]
    ensures var v := Collected(feeds, tokens, OneGood(TokenSlot(|feeds|, |tokens|), SlotOf(|feeds|, i)));
            var a := Addresses(feeds, tokens)[i];
            (a in v.rounds || a in v.tokens) && a in v.errors
  {
    OneGoodReads(feeds, tokens, i, i);
    OneGoodReads(feeds, tokens, i, j);
    AddressesLand(feeds, tokens, OneGood(TokenSlot(|feeds|, |tokens|), SlotOf(|feeds|, i)), Addresses(feeds, tokens)[i]);
  }

  // ----- which value lands

  ghost predicate HasRound(v: Views, a: string, d: Decoded<Round>) {
    match d
    case Good(r) => a in v.rounds && v.rounds[a] == r
    case Bad(e) => a in v.errors && v.errors[a] == e
  }

  ghost predicate HasState(v: Views, a: string, d: Decoded<TokenState>) {
    match d
    case Good(t) => a in v.tokens && v.tokens[a] == t
    case Bad(e) => a in v.errors && v.errors[a] == e
  }

  lemma {:induction false} RoundKept(feeds: seq<Feed>, rounds: seq<Decoded<Round>>, n: nat, k: nat)
    requires k < n <= |feeds| == |rounds|
    requires forall l :: k < l < n ==> feeds[l].proxy != feeds[k].proxy
    ensures HasRound(FeedsInto(feeds, rounds, n), feeds[k].proxy, rounds[k])
    decreases n
  {
    if k < n - 1 {
      RoundKept(feeds, rounds, n - 1, k);
    }
  }

  lemma {:induction false} RoundUntouched(v: Views, a: string, d: Decoded<Round>,
                                          tokens: seq<string>, states: seq<Decoded<TokenState>>, n: nat)
    requires n <= |tokens| == |states| && HasRound(v, a, d)
    requires forall l :: 0 <= l < n ==> tokens[l] != a
    ensures HasRound(TokensInto(v, tokens, states, n), a, d)
    decreases n
  {
    if n > 0 {
      RoundUntouched(v, a, d, tokens, states, n - 1);
    }
  }

  lemma {:induction false} StateKept(v: Views, tokens: seq<string>, states: seq<Decoded<TokenState>>, n: nat, k: nat)
    requires k < n <= |tokens| == |states|
    requires forall l :: k < l < n ==> tokens[l] != tokens[k]
    ensures HasState(TokensInto(v, tokens, states, n), tokens[k], states[k])
    decreases n
  {
    if k < n - 1 {
      StateKept(v, tokens, states, n - 1, k);
    }
  }

  lemma DistinctParts(feeds: seq<Feed>, tokens: seq<string>)
    requires NoDup(Addresses(feeds, tokens))
    ensures forall k, l :: 0 <= k < l < |feeds| ==> feeds[l].proxy != feeds[k].proxy
    ensures forall k, l :: 0 <= k < |feeds| && 0 <= l < |tokens| ==> tokens[l] != feeds[k].proxy
    ensures forall k, l :: 0 <= k < l < |tokens| ==> tokens[l] != tokens[k]
  {
    var all := Addresses(feeds, tokens);
    forall k, l | 0 <= k < l < |feeds|
      ensures feeds[l].proxy != feeds[k].proxy
    {
      assert all[k] != all[l];
    }
    forall k, l | 0 <= k < |feeds| && 0 <= l < |tokens|
      ensures tokens[l] != feeds[k].proxy
    {
      assert all[k] != all[|feeds| + l];
    }
    forall k, l | 0 <= k < l < |tokens|
      ensures tokens[l] != tokens[k]
    {
      assert all[|feeds| + k] != all[|feeds| + l];
    }
  }

  lemma DistinctAddressesKeepAll(feeds: seq<Feed>, tokens: seq<string>, slots: seq<Slot>)
    requires NoDup(Addresses(feeds, tokens)) && TokenSlot(|feeds|, |tokens|) <= |slots|
    ensures var v := Collected(feeds, tokens, slots);
            && (forall k :: 0 <= k < |feeds| ==> HasRound(v, feeds[k].proxy, RoundsOf(feeds, slots)[k]))
            && (forall k :: 0 <= k < |tokens| ==> HasState(v, tokens[k], StatesOf(|feeds|, |tokens|, slots)[k]))
  {
    var rounds, states := RoundsOf(feeds, slots), StatesOf(|feeds|, |tokens|, slots);
    var v := FeedsInto(feeds, rounds, |feeds|);
    DistinctParts(feeds, tokens);
    forall k | 0 <= k < |feeds|
      ensures HasRound(TokensInto(v, tokens, states, |tokens|), feeds[k].proxy, rounds[k])
    {
      RoundKept(feeds, rounds, |feeds|, k);
      RoundUntouched(v, feeds[k].proxy, rounds[k], tokens, states, |tokens|);
    }
    forall k | 0 <= k < |tokens|
      ensures HasState(TokensInto(v, tokens, states, |tokens|), tokens[k], states[k])
    {
      StateKept(v, tokens, states, |tokens|, k);
    }
  }

  // With distinct addresses every feed and every token gets what its own calls
  // came back with, from any server that answers each call at most once.
  lemma EachReadsItsOwnCalls(feeds: seq<Feed>, tokens: seq<string>, slots: seq<Slot>, answer: nat -> Option<Outcome>)
    requires NoDup(Addresses(feeds, tokens))
    requires |slots| == |Layout(feeds, tokens)|
    requires forall i :: 0 <= i < |slots| ==> slots[i] == Final(Layout(feeds, tokens)[i], answer(i))
    ensures TokenSlot(|feeds|, |tokens|) == |slots|
    ensures forall k :: 0 <= k < |feeds| ==>
      var reply := Final(EthCall(feeds[k].proxy, LATEST_ROUND_DATA), answer(FeedSlot(k)));
      HasRound(Collected(feeds, tokens, slots), feeds[k].proxy, DecodeRound(reply, feeds[k].decimals))
    ensures forall k :: 0 <= k < |tokens| ==>
      var i := TokenSlot(|feeds|, k);
      var multiplier := Final(EthCall(tokens[k], UI_MULTIPLIER), answer(i));
      var paused := Final(EthCall(tokens[k], ORACLE_PAUSED), answer(i + 1));
      HasState(Collected(feeds, tokens, slots), tokens[k], DecodeToken(multiplier, paused))
  {
    LayoutIsAligned(feeds, tokens);
    DistinctAddressesKeepAll(feeds, tokens, slots);
  }
}
