// A round order by order: what each order does to cash and positions, spelled
// out, and that a round is its first three orders one after the other.
module BookRound {
  import Common
  import opened BookSpec
  import opened BookProofs

  // The orders that trade.
  predicate Trades(a: Account, o: Order, quotes: map<string, Quote>) {
    && o.symbol in quotes && !quotes[o.symbol].halted
    && o.amount.Dollars? && o.amount.usd >= MIN_ORDER
    && match o.side
       case Buy => quotes[o.symbol].ask > 0.0 && a.cash >= MIN_ORDER
       case Sell => quotes[o.symbol].bid > 0.0 && Position(a.tokens, o.symbol) > DUST
       case OtherSide(_) => false
  }

  // A buy: the dollars asked for, or all there are, go from cash into the
  // position at the ask.
  predicate BuysInto(a: Account, o: Order, q: Quote, b: Account, report: seq<Fill>)
    requires o.amount.Dollars?
  {
    && |report| == 1 && report[0].Bought? && report[0].symbol == o.symbol
    && var usd := report[0].usd;
       && (if o.amount.usd <= a.cash then usd == o.amount.usd else usd == a.cash)
       && b.cash == a.cash - usd
       && o.symbol in b.tokens && (b.tokens[o.symbol] - Position(a.tokens, o.symbol)) * q.ask == usd
  }

  // A sell: tokens worth the dollars asked for go at the bid, or the whole
  // position if next to nothing would be left.
  predicate SellsFrom(a: Account, o: Order, q: Quote, b: Account, report: seq<Fill>)
    requires o.amount.Dollars?
  {
    && |report| == 1 && report[0].Sold? && report[0].symbol == o.symbol
    && var n, held := report[0].n, Position(a.tokens, o.symbol);
       && (if held * q.bid - o.amount.usd < CLOSE_OUT * q.bid then n == held else n * q.bid == o.amount.usd)
       && b.cash == a.cash + n * q.bid
       && (if n == held then o.symbol !in b.tokens else o.symbol in b.tokens && b.tokens[o.symbol] == held - n)
  }

  // Why an order does not trade, if anything is said about it.
  predicate Explains(a: Account, o: Order, quotes: map<string, Quote>, why: Reason) {
    match why
    case NotTradable => o.symbol !in quotes
    case Halted => o.symbol in quotes && quotes[o.symbol].halted
    case NoAsk => Sized(o, quotes) && o.side == Buy && quotes[o.symbol].ask <= 0.0
    case NoCash => Sized(o, quotes) && o.side == Buy && quotes[o.symbol].ask > 0.0 && a.cash < MIN_ORDER
    case NothingToSell =>
      Sized(o, quotes) && o.side == Sell && (Position(a.tokens, o.symbol) <= DUST || quotes[o.symbol].bid <= 0.0)
    case UnknownSide => Sized(o, quotes) && o.side.OtherSide?
  }

  // Large enough an order for something that trades.
  predicate Sized(o: Order, quotes: map<string, Quote>) {
    o.symbol in quotes && !quotes[o.symbol].halted && o.amount.Dollars? && o.amount.usd >= MIN_ORDER
  }

  // b and the report are what order o makes of a: a trade touches cash and the
  // one position, counts as one, and everything else changes nothing.
  predicate Carries(a: Account, o: Order, quotes: map<string, Quote>, b: Account, report: seq<Fill>) {
    if Trades(a, o, quotes) then
      && b.tokens - {o.symbol} == a.tokens - {o.symbol} && b.trades == a.trades + 1
      && (if o.side == Buy then BuysInto(a, o, quotes[o.symbol], b, report)
          else SellsFrom(a, o, quotes[o.symbol], b, report))
    else
      && b == a
      && match |report|
         case 0 => o.symbol in quotes && !quotes[o.symbol].halted && !Sized(o, quotes)
         case 1 => report[0].Unfilled? && report[0].symbol == o.symbol && Explains(a, o, quotes, report[0].why)
         case _ => false
  }

  lemma BuyCarries(a: Account, o: Order, quotes: map<string, Quote>)
    requires Trades(a, o, quotes) && o.side == Buy
    ensures Carries(a, o, quotes, Apply(a, o, quotes).0, Apply(a, o, quotes).1)
  {
    var q, b := quotes[o.symbol], Apply(a, o, quotes).0;
    var usd := BookSpec.Min(o.amount.usd, a.cash);
    assert b.tokens[o.symbol] - Position(a.tokens, o.symbol) == usd / q.ask;
    assert usd / q.ask * q.ask == usd;
  }

  lemma SellCarries(a: Account, o: Order, quotes: map<string, Quote>)
    requires Trades(a, o, quotes) && o.side == Sell
    ensures Carries(a, o, quotes, Apply(a, o, quotes).0, Apply(a, o, quotes).1)
  {
    var q, held, usd := quotes[o.symbol], Position(a.tokens, o.symbol), o.amount.usd;
    var n := SellSize(usd, q, held);
    DustIsZero(usd, q, held);
    SellSizeIs(usd, q, held);
    assert !(held <= DUST || q.bid <= 0.0);
    assert Apply(a, o, quotes).1 == [Sold(o.symbol, n)];
    assert Apply(a, o, quotes).0 == Account(a.cash + n * q.bid, Reduce(a.tokens, o.symbol, n), a.trades + 1);
  }

  lemma ScaleBoth(x: real, y: real, z: real)
    requires z > 0.0
    ensures x < y <==> x * z < y * z
  {
    if x < y {
      assert (y - x) * z > 0.0;
    } else {
      assert (x - y) * z >= 0.0;
    }
  }

  lemma SellSizeIs(usd: real, q: Quote, held: real)
    requires q.bid > 0.0
    ensures var n := SellSize(usd, q, held);
            if held * q.bid - usd < CLOSE_OUT * q.bid then n == held else n * q.bid == usd
  {
    var want := usd / q.bid;
    assert want * q.bid == usd;
    ScaleBoth(held - want, CLOSE_OUT, q.bid);
    assert (held - want) * q.bid == held * q.bid - want * q.bid;
    if held - want >= CLOSE_OUT {
      assert SellSize(usd, q, held) == want;
    }
  }

  lemma ApplyCarries(a: Account, o: Order, quotes: map<string, Quote>)
    ensures Carries(a, o, quotes, Apply(a, o, quotes).0, Apply(a, o, quotes).1)
  {
    if Trades(a, o, quotes) {
      if o.side == Buy {
        BuyCarries(a, o, quotes);
      } else {
        SellCarries(a, o, quotes);
      }
    }
  }

  // ----- a round

  // The k-th order is carried out on the k-th account and leaves the next.
  ghost predicate Stages(orders: seq<Order>, quotes: map<string, Quote>, accounts: seq<Account>, reports: seq<seq<Fill>>) {
    && |accounts| == |orders| + 1 && |reports| == |orders|
    && forall k :: 0 <= k < |orders| ==> Carries(accounts[k], orders[k], quotes, accounts[k + 1], reports[k])
  }

  function Together(reports: seq<seq<Fill>>): seq<Fill> {
    if reports == [] then [] else Together(reports[..|reports| - 1]) + reports[|reports| - 1]
  }

  lemma {:induction false} ApplyAllStages(a: Account, orders: seq<Order>, quotes: map<string, Quote>)
    returns (accounts: seq<Account>, reports: seq<seq<Fill>>)
    ensures Stages(orders, quotes, accounts, reports) && accounts[0] == a
    ensures ApplyAll(a, orders, quotes) == (accounts[|orders|], Together(reports))
    decreases |orders|
  {
    if orders == [] {
      accounts, reports := [a], [];
    } else {
      var front, last := orders[..|orders| - 1], orders[|orders| - 1];
      var before, told := ApplyAllStages(a, front, quotes);
      var (b, report) := Apply(before[|front|], last, quotes);
      ApplyCarries(before[|front|], last, quotes);
      accounts, reports := before + [b], told + [report];
      assert reports[..|reports| - 1] == told;
    }
  }

  // A round carries out its first three orders, each on the account the ones
  // before it left; the rest are only counted.
  ghost predicate RoundOf(a: Account, orders: seq<Order>, quotes: map<string, Quote>, b: Account, fills: seq<Fill>) {
    var n := Common.Min(MAX_ORDERS, |orders|);
    exists accounts, reports ::
      && Stages(orders[..n], quotes, accounts, reports)
      && accounts[0] == a && accounts[n] == b
      && fills == Together(reports) + (if n < |orders| then [Ignored(|orders| - n)] else [])
  }

  lemma ExecuteIsRound(a: Account, orders: seq<Order>, quotes: map<string, Quote>)
    ensures RoundOf(a, orders, quotes, Execute(a, orders, quotes).0, Execute(a, orders, quotes).1)
  {
    var n := Common.Min(MAX_ORDERS, |orders|);
    var accounts, reports := ApplyAllStages(a, orders[..n], quotes);
    assert |orders| <= MAX_ORDERS ==> orders[..n] == orders;
    assert Together(reports) + [] == Together(reports);
  }

  // ----- worth

  // A position with a quote counts at the middle of bid and ask, one without
  // counts nothing.
  lemma WorthIs(tokens: map<string, real>, quotes: map<string, Quote>, s: string)
    ensures Worth(map[], quotes) == 0.0
    ensures s in tokens && s in quotes ==>
      Worth(tokens, quotes) == Worth(tokens - {s}, quotes) + tokens[s] * (quotes[s].bid + quotes[s].ask) / 2.0
    ensures s in tokens && s !in quotes ==> Worth(tokens, quotes) == Worth(tokens - {s}, quotes)
  {
    if s in tokens {
      WorthSplit(tokens, quotes, s);
    }
  }
}
