// Conservation and safety of the trading book.
module BookProofs {
  import opened BookSpec

  // What a fill costs against the mid: half the spread on what changed hands.
  function SpreadCost(f: Fill, quotes: map<string, Quote>): real {
    match f
    case Bought(s, usd) =>
      if s in quotes && quotes[s].ask != 0.0
      then usd * (quotes[s].ask - quotes[s].bid) / (2.0 * quotes[s].ask) else 0.0
    case Sold(s, n) => if s in quotes then n * (quotes[s].ask - quotes[s].bid) / 2.0 else 0.0
    case Unfilled(_, _) => 0.0
    case Ignored(_) => 0.0
  }

  // A sum over fills.
  function Total(fills: seq<Fill>, of: Fill -> real): real {
    if fills == [] then 0.0 else Total(fills[..|fills| - 1], of) + of(fills[|fills| - 1])
  }

  function TotalCost(fills: seq<Fill>, quotes: map<string, Quote>): real {
    Total(fills, CostIn(quotes))
  }

  function CostIn(quotes: map<string, Quote>): Fill -> real {
    f => SpreadCost(f, quotes)
  }

  lemma {:induction false} TotalConcat(xs: seq<Fill>, ys: seq<Fill>, of: Fill -> real)
    ensures Total(xs + ys, of) == Total(xs, of) + Total(ys, of)
    decreases |ys|
  {
    if ys == [] {
      assert xs + ys == xs;
    } else {
      TotalConcat(xs, ys[..|ys| - 1], of);
      assert (xs + ys)[..|xs + ys| - 1] == xs + ys[..|ys| - 1];
    }
  }

  // Worth after one position is set or removed.
  lemma WorthSet(tokens: map<string, real>, quotes: map<string, Quote>, s: string, n: real)
    ensures Worth(tokens[s := n], quotes)
         == Worth(tokens, quotes) + Marked(s, n, quotes) - Marked(s, Position(tokens, s), quotes)
    ensures Worth(tokens - {s}, quotes) == Worth(tokens, quotes) - Marked(s, Position(tokens, s), quotes)
  {
    var updated := tokens[s := n];
    WorthSplit(updated, quotes, s);
    assert updated - {s} == tokens - {s};
    if s in tokens {
      WorthSplit(tokens, quotes, s);
    } else {
      assert tokens - {s} == tokens;
    }
  }

  lemma HalfSpreadOfBuy(usd: real, q: Quote)
    requires q.ask > 0.0
    ensures usd / q.ask * Mid(q) - usd == -(usd * (q.ask - q.bid) / (2.0 * q.ask))
  {
    var x := usd / q.ask;
    assert x * q.ask == usd;
    assert usd * (q.ask - q.bid) / (2.0 * q.ask) == x * (q.ask - q.bid) / 2.0;
  }

  // A sell leaves either nothing or more than dust; what the dust rule deletes
  // is exactly zero.
  lemma DustIsZero(usd: real, q: Quote, held: real)
    requires q.bid > 0.0 && held > DUST && usd >= MIN_ORDER
    ensures var n := SellSize(usd, q, held);
            && 0.0 < n <= held
            && (held - n <= DUST <==> n == held)
            && n * q.bid < usd + CLOSE_OUT * q.bid
  {
    var want := usd / q.bid;
    assert want * q.bid == usd;
    assert want > 0.0;
    var n := SellSize(usd, q, held);
    assert n < want + CLOSE_OUT;
    assert n * q.bid < (want + CLOSE_OUT) * q.bid;
  }

  lemma MarkedMoves(s: string, held: real, x: real, quotes: map<string, Quote>)
    requires s in quotes
    ensures Marked(s, held + x, quotes) - Marked(s, held, quotes) == x * Mid(quotes[s])
  {
  }

  // Worth after a position is set, as a difference of two marks.
  lemma WorthDelta(tokens: map<string, real>, quotes: map<string, Quote>, s: string, n: real, delta: real)
    requires Marked(s, n, quotes) - Marked(s, Position(tokens, s), quotes) == delta
    ensures Worth(tokens[s := n], quotes) == Worth(tokens, quotes) + delta
  {
    WorthSet(tokens, quotes, s, n);
  }

  // A position that grows or shrinks by x moves the worth by x at the mid.
  lemma WorthAdded(tokens: map<string, real>, quotes: map<string, Quote>, s: string, x: real)
    requires s in quotes
    ensures Worth(tokens[s := Position(tokens, s) + x], quotes) == Worth(tokens, quotes) + x * Mid(quotes[s])
  {
    var held := Position(tokens, s);
    MarkedMoves(s, held, x, quotes);
    WorthDelta(tokens, quotes, s, held + x, x * Mid(quotes[s]));
  }

  lemma WorthTaken(tokens: map<string, real>, quotes: map<string, Quote>, s: string, n: real)
    requires s in quotes
    ensures Worth(tokens[s := Position(tokens, s) - n], quotes) == Worth(tokens, quotes) - n * Mid(quotes[s])
    ensures n == Position(tokens, s) ==> Worth(tokens - {s}, quotes) == Worth(tokens, quotes) - n * Mid(quotes[s])
  {
    var held := Position(tokens, s);
    MarkedMoves(s, held - n, n, quotes);
    WorthDelta(tokens, quotes, s, held - n, -(n * Mid(quotes[s])));
    WorthSet(tokens, quotes, s, held);
  }

  lemma SpreadOfBuy(s: string, usd: real, quotes: map<string, Quote>)
    requires s in quotes && quotes[s].ask > 0.0
    ensures SpreadCost(Bought(s, usd), quotes) == usd - usd / quotes[s].ask * Mid(quotes[s])
  {
    HalfSpreadOfBuy(usd, quotes[s]);
  }

  lemma SpreadOfSell(s: string, n: real, quotes: map<string, Quote>)
    requires s in quotes
    ensures SpreadCost(Sold(s, n), quotes) == n * Mid(quotes[s]) - n * quotes[s].bid
  {
  }

  lemma BuyCostsHalfSpread(a: Account, s: string, usd: real, quotes: map<string, Quote>)
    requires s in quotes && quotes[s].ask > 0.0
    ensures var b := Account(a.cash - usd, a.tokens[s := Position(a.tokens, s) + usd / quotes[s].ask], a.trades + 1);
            Equity(b, quotes) == Equity(a, quotes) - SpreadCost(Bought(s, usd), quotes)
  {
    WorthAdded(a.tokens, quotes, s, usd / quotes[s].ask);
    SpreadOfBuy(s, usd, quotes);
  }

  lemma SellCostsHalfSpread(a: Account, s: string, usd: real, quotes: map<string, Quote>)
    requires s in quotes && quotes[s].bid > 0.0 && Position(a.tokens, s) > DUST && usd >= MIN_ORDER
    ensures var n := SellSize(usd, quotes[s], Position(a.tokens, s));
            var b := Account(a.cash + n * quotes[s].bid, Reduce(a.tokens, s, n), a.trades + 1);
            Equity(b, quotes) == Equity(a, quotes) - SpreadCost(Sold(s, n), quotes)
  {
    var n := SellSize(usd, quotes[s], Position(a.tokens, s));
    DustIsZero(usd, quotes[s], Position(a.tokens, s));
    WorthTaken(a.tokens, quotes, s, n);
    SpreadOfSell(s, n, quotes);
  }

  lemma TotalOfOne(f: Fill, of: Fill -> real)
    ensures Total([f], of) == of(f)
  {
    assert [f][..0] == [];
  }

  lemma CostOfOne(f: Fill, quotes: map<string, Quote>)
    ensures TotalCost([f], quotes) == SpreadCost(f, quotes)
  {
    TotalOfOne(f, CostIn(quotes));
  }

  // One order changes equity by exactly minus the half-spread it paid.
  lemma ApplyCostsHalfSpread(a: Account, o: Order, quotes: map<string, Quote>)
    ensures var (b, fills) := Apply(a, o, quotes);
            |fills| <= 1 && Equity(b, quotes) == Equity(a, quotes) - TotalCost(fills, quotes)
  {
    var (b, fills) := Apply(a, o, quotes);
    if fills != [] {
      CostOfOne(fills[0], quotes);
      assert fills == [fills[0]];
      if fills[0].Bought? {
        BuyCostsHalfSpread(a, o.symbol, fills[0].usd, quotes);
      } else if fills[0].Sold? {
        SellCostsHalfSpread(a, o.symbol, o.amount.usd, quotes);
      }
    }
  }

  lemma TotalCostConcat(xs: seq<Fill>, ys: seq<Fill>, quotes: map<string, Quote>)
    ensures TotalCost(xs + ys, quotes) == TotalCost(xs, quotes) + TotalCost(ys, quotes)
  {
    TotalConcat(xs, ys, CostIn(quotes));
  }

  lemma {:induction false} ApplyAllCostsHalfSpreads(a: Account, orders: seq<Order>, quotes: map<string, Quote>)
    ensures var (b, fills) := ApplyAll(a, orders, quotes);
            Equity(b, quotes) == Equity(a, quotes) - TotalCost(fills, quotes)
    decreases |orders|
  {
    if orders != [] {
      var (b, fills) := ApplyAll(a, orders[..|orders| - 1], quotes);
      ApplyAllCostsHalfSpreads(a, orders[..|orders| - 1], quotes);
      ApplyCostsHalfSpread(b, orders[|orders| - 1], quotes);
      TotalCostConcat(fills, Apply(b, orders[|orders| - 1], quotes).1, quotes);
    }
  }

  // Whatever is ordered, and whatever the quotes are, a round changes equity by
  // exactly minus the half-spreads of its fills.
  lemma ExecuteCostsHalfSpreads(a: Account, orders: seq<Order>, quotes: map<string, Quote>)
    ensures var (b, fills) := Execute(a, orders, quotes);
            Equity(b, quotes) == Equity(a, quotes) - TotalCost(fills, quotes)
  {
    if |orders| <= MAX_ORDERS {
      ApplyAllCostsHalfSpreads(a, orders, quotes);
    } else {
      ApplyAllCostsHalfSpreads(a, orders[..MAX_ORDERS], quotes);
      var (_, fills) := ApplyAll(a, orders[..MAX_ORDERS], quotes);
      var more := Ignored(|orders| - MAX_ORDERS);
      TotalCostConcat(fills, [more], quotes);
      CostOfOne(more, quotes);
    }
  }

  // What an order may fill: no more than asked for and no more than there is,
  // a sell overshooting by less than the close-out limit.
  lemma FillsAreClamped(a: Account, o: Order, quotes: map<string, Quote>)
    ensures var fills := Apply(a, o, quotes).1;
            fills != [] ==> match fills[0]
              case Bought(s, usd) =>
                s == o.symbol && o.side == Buy && o.amount.Dollars? && s in quotes
                && !quotes[s].halted && quotes[s].ask > 0.0
                && MIN_ORDER <= usd <= o.amount.usd && usd <= a.cash && (usd == o.amount.usd || usd == a.cash)
              case Sold(s, n) =>
                s == o.symbol && o.side == Sell && o.amount.Dollars? && s in quotes && s in a.tokens
                && !quotes[s].halted && quotes[s].bid > 0.0
                && 0.0 < n <= a.tokens[s]
                && n * quotes[s].bid < o.amount.usd + CLOSE_OUT * quotes[s].bid
                && (n * quotes[s].bid >= o.amount.usd || n == a.tokens[s])
              case _ => true
  {
    var fills := Apply(a, o, quotes).1;
    if fills != [] && fills[0].Sold? {
      DustIsZero(o.amount.usd, quotes[o.symbol], Position(a.tokens, o.symbol));
      var want := o.amount.usd / quotes[o.symbol].bid;
      assert want * quotes[o.symbol].bid == o.amount.usd;
    }
  }

  // Which orders trade at all.
  lemma TradesExactlyWhen(a: Account, o: Order, quotes: map<string, Quote>)
    ensures TradeCount(Apply(a, o, quotes).1) == 1 <==>
      && o.symbol in quotes && !quotes[o.symbol].halted
      && o.amount.Dollars? && o.amount.usd >= MIN_ORDER
      && ( || (o.side == Buy && quotes[o.symbol].ask > 0.0 && a.cash >= MIN_ORDER)
           || (o.side == Sell && quotes[o.symbol].bid > 0.0 && Position(a.tokens, o.symbol) > DUST))
    ensures TradeCount(Apply(a, o, quotes).1) == 0 ==> Apply(a, o, quotes).0 == a
  {
    var fills := Apply(a, o, quotes).1;
    if fills != [] {
      assert fills[..0] == [];
    }
  }

  // ----- trading never creates equity, exactly when no quote is crossed

  // Nothing that can be sold is bid above its ask.
  ghost predicate Uncrossed(quotes: map<string, Quote>) {
    forall s :: s in quotes && !quotes[s].halted && quotes[s].bid > 0.0 ==> quotes[s].bid <= quotes[s].ask
  }

  ghost predicate NeverCreatesEquity(quotes: map<string, Quote>) {
    forall a: Account, orders: seq<Order> :: Equity(Execute(a, orders, quotes).0, quotes) <= Equity(a, quotes)
  }

  lemma SpreadCostSign(usd: real, q: Quote)
    requires usd >= 0.0 && q.ask > 0.0 && q.ask >= q.bid
    ensures usd * (q.ask - q.bid) / (2.0 * q.ask) >= 0.0
  {
    assert usd * (q.ask - q.bid) >= 0.0;
  }

  lemma FillNeverGains(f: Fill, quotes: map<string, Quote>)
    requires Uncrossed(quotes)
    requires f.Bought? ==> f.usd >= 0.0 && f.symbol in quotes && !quotes[f.symbol].halted && quotes[f.symbol].ask > 0.0
    requires f.Sold? ==> f.n >= 0.0 && f.symbol in quotes && !quotes[f.symbol].halted && quotes[f.symbol].bid > 0.0
    ensures SpreadCost(f, quotes) >= 0.0
  {
    if f.Bought? {
      SpreadCostSign(f.usd, quotes[f.symbol]);
    } else if f.Sold? {
      assert f.n * (quotes[f.symbol].ask - quotes[f.symbol].bid) >= 0.0;
    }
  }

  lemma ApplyNeverGains(a: Account, o: Order, quotes: map<string, Quote>)
    requires Uncrossed(quotes)
    ensures TotalCost(Apply(a, o, quotes).1, quotes) >= 0.0
  {
    var fills := Apply(a, o, quotes).1;
    ApplyCostsHalfSpread(a, o, quotes);
    if fills != [] {
      assert fills == [fills[0]];
      FillsAreClamped(a, o, quotes);
      FillNeverGains(fills[0], quotes);
      CostOfOne(fills[0], quotes);
    }
  }

  lemma {:induction false} ApplyAllNeverGains(a: Account, orders: seq<Order>, quotes: map<string, Quote>)
    requires Uncrossed(quotes)
    ensures TotalCost(ApplyAll(a, orders, quotes).1, quotes) >= 0.0
    decreases |orders|
  {
    if orders != [] {
      var (b, fills) := ApplyAll(a, orders[..|orders| - 1], quotes);
      ApplyAllNeverGains(a, orders[..|orders| - 1], quotes);
      ApplyNeverGains(b, orders[|orders| - 1], quotes);
      TotalCostConcat(fills, Apply(b, orders[|orders| - 1], quotes).1, quotes);
    }
  }

  // Selling at a crossed quote makes money out of nothing.
  lemma CrossedQuotePays(s: string, quotes: map<string, Quote>)
    requires s in quotes && !quotes[s].halted && quotes[s].bid > 0.0 && quotes[s].bid > quotes[s].ask
    ensures !NeverCreatesEquity(quotes)
  {
    var q := quotes[s];
    var a := Account(0.0, map[s := 1.0], 0);
    var o := Order(s, Sell, Dollars(1.0));
    var n := SellSize(1.0, q, 1.0);
    DustIsZero(1.0, q, 1.0);
    SellCostsHalfSpread(a, s, 1.0, quotes);
    var b := Account(a.cash + n * q.bid, Reduce(a.tokens, s, n), 1);
    assert Apply(a, o, quotes).0 == b;
    assert n * (q.ask - q.bid) < 0.0;
    assert Equity(b, quotes) > Equity(a, quotes);
    assert [o][..0] == [];
    assert ApplyAll(a, [], quotes) == (a, []);
    assert Execute(a, [o], quotes).0 == b;
  }

  lemma TradingNeverCreatesEquityExactly(quotes: map<string, Quote>)
    ensures NeverCreatesEquity(quotes) <==> Uncrossed(quotes)
  {
    if Uncrossed(quotes) {
      forall a: Account, orders: seq<Order>
        ensures Equity(Execute(a, orders, quotes).0, quotes) <= Equity(a, quotes)
      {
        var done := if |orders| <= MAX_ORDERS then orders else orders[..MAX_ORDERS];
        ApplyAllNeverGains(a, done, quotes);
        ApplyAllCostsHalfSpreads(a, done, quotes);
      }
    } else {
      var s :| s in quotes && !quotes[s].halted && quotes[s].bid > 0.0 && quotes[s].bid > quotes[s].ask;
      CrossedQuotePays(s, quotes);
    }
  }

  // ----- the ledger: cash and positions add up from the fills

  function CashFlow(fills: seq<Fill>, quotes: map<string, Quote>): real {
    Total(fills, CashIn(quotes))
  }

  function CashIn(quotes: map<string, Quote>): Fill -> real {
    (f: Fill) =>
      if f.Bought? then -f.usd
      else if f.Sold? && f.symbol in quotes then f.n * quotes[f.symbol].bid
      else 0.0
  }

  function TokenFlow(fills: seq<Fill>, quotes: map<string, Quote>, s: string): real {
    Total(fills, TokensIn(quotes, s))
  }

  function TokensIn(quotes: map<string, Quote>, s: string): Fill -> real {
    (f: Fill) =>
      if f.Bought? && f.symbol == s && s in quotes && quotes[s].ask != 0.0 then f.usd / quotes[s].ask
      else if f.Sold? && f.symbol == s then -f.n
      else 0.0
  }

  function TradeCount(fills: seq<Fill>): nat {
    if fills == [] then 0 else
      var f := fills[|fills| - 1];
      TradeCount(fills[..|fills| - 1]) + (if f.Bought? || f.Sold? then 1 else 0)
  }

  // Cash is never negative and every stored position is strictly positive.
  ghost predicate Solvent(a: Account) {
    a.cash >= 0.0 && forall s :: s in a.tokens ==> a.tokens[s] > 0.0
  }

  lemma ApplyKeepsSolvent(a: Account, o: Order, quotes: map<string, Quote>)
    requires Solvent(a)
    ensures Solvent(Apply(a, o, quotes).0)
  {
    var (b, fills) := Apply(a, o, quotes);
    if fills != [] && fills[0].Bought? {
      assert fills[0].usd / quotes[o.symbol].ask > 0.0;
    } else if fills != [] && fills[0].Sold? {
      DustIsZero(o.amount.usd, quotes[o.symbol], Position(a.tokens, o.symbol));
      assert fills[0].n * quotes[o.symbol].bid > 0.0;
    }
  }

  lemma ApplyKeepsLedger(a: Account, o: Order, quotes: map<string, Quote>, s: string)
    ensures var (b, fills) := Apply(a, o, quotes);
            && b.cash == a.cash + CashFlow(fills, quotes)
            && Position(b.tokens, s) == Position(a.tokens, s) + TokenFlow(fills, quotes, s)
            && b.trades == a.trades + TradeCount(fills)
  {
    var (b, fills) := Apply(a, o, quotes);
    if fills != [] {
      assert fills == [fills[0]] && fills[..0] == [];
      TotalOfOne(fills[0], CashIn(quotes));
      TotalOfOne(fills[0], TokensIn(quotes, s));
      if fills[0].Sold? {
        DustIsZero(o.amount.usd, quotes[o.symbol], Position(a.tokens, o.symbol));
      }
    }
  }

  lemma FlowsConcat(xs: seq<Fill>, ys: seq<Fill>, quotes: map<string, Quote>, s: string)
    ensures CashFlow(xs + ys, quotes) == CashFlow(xs, quotes) + CashFlow(ys, quotes)
    ensures TokenFlow(xs + ys, quotes, s) == TokenFlow(xs, quotes, s) + TokenFlow(ys, quotes, s)
    ensures TradeCount(xs + ys) == TradeCount(xs) + TradeCount(ys)
  {
    TotalConcat(xs, ys, CashIn(quotes));
    TotalConcat(xs, ys, TokensIn(quotes, s));
    TradeCountConcat(xs, ys);
  }

  lemma {:induction false} TradeCountConcat(xs: seq<Fill>, ys: seq<Fill>)
    ensures TradeCount(xs + ys) == TradeCount(xs) + TradeCount(ys)
    decreases |ys|
  {
    if ys == [] {
      assert xs + ys == xs;
    } else {
      TradeCountConcat(xs, ys[..|ys| - 1]);
      assert (xs + ys)[..|xs + ys| - 1] == xs + ys[..|ys| - 1];
    }
  }

  lemma {:induction false} ApplyAllKeepsBooks(a: Account, orders: seq<Order>, quotes: map<string, Quote>, s: string)
    ensures var (b, fills) := ApplyAll(a, orders, quotes);
            && (Solvent(a) ==> Solvent(b))
            && b.cash == a.cash + CashFlow(fills, quotes)
            && Position(b.tokens, s) == Position(a.tokens, s) + TokenFlow(fills, quotes, s)
            && b.trades == a.trades + TradeCount(fills)
            && TradeCount(fills) <= |orders|
    decreases |orders|
  {
    if orders != [] {
      var front, last := orders[..|orders| - 1], orders[|orders| - 1];
      var (b, fills) := ApplyAll(a, front, quotes);
      ApplyAllKeepsBooks(a, front, quotes, s);
      if Solvent(a) {
        ApplyKeepsSolvent(b, last, quotes);
      }
      ApplyKeepsLedger(b, last, quotes, s);
      ApplyCostsHalfSpread(b, last, quotes);
      FlowsConcat(fills, Apply(b, last, quotes).1, quotes, s);
    }
  }

  // A round keeps the account solvent, makes at most three trades, and its fills
  // account for every dollar and every token.
  lemma ExecuteKeepsBooks(a: Account, orders: seq<Order>, quotes: map<string, Quote>, s: string)
    ensures var (b, fills) := Execute(a, orders, quotes);
            && (Solvent(a) ==> Solvent(b))
            && b.cash == a.cash + CashFlow(fills, quotes)
            && Position(b.tokens, s) == Position(a.tokens, s) + TokenFlow(fills, quotes, s)
            && b.trades == a.trades + TradeCount(fills) <= a.trades + MAX_ORDERS
  {
    if |orders| <= MAX_ORDERS {
      ApplyAllKeepsBooks(a, orders, quotes, s);
    } else {
      ApplyAllKeepsBooks(a, orders[..MAX_ORDERS], quotes, s);
      var (_, fills) := ApplyAll(a, orders[..MAX_ORDERS], quotes);
      FlowsConcat(fills, [Ignored(|orders| - MAX_ORDERS)], quotes, s);
    }
  }

  // Any number of rounds, each with its own quotes.
  function Rounds(a: Account, rounds: seq<(seq<Order>, map<string, Quote>)>): Account {
    if rounds == [] then a else
      var last := rounds[|rounds| - 1];
      Execute(Rounds(a, rounds[..|rounds| - 1]), last.0, last.1).0
  }

  lemma {:induction false} RoundsKeepSolvent(a: Account, rounds: seq<(seq<Order>, map<string, Quote>)>)
    requires Solvent(a)
    ensures Solvent(Rounds(a, rounds)) && Rounds(a, rounds).trades <= a.trades + MAX_ORDERS * |rounds|
    decreases |rounds|
  {
    if rounds != [] {
      RoundsKeepSolvent(a, rounds[..|rounds| - 1]);
      var last := rounds[|rounds| - 1];
      ExecuteKeepsBooks(Rounds(a, rounds[..|rounds| - 1]), last.0, last.1, "");
    }
  }
}
