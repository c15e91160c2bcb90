// The trading book of internal/arena/book.go over exact arithmetic: one order,
// a round of orders, and equity marked at the mid.
module BookSpec {

  const MAX_ORDERS: nat := 3
  const MIN_ORDER: real := 1.0
  const DUST: real := 0.000000001
  const CLOSE_OUT: real := 0.000001

  datatype Quote = Quote(bid: real, ask: real, halted: bool)

  function Mid(q: Quote): real {
    (q.bid + q.ask) / 2.0
  }

  // Symbol and side as Execute normalises them.
  datatype Side = Buy | Sell | OtherSide(text: string)

  datatype Amount = NaN | Dollars(usd: real)

  datatype Order = Order(symbol: string, side: Side, amount: Amount)

  datatype Account = Account(cash: real, tokens: map<string, real>, trades: nat)

  datatype Reason = NotTradable | Halted | NoAsk | NoCash | NothingToSell | UnknownSide

  datatype Fill =
    | Bought(symbol: string, usd: real)
    | Sold(symbol: string, n: real)
    | Unfilled(symbol: string, why: Reason)
    | Ignored(count: nat)

  function Min(a: real, b: real): real {
    if a <= b then a else b
  }

  function Position(tokens: map<string, real>, symbol: string): real {
    if symbol in tokens then tokens[symbol] else 0.0
  }

  // How many tokens a sell of usd takes out of a position: a remainder below the
  // close-out limit goes along.
  function SellSize(usd: real, q: Quote, held: real): real
    requires q.bid > 0.0
  {
    var n := Min(usd / q.bid, held);
    if held - n < CLOSE_OUT then held else n
  }

  function Reduce(tokens: map<string, real>, symbol: string, n: real): map<string, real> {
    var left := Position(tokens, symbol) - n;
    if left <= DUST then tokens - {symbol} else tokens[symbol := left]
  }

  // One order: the account after it, and what is reported, if anything.
  function Apply(a: Account, o: Order, quotes: map<string, Quote>): (Account, seq<Fill>) {
    if o.symbol !in quotes then (a, [Unfilled(o.symbol, NotTradable)])
    else
      var q := quotes[o.symbol];
      if q.halted then (a, [Unfilled(o.symbol, Halted)])
      else if o.amount.NaN? || o.amount.usd < MIN_ORDER then (a, [])
      else match o.side
        case Buy =>
          if q.ask <= 0.0 then (a, [Unfilled(o.symbol, NoAsk)])
          else
            var usd := Min(o.amount.usd, a.cash);
            if usd < MIN_ORDER then (a, [Unfilled(o.symbol, NoCash)])
            else (Account(a.cash - usd, a.tokens[o.symbol := Position(a.tokens, o.symbol) + usd / q.ask], a.trades + 1),
                  [Bought(o.symbol, usd)])
        case Sell =>
          var held := Position(a.tokens, o.symbol);
          if held <= DUST || q.bid <= 0.0 then (a, [Unfilled(o.symbol, NothingToSell)])
          else
            var n := SellSize(o.amount.usd, q, held);
            (Account(a.cash + n * q.bid, Reduce(a.tokens, o.symbol, n), a.trades + 1), [Sold(o.symbol, n)])
        case OtherSide(_) => (a, [Unfilled(o.symbol, UnknownSide)])
  }

  function ApplyAll(a: Account, orders: seq<Order>, quotes: map<string, Quote>): (Account, seq<Fill>) {
    if orders == [] then (a, []) else
      var (b, fills) := ApplyAll(a, orders[..|orders| - 1], quotes);
      var (c, last) := Apply(b, orders[|orders| - 1], quotes);
      (c, fills + last)
  }

  // Orders past the third are only counted.
  function Execute(a: Account, orders: seq<Order>, quotes: map<string, Quote>): (Account, seq<Fill>) {
    if |orders| <= MAX_ORDERS then ApplyAll(a, orders, quotes) else
      var (b, fills) := ApplyAll(a, orders[..MAX_ORDERS], quotes);
      (b, fills + [Ignored(|orders| - MAX_ORDERS)])
  }

  // ----- equity

  function Marked(symbol: string, n: real, quotes: map<string, Quote>): real {
    if symbol in quotes then n * Mid(quotes[symbol]) else 0.0
  }

  // The positions' worth, added up in some order.
  ghost function Worth(tokens: map<string, real>, quotes: map<string, Quote>): real
    decreases |tokens|
  {
    if tokens == map[] then 0.0 else
      var s :| s in tokens;
      Marked(s, tokens[s], quotes) + Worth(tokens - {s}, quotes)
  }

  ghost function Equity(a: Account, quotes: map<string, Quote>): real {
    a.cash + Worth(a.tokens, quotes)
  }

  // The order does not matter: any position can be taken first.
  lemma {:induction false} WorthSplit(tokens: map<string, real>, quotes: map<string, Quote>, s: string)
    requires s in tokens
    ensures Worth(tokens, quotes) == Marked(s, tokens[s], quotes) + Worth(tokens - {s}, quotes)
    decreases |tokens|
  {
    var x :| x in tokens && Worth(tokens, quotes) == Marked(x, tokens[x], quotes) + Worth(tokens - {x}, quotes);
    if x != s {
      WorthSplit(tokens - {x}, quotes, s);
      WorthSplit(tokens - {s}, quotes, x);
      assert tokens - {x} - {s} == tokens - {s} - {x};
    }
  }
}
