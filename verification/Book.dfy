// The portfolio as the program keeps it: Execute and Equity as loops over
// orders and positions, proved against BookSpec.
module BookModel {
  import opened BookSpec
  import opened BookRound

  class Portfolio {
    var Cash: real
    var Tokens: map<string, real>
    var Trades: nat

    constructor (cash: real)
      ensures View() == Account(cash, map[], 0)
    {
      Cash, Tokens, Trades := cash, map[], 0;
    }

    ghost function View(): Account
      reads this
    {
      Account(Cash, Tokens, Trades)
    }

    method Execute(orders: seq<Order>, quotes: map<string, Quote>) returns (fills: seq<Fill>)
      modifies this
      ensures (View(), fills) == BookSpec.Execute(old(View()), orders, quotes)
      ensures RoundOf(old(View()), orders, quotes, View(), fills)
    {
      ExecuteIsRound(View(), orders, quotes);
      fills := [];
      var i := 0;
      while i < |orders|
        invariant 0 <= i <= |orders| && i <= MAX_ORDERS
        invariant (View(), fills) == ApplyAll(old(View()), orders[..i], quotes)
      {
        if i == MAX_ORDERS {
          fills := fills + [Ignored(|orders| - MAX_ORDERS)];
          return;
        }
        assert orders[..i + 1][..i] == orders[..i];
        var fill := ExecuteOne(orders[i], quotes);
        fills := fills + fill;
        i := i + 1;
      }
      assert orders[..i] == orders;
    }

    // The body of the loop over orders.
    method ExecuteOne(o: Order, quotes: map<string, Quote>) returns (fill: seq<Fill>)
      modifies this
      ensures (View(), fill) == Apply(old(View()), o, quotes)
      ensures Carries(old(View()), o, quotes, View(), fill)
    {
      ApplyCarries(View(), o, quotes);
      var sym := o.symbol;
      if sym !in quotes {
        return [Unfilled(sym, NotTradable)];
      }
      var q := quotes[sym];
      if q.halted {
        return [Unfilled(sym, Halted)];
      }
      if o.amount.NaN? || o.amount.usd < MIN_ORDER {
        return [];
      }
      match o.side {
        case Buy =>
          if q.ask <= 0.0 {
            return [Unfilled(sym, NoAsk)];
          }
          var usd := Min(o.amount.usd, Cash);
          if usd < MIN_ORDER {
            return [Unfilled(sym, NoCash)];
          }
          Cash := Cash - usd;
          Tokens := Tokens[sym := Position(Tokens, sym) + usd / q.ask];
          Trades := Trades + 1;
          return [Bought(sym, usd)];
        case Sell =>
          var held := Position(Tokens, sym);
          if held <= DUST || q.bid <= 0.0 {
            return [Unfilled(sym, NothingToSell)];
          }
          var n := Min(o.amount.usd / q.bid, held);
          if held - n < CLOSE_OUT {
            n := held;
          }
          assert n == SellSize(o.amount.usd, q, held);
          Tokens := Tokens[sym := held - n];
          if Tokens[sym] <= DUST {
            Tokens := Tokens - {sym};
          }
          Cash := Cash + n * q.bid;
          Trades := Trades + 1;
          assert Tokens == Reduce(old(Tokens), sym, n);
          assert View() == Apply(old(View()), o, quotes).0;
          return [Sold(sym, n)];
        case OtherSide(_) =>
          return [Unfilled(sym, UnknownSide)];
      }
    }

    // The positions are added up in any order.
    method Equity(quotes: map<string, Quote>) returns (e: real)
      ensures e == BookSpec.Equity(View(), quotes)
    {
      e := Cash;
      var rest := Tokens;
      while rest != map[]
        invariant e + Worth(rest, quotes) == BookSpec.Equity(View(), quotes)
        decreases |rest|
      {
        var sym: string :| sym in rest;
        WorthSplit(rest, quotes, sym);
        if sym in quotes {
          e := e + rest[sym] * Mid(quotes[sym]);
        }
        rest := rest - {sym};
      }
    }
  }
}
