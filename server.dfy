/** The server's in-memory state and the handlers that change it: the
    price tick, the broadcast to connected sockets, and the `login`,
    `subscribe` and `disconnect` events of one socket. */
module StockServer {
  import opened Catalog
  import opened Protocol
  import opened Simulator
  import FanOut

  /** Every session's subscriptions are listed stocks. */
  ghost predicate SubscriptionsWithin(users: map<SocketId, User>, stocks: set<Ticker>) {
    forall id :: id in users ==> users[id].subscriptions <= stocks
  }

  class Server {
    /** `SUPPORTED_STOCKS`, fixed at construction. */
    const catalog: seq<Ticker>
    /** The sessions, keyed by socket id. */
    var users: map<SocketId, User>
    /** The current price of each stock. */
    var stockPrices: map<Ticker, real>
    /** The latest prices of each stock, oldest first. */
    var stockHistory: map<Ticker, seq<real>>
    /** The state invariant: exactly the catalog stocks are priced and have
        a history, each stock's price and history are coherent, and every
        subscription names a catalog stock. */
    ghost predicate Valid()
      reads this
    {
      && Distinct(catalog)
      && stockPrices.Keys == stockHistory.Keys == Listed(catalog)
      && (forall t :: t in stockPrices ==> Coherent(stockPrices[t], stockHistory[t]))
      && SubscriptionsWithin(users, Listed(catalog))
    }

    /** Start-up: the catalog is `SupportedStocks`, there are no sessions,
        and each stock gets the seed price `InitialPrice(draws[k])` and a
        one-element history holding it. */
    constructor (draws: seq<real>)
      requires |draws| == |SupportedStocks|
      requires forall k :: 0 <= k < |draws| ==> 0.0 <= draws[k] < 1.0
      ensures Valid()
      ensures catalog == SupportedStocks
      ensures users == map[]
      ensures forall k :: 0 <= k < |catalog| ==>
        var p := InitialPrice(draws[k]) as real;
        stockPrices[catalog[k]] == p && stockHistory[catalog[k]] == [p]
    {
      catalog := SupportedStocks;
      users := map[];
      stockPrices := map[];
      stockHistory := map[];
      new;
      CatalogDistinct();
      SeedPrices(draws);
    }

    /** The initialisation loop: each catalog stock, in order, gets the seed
        price drawn from `draws[k]` and a one-element history holding it;
        exactly the catalog stocks end up priced. */
    method SeedPrices(draws: seq<real>)
      requires Distinct(catalog)
      requires |draws| == |catalog|
      requires forall k :: 0 <= k < |draws| ==> 0.0 <= draws[k] < 1.0
      requires stockPrices == map[] && stockHistory == map[]
      modifies this
      ensures users == old(users)
      ensures stockPrices.Keys == stockHistory.Keys == Listed(catalog)
      ensures forall k :: 0 <= k < |catalog| ==>
        var p := InitialPrice(draws[k]) as real;
        stockPrices[catalog[k]] == p && stockHistory[catalog[k]] == [p]
    {
      var k := 0;
      while k < |catalog|
        invariant 0 <= k <= |catalog|
        invariant users == old(users)
        invariant stockPrices.Keys == stockHistory.Keys
        invariant forall t :: t in stockPrices ==> t in catalog
        invariant forall j :: 0 <= j < k ==>
          var p := InitialPrice(draws[j]) as real;
          && catalog[j] in stockPrices && catalog[j] in stockHistory
          && stockPrices[catalog[j]] == p && stockHistory[catalog[j]] == [p]
      {
        var stock := catalog[k];
        var initialPrice := InitialPrice(draws[k]) as real;
        ghost var prices, histories := stockPrices, stockHistory;
        stockPrices := stockPrices[stock := initialPrice];
        stockHistory := stockHistory[stock := [initialPrice]];
        forall j | 0 <= j < k
          ensures catalog[j] in prices && catalog[j] in histories
          ensures stockPrices[catalog[j]] == prices[catalog[j]] && stockHistory[catalog[j]] == histories[catalog[j]]
        {
          assert catalog[j] != stock;
        }
        k := k + 1;
      }
      assert Listed(catalog) <= stockPrices.Keys by {
        forall t | t in Listed(catalog) ensures t in stockPrices {
          var j :| 0 <= j < |catalog| && catalog[j] == t;
          assert catalog[j] in stockPrices;
        }
      }
    }

    /** The price step of one tick: each stock, in catalog order, moves by
        `Change(draws[k])`, floored at 0, and the new price is pushed onto
        its history; the state invariant is kept. */
    method AdvancePrices(draws: seq<real>)
      requires Valid()
      requires |draws| == |catalog|
      requires forall k :: 0 <= k < |draws| ==> 0.0 <= draws[k] < 1.0
      modifies this
      ensures Valid()
      ensures users == old(users)
      ensures forall k :: 0 <= k < |catalog| ==>
        var t := catalog[k];
        && stockPrices[t] == Clamp(old(stockPrices)[t] + Change(draws[k]))
        && stockHistory[t] == Push(old(stockHistory)[t], stockPrices[t])
    {
      StepPrices(draws);
    }

    /** The loop of the price step, over the catalog in order: every catalog
        stock is stepped and nothing outside the catalog changes. */
    method StepPrices(draws: seq<real>)
      requires Distinct(catalog)
      requires forall k :: 0 <= k < |catalog| ==> catalog[k] in stockPrices && catalog[k] in stockHistory
      requires |draws| == |catalog|
      requires forall k :: 0 <= k < |draws| ==> 0.0 <= draws[k] < 1.0
      modifies this
      ensures users == old(users)
      ensures stockPrices.Keys == old(stockPrices).Keys && stockHistory.Keys == old(stockHistory).Keys
      ensures forall k :: 0 <= k < |catalog| ==>
        var t := catalog[k];
        && stockPrices[t] == Clamp(old(stockPrices)[t] + Change(draws[k]))
        && stockHistory[t] == Push(old(stockHistory)[t], stockPrices[t])
      ensures forall t :: t in stockPrices && t !in catalog ==> stockPrices[t] == old(stockPrices)[t]
      ensures forall t :: t in stockHistory && t !in catalog ==> stockHistory[t] == old(stockHistory)[t]
    {
      var k := 0;
      while k < |catalog|
        invariant 0 <= k <= |catalog|
        invariant users == old(users)
        invariant stockPrices.Keys == old(stockPrices).Keys && stockHistory.Keys == old(stockHistory).Keys
        invariant forall j :: 0 <= j < k ==>
          var t := catalog[j];
          && stockPrices[t] == Clamp(old(stockPrices)[t] + Change(draws[j]))
          && stockHistory[t] == Push(old(stockHistory)[t], stockPrices[t])
        invariant forall j :: k <= j < |catalog| ==>
          var t := catalog[j];
          stockPrices[t] == old(stockPrices)[t] && stockHistory[t] == old(stockHistory)[t]
        invariant forall t :: t in stockPrices && t !in catalog ==> stockPrices[t] == old(stockPrices)[t]
        invariant forall t :: t in stockHistory && t !in catalog ==> stockHistory[t] == old(stockHistory)[t]
      {
        var stock := catalog[k];
        ghost var prices, histories := stockPrices, stockHistory;
        StepStock(stock, draws[k]);
        forall j | 0 <= j < |catalog| && j != k
          ensures stockPrices[catalog[j]] == prices[catalog[j]] && stockHistory[catalog[j]] == histories[catalog[j]]
        {
          assert catalog[j] != stock;
        }
        forall t | t !in catalog
          ensures t in stockPrices ==> stockPrices[t] == prices[t]
          ensures t in stockHistory ==> stockHistory[t] == histories[t]
        {
          assert t != stock;
        }
        k := k + 1;
      }
    }

    /** The price step of one stock: its price moves by `Change(u)`, floored
        at 0, and the new price is pushed onto its history (a missing
        history counts as empty); no other stock changes. */
    method StepStock(stock: Ticker, u: real)
      requires stock in stockPrices
      requires 0.0 <= u < 1.0
      modifies this
      ensures users == old(users)
      ensures var p := Clamp(old(stockPrices)[stock] + Change(u));
        && stockPrices == old(stockPrices)[stock := p]
        && stockHistory == old(stockHistory)[stock := Push(if stock in old(stockHistory) then old(stockHistory)[stock] else [], p)]
    {
      var newPrice := Clamp(stockPrices[stock] + Change(u));
      var history := if stock in stockHistory then stockHistory[stock] else [];
      stockPrices := stockPrices[stock := newPrice];
      stockHistory := stockHistory[stock := Push(history, newPrice)];
    }

    /** The `updates` and `histories` objects for a user subscribed to
        `subs`, built one subscription at a time. */
    method CollectPayload(subs: set<Ticker>) returns (updates: map<Ticker, real>, histories: map<Ticker, seq<real>>)
      requires stockPrices.Keys <= stockHistory.Keys
      ensures updates == FanOut.PricesFor(subs, stockPrices)
      ensures histories == FanOut.HistoriesFor(subs, stockPrices, stockHistory)
    {
      updates, histories := map[], map[];
      var rest := subs;
      while rest != {}
        invariant rest <= subs
        invariant updates == FanOut.PricesFor(subs - rest, stockPrices)
        invariant histories == FanOut.HistoriesFor(subs - rest, stockPrices, stockHistory)
        decreases |rest|
      {
        var stock :| stock in rest;
        if stock in stockPrices {
          updates := updates[stock := stockPrices[stock]];
          histories := histories[stock := stockHistory[stock]];
        }
        rest := rest - {stock};
      }
    }

    /** The broadcast step of one tick over the connected sockets `sockets`,
        in their order: exactly the emissions `FanOut.Deliveries` specifies. */
    method Broadcast(sockets: seq<SocketId>) returns (out: seq<Emission>)
      requires stockPrices.Keys <= stockHistory.Keys
      ensures out == FanOut.Deliveries(sockets, users, stockPrices, stockHistory)
    {
      out := [];
      var i := 0;
      while i < |sockets|
        invariant 0 <= i <= |sockets|
        invariant out == FanOut.Deliveries(sockets[..i], users, stockPrices, stockHistory)
      {
        var id := sockets[i];
        assert sockets[..i + 1][..i] == sockets[..i];
        if id in users && |users[id].subscriptions| > 0 {
          var updates, histories := CollectPayload(users[id].subscriptions);
          if |updates| > 0 {
            out := out + [Emission(id, PriceUpdate(updates, histories))];
          }
        }
        i := i + 1;
      }
      assert sockets[..i] == sockets;
    }

    /** One timer tick: advance every price, then broadcast to `sockets`.
        Since every subscription is a priced stock, each listed socket with
        a subscribed session is served, with exactly its subscriptions. */
    method Tick(draws: seq<real>, sockets: seq<SocketId>) returns (out: seq<Emission>)
      requires Valid()
      requires |draws| == |catalog|
      requires forall k :: 0 <= k < |draws| ==> 0.0 <= draws[k] < 1.0
      modifies this
      ensures Valid()
      ensures users == old(users)
      ensures forall k :: 0 <= k < |catalog| ==>
        var t := catalog[k];
        && stockPrices[t] == Clamp(old(stockPrices)[t] + Change(draws[k]))
        && stockHistory[t] == Push(old(stockHistory)[t], stockPrices[t])
      ensures out == FanOut.Deliveries(sockets, users, stockPrices, stockHistory)
      ensures forall id :: id in sockets && id in users && |users[id].subscriptions| > 0 ==>
        exists e :: e in out && e.socket == id
      ensures forall e :: e in out ==>
        e.socket in users && e.message.PriceUpdate? && e.message.prices.Keys == users[e.socket].subscriptions
    {
      AdvancePrices(draws);
      out := Broadcast(sockets);
      FanOut.SubscribersServedExactly(sockets, users, stockPrices, stockHistory);
    }

    /** `login`: the socket's session becomes a fresh one with no
        subscriptions, replacing any earlier one, and the catalog is sent
        back. */
    method Login(id: SocketId, email: string) returns (out: seq<Emission>)
      requires Valid()
      modifies this
      ensures Valid()
      ensures users == old(users)[id := User(email, {})]
      ensures stockPrices == old(stockPrices) && stockHistory == old(stockHistory)
      ensures out == [Emission(id, LoginSuccess(catalog))]
    {
      users := users[id := User(email, {})];
      out := [Emission(id, LoginSuccess(catalog))];
    }

    /** `subscribe`: only a logged-in socket naming a catalog stock adds it to
        its subscriptions and is sent `subscribed` and then that stock's
        current price and history; any other request changes nothing and
        sends nothing. */
    method Subscribe(id: SocketId, ticker: Ticker) returns (out: seq<Emission>)
      requires Valid()
      modifies this
      ensures Valid()
      ensures stockPrices == old(stockPrices) && stockHistory == old(stockHistory)
      ensures !(id in old(users) && ticker in catalog) ==> users == old(users) && out == []
      ensures id in old(users) && ticker in catalog ==>
        var u := old(users)[id];
        && users == old(users)[id := u.(subscriptions := u.subscriptions + {ticker})]
        && out == [Emission(id, Subscribed(ticker)),
                   Emission(id, PriceUpdate(map[ticker := stockPrices[ticker]], map[ticker := stockHistory[ticker]]))]
    {
      if id in users && ticker in catalog {
        var user := users[id];
        users := users[id := user.(subscriptions := user.subscriptions + {ticker})];
        out := [Emission(id, Subscribed(ticker)),
                Emission(id, PriceUpdate(map[ticker := stockPrices[ticker]], map[ticker := stockHistory[ticker]]))];
      } else {
        out := [];
      }
    }

    /** `disconnect`: the socket's session, if any, is deleted; nothing else
        changes. */
    method Disconnect(id: SocketId)
      requires Valid()
      modifies this
      ensures Valid()
      ensures users == old(users) - {id}
      ensures stockPrices == old(stockPrices) && stockHistory == old(stockHistory)
    {
      users := users - {id};
    }
  }
}
