# Stock dashboard server — a Dafny model

The system is a small real-time stock dashboard back end (`server.js`). It
holds three pieces of in-memory state: the sessions of the connected sockets
(an e-mail and a set of subscribed tickers per socket id), the current price
of each of five supported stocks, and the last ten prices of each stock.

- At start-up every stock gets a random whole-number price in [100, 500)
  and a one-element history.
- Once a second a timer moves every price by a random amount in [-5, 5),
  floored at 0. It pushes the new price onto the stock's history, dropping
  the oldest entry once there are more than ten. It then sends each
  connected socket whose session has subscriptions one `priceUpdate` holding
  only the subscribed stocks.
- A socket's `login` event creates a fresh session with no subscriptions and
  answers `loginSuccess` with the catalog.
- `subscribe` adds a catalog ticker to a logged-in session and answers
  `subscribed`, then a `priceUpdate` for that ticker alone. Any other
  `subscribe` is ignored without a reply.
- `disconnect` deletes the session.

The model is in five modules:

- `Catalog` holds the supported tickers.
- `Protocol` holds socket ids, sessions and the outbound messages as a
  tagged datatype.
- `Simulator` holds the price arithmetic and the bounded history, as pure
  functions with lemmas. Among them, `Window` is an independent reference
  definition: the last ten entries of the full price trace.
- `FanOut` is the pure specification of one broadcast.
- `StockServer` holds the class `Server`. Its fields are the three maps
  (plus the catalog). Its methods are the initialisation loop, the tick
  (price loop, then broadcast loop) and the three socket handlers, all under
  the state invariant `Valid()`.

Each random draw `Math.random()` is a parameter `u` in [0, 1). The set of
connected sockets that socket.io owns is a sequence parameter of the
broadcast.

## Model

| member | source | states |
|---|---|---|
| `Catalog.CatalogDistinct` | server.js:11 | no ticker appears twice in the catalog, so each stock is visited once per loop |
| `Simulator.InitialPrice` | server.js:20 | a seed price is a whole number in [100, 500) |
| `Simulator.Change` | server.js:33 | a tick's perturbation lies in [-5, 5) |
| `Simulator.Clamp` | server.js:34 | the new price is `max(0, x)`: never negative, never below `x`, and equal to `x` or to 0 |
| `Simulator.Push` | server.js:37-40 | a push grows the history by one until it holds 10 prices and keeps its length after that; the last entry is the new price; the result is the newest suffix of the old history followed by the price |
| `Simulator.PushBounded` | server.js:40 | a history of at most 10 prices stays at most 10; a full one loses exactly its oldest price |
| `Simulator.PushWindow` | server.js:37-40 | pushing onto the 10-price window of a trace gives the window of the extended trace (FIFO eviction) |
| `Simulator.ReplayWindow` | server.js:30-41 | any number of ticks keeps the history equal to the window of the whole price trace |
| `Simulator.HistoryAfterTicks` | server.js:19-41 | after n ticks from the seed, the history holds the latest min(n+1, 10) prices in chronological order and ends with the current price |
| `FanOut.PayloadKeysAreSubscriptions` | server.js:47-56 | when every subscription is priced, the payload's price and history keys are exactly the subscriptions, so a non-empty subscription set gives a non-empty payload |
| `FanOut.DeliveriesSound` | server.js:44-58 | every broadcast message goes to a listed socket whose session has subscriptions; it carries that session's own non-empty payload |
| `FanOut.DeliveriesComplete` | server.js:44-58 | every listed socket whose session has a priced subscription is sent its payload |
| `FanOut.AtMostOnePerSocket` | server.js:44-58 | a broadcast has no more messages than sockets; over distinct sockets no socket gets two |
| `FanOut.SubscribersServedExactly` | server.js:44-58 | with subscriptions inside the priced stocks, exactly the logged-in sockets with subscriptions are sent a message, whose price keys are their subscriptions |
| `FanOut.DisconnectBeforeFanOut` | server.js:44-58 | deleting a socket's session before a fan-out removes exactly that socket's messages; everyone else's are unchanged |
| `StockServer.Server.constructor` | server.js:19-23 | start-up: the invariant holds, there are no sessions, and each stock's price is its seed price with history `[price]` |
| `StockServer.Server.SeedPrices` | server.js:19-23 | the initialisation loop prices exactly the catalog stocks, each with its drawn seed price and a one-element history |
| `StockServer.Server.AdvancePrices` | server.js:31-41 | the price step keeps the invariant and the sessions; each stock's price becomes `Clamp(old + Change(u))` and its history becomes `Push(old history, new price)` |
| `StockServer.Server.StepPrices` | server.js:31-41 | the price loop applies that update to every catalog stock, keeps the key sets, and leaves any entry outside the catalog unchanged |
| `StockServer.Server.StepStock` | server.js:32-40 | one stock's price and history are updated (a missing history counts as empty); no other stock changes |
| `StockServer.Server.CollectPayload` | server.js:47-54 | the `updates` and `histories` objects are the subscribed stocks that have a price, with their prices and histories |
| `StockServer.Server.Broadcast` | server.js:44-59 | the broadcast loop emits exactly the messages `FanOut.Deliveries` specifies, in socket order |
| `StockServer.Server.Tick` | server.js:30-60 | one timer tick: the price step, then a broadcast of the new prices; the invariant is kept; every listed socket whose session has subscriptions is sent a message, and each message's price keys are exactly its session's subscriptions |
| `StockServer.Server.Login` | server.js:66-69 | `login` replaces the socket's session with one that has the given e-mail and no subscriptions; other sessions and the prices are unchanged; the reply is `loginSuccess` with the catalog |
| `StockServer.Server.Subscribe` | server.js:72-82 | with a session and a catalog ticker, the ticker is added and the replies are `subscribed` then a `priceUpdate` for that ticker alone; otherwise nothing changes and nothing is sent; subscriptions stay inside the catalog |
| `StockServer.Server.Disconnect` | server.js:85-88 | exactly the caller's session is removed and nothing else changes; a second disconnect changes nothing, since removing an absent key is the identity |

## Left out

- The HTTP surface is not modelled because it is transport wiring, not
  core logic. This covers the Express app, the liveness route, static file
  serving, the port and `listen` (server.js:1-8, 25-27, 91-95).
- The `connection` event (server.js:62) is not modelled. The source creates
  no session on connect: a session exists only after `login`, and the model
  follows that.
- The `console.log` calls are left out because they are output only.
- `Math.random()` is replaced by parameters in [0, 1). The once-a-second
  timing of `setInterval` is left out: a tick is one call of `Tick`.
- Interleaving is modelled only as sequential method calls. The JavaScript
  event loop runs each handler to completion, so the handlers and the tick
  never overlap.
- Prices are JavaScript doubles in the source. The model uses exact reals,
  so floating-point rounding in `+` and `*` is not modelled.
- StockServer.Server.Broadcast: prices are sent as the stored reals. The
  source sends `toFixed(2)` strings and histories rounded through
  `parseFloat(p.toFixed(2))` (server.js:51-52), and that decimal
  formatting is not modelled.
- StockServer.Server.Subscribe: the immediate `priceUpdate` carries the
  unrounded price and history, for the same reason (server.js:78-79).
- The connected-socket collection `io.sockets.sockets` belongs to socket.io.
  It is the `sockets` parameter of `Broadcast` and `Tick`.
- The subscription `Set` is updated in place in the source. The model holds
  it as a value inside the session and replaces the session.
- The price history is a `seq` inside a map and is replaced on each push,
  rather than mutated in place.
- The FIFO-window property is stated about `Push` and the trace lemmas in
  `Simulator`. The server state does not also carry the full price trace.
- The key order of the `updates` and `histories` objects is not modelled.
  The source inserts keys in the iteration order of the subscription `Set`
  (server.js:49-54). The model's maps carry no order.
- The branch that recreates a missing history (server.js:38) is modelled in
  `StepStock`. Under `Valid()` it never runs.

## Notes on the source's behaviour

- A tick's perturbation is `(u - 0.5) * 10` for `u` in [0, 1), so it lies in
  [-5, 5), and +5 itself is never drawn. The comment at server.js:32 says
  "±1 to 5", but changes near 0 are also possible.
- `login` installs a fresh session for the socket without checking for an
  earlier one (server.js:67). "Logged in" and "has a session" are therefore
  the same thing.
