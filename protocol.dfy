/** Identities, sessions and the messages the server sends to its clients. */
module Protocol {
  import opened Catalog

  /** The transport's identifier of one connected socket. */
  type SocketId = string

  /** A logged-in session: the e-mail given at login and the subscribed tickers. */
  datatype User = User(email: string, subscriptions: set<Ticker>)

  /** The outbound events of the server, with typed payloads. */
  datatype Message =
    | LoginSuccess(supportedStocks: seq<Ticker>)
    | Subscribed(ticker: Ticker)
    | PriceUpdate(prices: map<Ticker, real>, histories: map<Ticker, seq<real>>)

  /** One `socket.emit`: the message and the socket it is sent to. */
  datatype Emission = Emission(socket: SocketId, message: Message)
}
