/** The specification of the per-tick broadcast: which connected sockets
    receive a `priceUpdate` and with which contents. */
module FanOut {
  import opened Catalog
  import opened Protocol

  /** The `updates` object built for one user: each subscribed ticker that
      has a price, with that price. */
  function PricesFor(subs: set<Ticker>, prices: map<Ticker, real>): map<Ticker, real> {
    map t | t in subs && t in prices :: prices[t]
  }

  /** The `histories` object built beside it, over the same tickers. */
  function HistoriesFor(subs: set<Ticker>, prices: map<Ticker, real>, history: map<Ticker, seq<real>>): map<Ticker, seq<real>>
    requires prices.Keys <= history.Keys
  {
    map t | t in subs && t in prices :: history[t]
  }

  /** The `priceUpdate` built for a user subscribed to `subs`. */
  function Payload(subs: set<Ticker>, prices: map<Ticker, real>, history: map<Ticker, seq<real>>): Message
    requires prices.Keys <= history.Keys
  {
    PriceUpdate(PricesFor(subs, prices), HistoriesFor(subs, prices, history))
  }

  /** What one connected socket is sent on a tick: nothing without a session
      or with no subscriptions, nothing when no subscribed ticker has a
      price, and otherwise one `priceUpdate`. */
  function Delivery(id: SocketId, users: map<SocketId, User>, prices: map<Ticker, real>, history: map<Ticker, seq<real>>): seq<Emission>
    requires prices.Keys <= history.Keys
  {
    if id in users && |users[id].subscriptions| > 0 then
      var msg := Payload(users[id].subscriptions, prices, history);
      if |msg.prices| > 0 then [Emission(id, msg)] else []
    else
      []
  }

  /** The emissions of one broadcast over the connected sockets `ids`, in order. */
  function Deliveries(ids: seq<SocketId>, users: map<SocketId, User>, prices: map<Ticker, real>, history: map<Ticker, seq<real>>): seq<Emission>
    requires prices.Keys <= history.Keys
    decreases |ids|
  {
    if ids == [] then []
    else Deliveries(ids[..|ids| - 1], users, prices, history) + Delivery(ids[|ids| - 1], users, prices, history)
  }

  /** The emissions of `out` that are not addressed to socket `x`. */
  function Except(out: seq<Emission>, x: SocketId): seq<Emission>
    decreases |out|
  {
    if out == [] then []
    else Except(out[..|out| - 1], x) + Kept(out[|out| - 1], x)
  }

  /** One emission as `Except` keeps it: dropped when addressed to `x`. */
  function Kept(e: Emission, x: SocketId): seq<Emission> {
    if e.socket == x then [] else [e]
  }

  /** `Except` keeps exactly the emissions not addressed to `x`. */
  lemma {:induction false} ExceptMembers(out: seq<Emission>, x: SocketId)
    ensures forall e :: e in Except(out, x) <==> e in out && e.socket != x
    decreases |out|
  {
    if out != [] {
      var init := out[..|out| - 1];
      ExceptMembers(init, x);
      assert out == init + [out[|out| - 1]];
    }
  }

  /** When every subscription is a priced ticker, the payload's keys are
      exactly the subscriptions, so a non-empty subscription set always
      yields a non-empty payload. */
  lemma PayloadKeysAreSubscriptions(subs: set<Ticker>, prices: map<Ticker, real>, history: map<Ticker, seq<real>>)
    requires prices.Keys <= history.Keys
    requires subs <= prices.Keys
    ensures var msg := Payload(subs, prices, history);
      && msg.prices.Keys == subs && msg.histories.Keys == subs
      && (|subs| > 0 ==> |msg.prices| > 0)
  {
    var msg := Payload(subs, prices, history);
    assert msg.prices.Keys == subs;
    assert |msg.prices| == |msg.prices.Keys|;
  }

  /** Every emission goes to a connected socket with a session and a
      non-empty subscription set, and carries exactly that user's payload,
      which is non-empty: no user is sent another user's tickers. */
  lemma {:induction false} DeliveriesSound(ids: seq<SocketId>, users: map<SocketId, User>, prices: map<Ticker, real>, history: map<Ticker, seq<real>>)
    requires prices.Keys <= history.Keys
    ensures forall e :: e in Deliveries(ids, users, prices, history) ==>
      && e.socket in ids && e.socket in users
      && |users[e.socket].subscriptions| > 0
      && e.message == Payload(users[e.socket].subscriptions, prices, history)
      && |e.message.prices| > 0
    decreases |ids|
  {
    if ids != [] {
      DeliveriesSound(ids[..|ids| - 1], users, prices, history);
    }
  }

  /** Every connected socket whose user has a subscribed, priced ticker is
      sent its payload. */
  lemma {:induction false} DeliveriesComplete(ids: seq<SocketId>, users: map<SocketId, User>, prices: map<Ticker, real>, history: map<Ticker, seq<real>>)
    requires prices.Keys <= history.Keys
    ensures forall id :: id in ids && id in users && |PricesFor(users[id].subscriptions, prices)| > 0 ==>
      Emission(id, Payload(users[id].subscriptions, prices, history)) in Deliveries(ids, users, prices, history)
    decreases |ids|
  {
    if ids != [] {
      var init := ids[..|ids| - 1];
      DeliveriesComplete(init, users, prices, history);
      forall id | id in ids && id in users && |PricesFor(users[id].subscriptions, prices)| > 0
        ensures Emission(id, Payload(users[id].subscriptions, prices, history)) in Deliveries(ids, users, prices, history)
      {
        if id != ids[|ids| - 1] {
          assert id in init;
        }
      }
    }
  }

  /** At most one `priceUpdate` per connected socket: a broadcast is never
      longer than the socket list and, over distinct sockets, never sends
      two messages to the same one. */
  lemma {:induction false} AtMostOnePerSocket(ids: seq<SocketId>, users: map<SocketId, User>, prices: map<Ticker, real>, history: map<Ticker, seq<real>>)
    requires prices.Keys <= history.Keys
    ensures |Deliveries(ids, users, prices, history)| <= |ids|
    ensures (forall i, j :: 0 <= i < j < |ids| ==> ids[i] != ids[j]) ==>
      var out := Deliveries(ids, users, prices, history);
      forall i, j :: 0 <= i < j < |out| ==> out[i].socket != out[j].socket
    decreases |ids|
  {
    if ids != [] {
      var init, last := ids[..|ids| - 1], ids[|ids| - 1];
      AtMostOnePerSocket(init, users, prices, history);
      if forall i, j :: 0 <= i < j < |ids| ==> ids[i] != ids[j] {
        var front := Deliveries(init, users, prices, history);
        DeliveriesSound(init, users, prices, history);
        assert forall e :: e in front ==> e.socket != last;
        var out := Deliveries(ids, users, prices, history);
        forall i, j | 0 <= i < j < |out| ensures out[i].socket != out[j].socket {
          if j >= |front| {
            assert out[i] in front;
          }
        }
      }
    }
  }

  /** When every session's subscriptions lie within the priced tickers, each
      connected, logged-in socket with a subscription receives exactly its
      subscriptions, and no other socket receives anything. */
  lemma SubscribersServedExactly(ids: seq<SocketId>, users: map<SocketId, User>, prices: map<Ticker, real>, history: map<Ticker, seq<real>>)
    requires prices.Keys <= history.Keys
    requires forall id :: id in users ==> users[id].subscriptions <= prices.Keys
    ensures forall id :: id in ids && id in users && |users[id].subscriptions| > 0 ==>
      exists e :: e in Deliveries(ids, users, prices, history) && e.socket == id
    ensures forall e :: e in Deliveries(ids, users, prices, history) ==>
      e.socket in users && e.message.PriceUpdate? && e.message.prices.Keys == users[e.socket].subscriptions
  {
    DeliveriesSound(ids, users, prices, history);
    DeliveriesComplete(ids, users, prices, history);
    forall id | id in ids && id in users && |users[id].subscriptions| > 0
      ensures exists e :: e in Deliveries(ids, users, prices, history) && e.socket == id
    {
      var subs := users[id].subscriptions;
      PayloadKeysAreSubscriptions(subs, prices, history);
      assert Emission(id, Payload(subs, prices, history)) in Deliveries(ids, users, prices, history);
    }
    forall e | e in Deliveries(ids, users, prices, history)
      ensures e.message.prices.Keys == users[e.socket].subscriptions
    {
      PayloadKeysAreSubscriptions(users[e.socket].subscriptions, prices, history);
    }
  }

  /** Appending one emission extends the filtered sequence by what `Kept` keeps of it. */
  lemma ExceptSnoc(s: seq<Emission>, e: Emission, x: SocketId)
    ensures Except(s + [e], x) == Except(s, x) + Kept(e, x)
  {
    assert (s + [e])[..|s|] == s;
  }

  /** Concatenation is associative (stated apart so that the proof below
      does not have to rediscover it among the unfoldings of `Except`). */
  lemma AppendAssoc(p: seq<Emission>, q: seq<Emission>, r: seq<Emission>)
    ensures (p + q) + r == p + (q + r)
  {
  }

  /** Filtering distributes over concatenation. */
  lemma {:induction false} ExceptAppend(a: seq<Emission>, b: seq<Emission>, x: SocketId)
    ensures Except(a + b, x) == Except(a, x) + Except(b, x)
    decreases |b|
  {
    if b == [] {
      assert a + b == a;
    } else {
      var init, last := b[..|b| - 1], b[|b| - 1];
      ExceptAppend(a, init, x);
      assert b == init + [last];
      AppendAssoc(a, init, [last]);
      ExceptSnoc(a + init, last, x);
      ExceptSnoc(init, last, x);
      AppendAssoc(Except(a, x), Except(init, x), Kept(last, x));
    }
  }

  /** Removing socket `x`'s session (a `disconnect` handled before a tick)
      only drops the messages to `x` from that tick's fan-out: every other
      socket receives exactly what it would have received. */
  lemma {:induction false} DisconnectBeforeFanOut(ids: seq<SocketId>, users: map<SocketId, User>, prices: map<Ticker, real>, history: map<Ticker, seq<real>>, x: SocketId)
    requires prices.Keys <= history.Keys
    ensures Deliveries(ids, users - {x}, prices, history) == Except(Deliveries(ids, users, prices, history), x)
    decreases |ids|
  {
    if ids != [] {
      var init, last := ids[..|ids| - 1], ids[|ids| - 1];
      DisconnectBeforeFanOut(init, users, prices, history, x);
      var d := Delivery(last, users, prices, history);
      assert Except(d, x) == Delivery(last, users - {x}, prices, history) by {
        if d != [] {
          assert d[..0] == [];
        }
      }
      ExceptAppend(Deliveries(init, users, prices, history), d, x);
    }
  }
}
