/** The price arithmetic of one tick and the bounded price history kept per
    stock. Every random draw `u` stands for one result of `Math.random()`,
    a real in [0, 1). */
module Simulator {

  /** The number of prices a history keeps. */
  const MaxHistory: nat := 10

  /** The seed price `Math.floor(u * 400) + 100`: a whole number in [100, 500). */
  function InitialPrice(u: real): (p: int)
    requires 0.0 <= u < 1.0
    ensures 100 <= p < 500
  {
    (u * 400.0).Floor + 100
  }

  /** The perturbation `(u - 0.5) * 10` of one tick: a real in [-5, 5). */
  function Change(u: real): (c: real)
    requires 0.0 <= u < 1.0
    ensures -5.0 <= c < 5.0
  {
    (u - 0.5) * 10.0
  }

  /** `Math.max(0, x)`: the price floor. */
  function Clamp(x: real): (r: real)
    ensures r >= 0.0 && r >= x
    ensures r == x || r == 0.0
  {
    if x < 0.0 then 0.0 else x
  }

  /** Appends `p` to a history and, when that makes it longer than
      `MaxHistory`, evicts the oldest entry (`push` then `shift`). */
  function Push(h: seq<real>, p: real): (r: seq<real>)
    ensures |r| == if |h| < MaxHistory then |h| + 1 else |h|
    ensures r[|r| - 1] == p
    ensures r == (h + [p])[|h| + 1 - |r|..]
  {
    var grown := h + [p];
    if |grown| > MaxHistory then grown[1..] else grown
  }

  /** The reference definition of a history: the most recent
      min(|s|, MaxHistory) entries of the full price trace `s`, oldest first. */
  function Window(s: seq<real>): seq<real> {
    if |s| <= MaxHistory then s else s[|s| - MaxHistory..]
  }

  /** What the server keeps true of each stock: the price is not negative,
      and the history holds between 1 and `MaxHistory` prices and ends with
      the current price. */
  predicate Coherent(p: real, h: seq<real>) {
    p >= 0.0 && 1 <= |h| <= MaxHistory && h[|h| - 1] == p
  }

  /** The history after the prices `ps` have been pushed onto `h`, in order. */
  function Replay(h: seq<real>, ps: seq<real>): seq<real>
    decreases |ps|
  {
    if ps == [] then h else Push(Replay(h, ps[..|ps| - 1]), ps[|ps| - 1])
  }

  /** A history never grows past `MaxHistory`. */
  lemma PushBounded(h: seq<real>, p: real)
    requires |h| <= MaxHistory
    ensures |Push(h, p)| <= MaxHistory
    ensures |h| == MaxHistory ==> Push(h, p) == h[1..] + [p]
  {
  }

  /** Pushing a price onto the window of a trace gives the window of the
      extended trace: the ring buffer keeps exactly the latest prices. */
  lemma PushWindow(s: seq<real>, p: real)
    ensures Push(Window(s), p) == Window(s + [p])
  {
    if |s| >= MaxHistory {
      var w := Window(s);
      assert w == s[|s| - MaxHistory..];
      assert (w + [p])[1..] == (s + [p])[|s| + 1 - MaxHistory..];
    }
  }

  /** Replaying any number of ticks on a window keeps it the window of the
      whole trace. */
  lemma {:induction false} ReplayWindow(s: seq<real>, ps: seq<real>)
    ensures Replay(Window(s), ps) == Window(s + ps)
    decreases |ps|
  {
    if ps == [] {
      assert s + ps == s;
    } else {
      var init, last := ps[..|ps| - 1], ps[|ps| - 1];
      ReplayWindow(s, init);
      PushWindow(s + init, last);
      assert s + init + [last] == s + ps;
    }
  }

  /** Starting from the one-element history of initialisation, after the
      ticks that produced `ps` the history holds the latest
      min(|ps| + 1, MaxHistory) prices in chronological order, ending with
      the current one. */
  lemma HistoryAfterTicks(p0: real, ps: seq<real>)
    ensures var h := Replay([p0], ps);
      && |h| == (if |ps| < MaxHistory then |ps| + 1 else MaxHistory)
      && h == ([p0] + ps)[|ps| + 1 - |h|..]
      && h[|h| - 1] == (if ps == [] then p0 else ps[|ps| - 1])
  {
    ReplayWindow([p0], ps);
  }
}
