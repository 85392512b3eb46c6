/** What a token bucket gains over time, at a rate in tokens per second. */
module Rates {

  function Gain(rate: real, from: real, to: real): real {
    (to - from) * rate
  }

  lemma Product(x: real, y: real)
    requires x >= 0.0 && y >= 0.0
    ensures x * y >= 0.0
  {
  }

  /** The gain over a span is the sum of the gains over its parts. */
  lemma Gains(rate: real, from: real, mid: real, to: real)
    requires rate > 0.0 && from <= to
    ensures Gain(rate, from, to) == Gain(rate, from, mid) + Gain(rate, mid, to)
    ensures Gain(rate, from, to) >= 0.0 && Gain(rate, from, from) == 0.0
  {
    Product(to - from, rate);
  }
}
