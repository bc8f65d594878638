/**
 * `math/rand` as the quote wall uses it. The generator is a stream of
 * draws fixed in advance (`source(k)` is the k-th draw); `Intn(n)` maps the
 * next draw into [0, n). Since `source` is arbitrary, every sequence of
 * results `Intn` could return is some stream's, and nothing is claimed
 * about how the values are distributed.
 */
module Random {

  class Rng {
    /** The draws the generator will make, by position. */
    const source: nat -> nat
    /** How many draws have been consumed. */
    var calls: nat

    constructor(source: nat -> nat)
      ensures this.source == source && calls == 0
    {
      this.source := source;
      calls := 0;
    }

    /** The value the `k`-th draw gives for `rand.Intn(n)`. */
    static function Draw(source: nat -> nat, k: nat, n: int): (r: int)
      requires n > 0
      ensures 0 <= r < n
    {
      source(k) % n
    }

    /** `rand.Intn(n)`, which panics unless `n > 0`. */
    method Intn(n: int) returns (r: int)
      requires n > 0
      modifies this
      ensures r == Draw(source, old(calls), n)
      ensures calls == old(calls) + 1
    {
      r := Draw(source, calls, n);
      calls := calls + 1;
    }
  }
}
