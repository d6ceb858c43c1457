/**
 * The random number generator handed to the engine, as a source of
 * pre-chosen draws. Each call consumes the next draw; once the draws run out
 * every call yields the lowest value its range allows.
 */
module Random {

  class Rng {
    var draws: seq<nat>

    constructor (draws: seq<nat>)
      ensures this.draws == draws
    {
      this.draws := draws;
    }

    /** The draws left after consuming one. */
    function Rest(): seq<nat>
      reads this
    {
      if draws == [] then [] else draws[1..]
    }

    /** The `i`-th pending draw, zero past the end. */
    function At(i: nat): nat
      reads this
    {
      if i < |draws| then draws[i] else 0
    }

    method Next() returns (x: nat)
      modifies this
      ensures x == if old(draws) == [] then 0 else old(draws)[0]
      ensures draws == old(Rest())
    {
      if draws == [] {
        x := 0;
      } else {
        x := draws[0];
        draws := draws[1..];
      }
    }

    /** `usize(lo..hi)`: a value of the half-open range, which must not be empty. */
    method Usize(lo: nat, hi: nat) returns (x: nat)
      requires lo < hi
      modifies this
      ensures lo <= x < hi
      ensures x == lo + (if old(draws) == [] then 0 else old(draws)[0]) % (hi - lo)
      ensures draws == old(Rest())
    {
      var d := Next();
      x := lo + d % (hi - lo);
    }

    /** `f64() > f64()`: two draws compared. */
    method Coin() returns (b: bool)
      modifies this
      ensures b == (old(At(0)) > old(At(1)))
      ensures draws == if |old(draws)| >= 2 then old(draws)[2..] else []
    {
      var x := Next();
      var y := Next();
      b := x > y;
    }

    /** `shuffle`: for each position from the second on, swap it with a drawn position not after it. */
    method Shuffle<T>(s: seq<T>) returns (r: seq<T>)
      modifies this
      ensures |r| == |s| && multiset(r) == multiset(s)
    {
      r := s;
      var i := 1;
      while i < |r|
        invariant |r| == |s| && multiset(r) == multiset(s)
      {
        var j := Usize(0, i + 1);
        r := r[i := r[j]][j := r[i]];
        i := i + 1;
      }
    }
  }
}
