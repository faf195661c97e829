/** FactorialService: n! with arbitrary precision (Dafny's nat plays BigInteger),
    served from a table filled at construction for n <= smallMax and from a memo
    cache above it. */
module Factorial {
  import opened Wrappers

  /** The mathematical factorial the service promises. */
  function Fact(n: nat): nat
  {
    if n == 0 then 1 else n * Fact(n - 1)
  }

  /** IntStream.rangeClosed(lo, hi) reduced with multiply from ONE: 1 * lo * ... * hi,
      multiplied left to right; 1 when the range is empty. */
  function RangeProduct(lo: int, hi: int): int
    decreases hi - lo
  {
    if hi < lo then 1 else RangeProduct(lo, hi - 1) * hi
  }

  /** FactorialService.computeFactorial */
  function ComputeFactorial(n: int): int
  {
    RangeProduct(2, n)
  }

  /** computeFactorial(n) is n! for every n >= 0, and 1 for every n <= 1. */
  lemma {:induction false} ComputeFactorialIsFact(n: int)
    ensures n >= 0 ==> ComputeFactorial(n) == Fact(n)
    ensures n <= 1 ==> ComputeFactorial(n) == 1
  {
    if n >= 2 {
      ComputeFactorialIsFact(n - 1);
    }
  }

  lemma {:induction false} FactPositive(n: nat)
    ensures Fact(n) >= 1
  {
    if n > 0 {
      FactPositive(n - 1);
    }
  }

  /** Each factorial is the previous one times its argument. */
  lemma FactStep(i: nat, prev: nat)
    requires i >= 1 && prev == Fact(i - 1)
    ensures Fact(i) == prev * i
  {
  }

  /** Factorials grow strictly from 1! on. */
  lemma FactIncreasing(i: nat)
    requires i >= 2
    ensures Fact(i) > Fact(i - 1)
  {
    FactPositive(i - 1);
    assert Fact(i) == i * Fact(i - 1) >= 2 * Fact(i - 1);
  }

  class FactorialService {
    const smallMax: nat
    const precomputed: array<nat>
    var cache: map<int, nat>

    ghost predicate Valid()
      reads this, precomputed
    {
      && precomputed.Length == smallMax + 1
      && (forall i :: 0 <= i < precomputed.Length ==> precomputed[i] == Fact(i))
      && (forall k :: k in cache ==> k >= 0 && cache[k] == Fact(k))
    }

    /** The constructor fills precomputed[0..smallMax] one entry from the previous
        one, then puts 0 and, when the table has it, 1 into the cache. The cache is
        shared by every instance, so `priorCache` is what earlier instances left
        in it; every entry there is already a factorial. */
    constructor (smallMax: nat, priorCache: map<int, nat>)
      requires forall k :: k in priorCache ==> k >= 0 && priorCache[k] == Fact(k)
      ensures Valid() && this.smallMax == smallMax && fresh(precomputed)
      ensures cache == if smallMax >= 1 then priorCache[0 := 1][1 := 1] else priorCache[0 := 1]
    {
      var table := new nat[smallMax + 1];
      table[0] := 1;
      var i := 1;
      while i <= smallMax
        invariant 1 <= i <= smallMax + 1
        invariant forall j :: 0 <= j < i ==> table[j] == Fact(j)
      {
        var prev := table[i - 1];
        FactStep(i, prev);
        table[i] := prev * i;
        i := i + 1;
      }
      this.smallMax := smallMax;
      precomputed := table;
      var seeded := priorCache[0 := table[0]];
      if smallMax >= 1 {
        assert table[1] == Fact(1) == 1;
        seeded := seeded[1 := table[1]];
      }
      cache := seeded;
    }

    /** FactorialService.factorial: n! for n >= 0, an IllegalArgumentException for
        n < 0. Above smallMax the first call stores n! in the cache and later calls
        return the stored value. */
    method Factorial(n: int) returns (r: Result<nat>)
      requires Valid()
      modifies this
      ensures Valid()
      ensures n < 0 ==> r == Failure("Negative numbers are not supported")
      ensures n >= 0 ==> r == Success(Fact(n))
      ensures cache == if n <= smallMax || n in old(cache) then old(cache)
                       else old(cache)[n := Fact(n)]
    {
      if n < 0 {
        return Failure("Negative numbers are not supported");
      }
      if n <= smallMax {
        return Success(precomputed[n]);
      }
      if n in cache {
        return Success(cache[n]);
      }
      ComputeFactorialIsFact(n);
      var f := ComputeFactorial(n);
      cache := cache[n := f];
      return Success(f);
    }
  }
}
