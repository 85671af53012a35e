/** Java's 32-bit two's-complement `int`, with the wrap-around of its `+` and `-`. */
module JavaInts {

  const MIN_VALUE: int := -0x8000_0000
  const MAX_VALUE: int := 0x7fff_ffff

  newtype int32 = x: int | -0x8000_0000 <= x < 0x8000_0000

  /** The `int` that Java arithmetic yields for the mathematical value `x`. */
  function Wrap(x: int): (r: int32)
    ensures (r as int - x) % 0x1_0000_0000 == 0
    ensures MIN_VALUE <= x <= MAX_VALUE ==> r as int == x
  {
    ((x + 0x8000_0000) % 0x1_0000_0000 - 0x8000_0000) as int32
  }

  /** Java `n + 1`. */
  function Inc(n: int32): (r: int32)
    ensures n as int < MAX_VALUE ==> r as int == n as int + 1
    ensures n as int == MAX_VALUE ==> r as int == MIN_VALUE
  {
    Wrap(n as int + 1)
  }

  /** Java `n - 1`. */
  function Dec(n: int32): (r: int32)
    ensures n as int > MIN_VALUE ==> r as int == n as int - 1
    ensures n as int == MIN_VALUE ==> r as int == MAX_VALUE
  {
    Wrap(n as int - 1)
  }

  /** Wrapping an intermediate result does not change the final wrapped value. */
  lemma WrapAdd(a: int, b: int)
    ensures Wrap(Wrap(a) as int + b) == Wrap(a + b)
  {
    var m := 0x1_0000_0000;
    var k := (Wrap(a) as int - a) / m;
    assert Wrap(a) as int == a + k * m;
    assert Wrap(a) as int + b + 0x8000_0000 == (a + b + 0x8000_0000) + k * m;
  }

  /** Multiplying a wrapped intermediate result gives the same wrapped value as not wrapping it. */
  lemma WrapMulAdd(c: int, a: int, b: int)
    ensures Wrap(c * Wrap(a) as int + b) == Wrap(c * a + b)
  {
    var m := 0x1_0000_0000;
    var k := (Wrap(a) as int - a) / m;
    assert Wrap(a) as int == a + k * m;
    assert c * Wrap(a) as int == c * a + (c * k) * m;
    assert c * Wrap(a) as int + b + 0x8000_0000 == (c * a + b + 0x8000_0000) + (c * k) * m;
  }

  /** `Inc` undoes `Dec` and the other way round, overflow included. */
  lemma IncDecInverse(n: int32)
    ensures Inc(Dec(n)) == n
    ensures Dec(Inc(n)) == n
  {
  }

  /** `k` successive Java `n + 1` steps. */
  function IncTimes(n: int32, k: nat): int32
    decreases k
  {
    if k == 0 then n else IncTimes(Inc(n), k - 1)
  }

  /** `k` successive Java `n - 1` steps. */
  function DecTimes(n: int32, k: nat): int32
    decreases k
  {
    if k == 0 then n else DecTimes(Dec(n), k - 1)
  }

  /** One more step up commutes with `k` steps up. */
  lemma {:induction false} IncTimesInc(n: int32, k: nat)
    ensures IncTimes(Inc(n), k) == Inc(IncTimes(n, k))
    decreases k
  {
    if k > 0 {
      IncTimesInc(Inc(n), k - 1);
    }
  }

  /** Stepping down `k` times and then up `k` times returns to the start. */
  lemma {:induction false} IncTimesDecTimes(n: int32, k: nat)
    ensures IncTimes(DecTimes(n, k), k) == n
    decreases k
  {
    if k > 0 {
      var d := DecTimes(Dec(n), k - 1);
      IncTimesDecTimes(Dec(n), k - 1);
      IncTimesInc(d, k - 1);
      IncDecInverse(n);
    }
  }
}
