/** Machine words: 64-bit jiffies arithmetic and the 32-bit wrapping atomic counter. */
module Words {
  const TWO31 := 0x8000_0000
  const TWO32 := 0x1_0000_0000
  const TWO64 := 0x1_0000_0000_0000_0000

  type u64 = x: int | 0 <= x < TWO64
  type i32 = x: int | -TWO31 <= x < TWO31

  /** The value of the kernel's `jiffies` when the true clock stands at `clock`. */
  function Jiffies(clock: nat): u64 {
    clock % TWO64
  }

  /** Unsigned 64-bit subtraction. */
  function Sub64(a: u64, b: u64): u64 {
    (a - b) % TWO64
  }

  /** `atomic_inc`: a 32-bit increment that wraps to the most negative value. */
  function Inc32(c: i32): i32 {
    if c == TWO31 - 1 then -TWO31 else c + 1
  }

  /** A 32-bit counter that started at zero and was incremented n times. */
  function Counter32(n: nat): i32 {
    var low := n % TWO32;
    if low < TWO31 then low else low - TWO32
  }

  lemma CounterStep(n: nat)
    ensures Counter32(0) == 0
    ensures Inc32(Counter32(n)) == Counter32(n + 1)
  {
    var low := n % TWO32;
    assert n == n / TWO32 * TWO32 + low;
    if low == TWO32 - 1 {
      assert n + 1 == (n / TWO32 + 1) * TWO32;
    } else {
      assert n + 1 == n / TWO32 * TWO32 + (low + 1);
    }
  }

  /** Subtracting wrapped clock readings gives the true age modulo 2^64. */
  lemma WrappedAge(now: nat, at: nat)
    requires at <= now
    ensures Sub64(Jiffies(now), Jiffies(at)) == (now - at) % TWO64
  {
    var a, b := now / TWO64, at / TWO64;
    var d := Jiffies(now) - Jiffies(at);
    assert now - at == (a - b) * TWO64 + d;
    if d >= 0 {
      assert (now - at) % TWO64 == d;
    } else {
      assert now - at == (a - b - 1) * TWO64 + (d + TWO64);
      assert d == (-1) * TWO64 + (d + TWO64);
    }
  }
}
