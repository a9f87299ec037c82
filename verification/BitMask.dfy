/** Masking with a power of two minus one, on unsigned numbers. */
module BitMask {

  function And(a: nat, b: nat): nat {
    if a == 0 || b == 0 then 0 else
      2 * And(a / 2, b / 2) + if a % 2 == 1 && b % 2 == 1 then 1 else 0
  }

  predicate PowerOfTwo(n: nat) {
    n == 1 || (n > 1 && n % 2 == 0 && PowerOfTwo(n / 2))
  }

  lemma {:induction false} AndItself(a: nat)
    ensures And(a, a) == a
  {
    if a == 0 {
    } else {
      AndItself(a / 2);
    }
  }

  /** The usual test, `(n - 1) & n == 0`, finds the powers of two. */
  lemma {:induction false} TestFindsPowers(n: nat)
    requires n > 0
    ensures And(n - 1, n) == 0 <==> PowerOfTwo(n)
  {
    if n % 2 == 0 {
      TestFindsPowers(n / 2);
      assert (n - 1) / 2 == n / 2 - 1;
    } else if n > 1 {
      AndItself(n / 2);
      assert (n - 1) / 2 == n / 2;
    }
  }

  /** `r` is the remainder if it is in range and differs from `x` by a multiple. */
  lemma ModUnique(x: int, n: int, q: int, r: int)
    requires n > 0 && x == n * q + r && 0 <= r < n
    ensures x % n == r
  {
    var q', r' := x / n, x % n;
    assert x == n * q' + r';
    assert n * (q - q') == n * q - n * q';
    OnlyZeroFits(n, q - q');
  }

  lemma OnlyZeroFits(n: int, d: int)
    requires -n < n * d < n
    ensures d == 0
  {
    assert n * d == -(n * -d);
    if d > 0 {
      Times(n, d);
    } else if d < 0 {
      Times(n, -d);
    }
  }

  lemma {:induction false} Times(n: nat, d: nat)
    requires d > 0
    ensures n * d >= n
  {
    if d == 1 {
    } else {
      Times(n, d - 1);
      assert n * d == n * (d - 1) + n;
    }
  }

  /** Masking with `2 * h - 1` keeps the last bit and masks the rest with `h - 1`. */
  lemma AndStep(x: nat, h: nat)
    requires h > 0
    ensures And(x, 2 * h - 1) == 2 * And(x / 2, h - 1) + x % 2
  {
    var m := 2 * h - 1;
    assert m / 2 == h - 1 && m % 2 == 1;
  }

  lemma ModStep(x: nat, h: nat)
    requires h > 0
    ensures x % (2 * h) == 2 * (x / 2 % h) + x % 2
  {
    var y := x / 2;
    var q, r := y / h, y % h;
    assert y == h * q + r;
    assert (2 * h) * q == 2 * (h * q);
    ModUnique(x, 2 * h, q, 2 * r + x % 2);
  }

  /** Masking is taking the remainder. */
  lemma {:induction false} MaskIsMod(x: nat, n: nat)
    requires PowerOfTwo(n)
    ensures And(x, n - 1) == x % n
  {
    if n == 1 {
    } else {
      hide And;
      var h := n / 2;
      MaskIsMod(x / 2, h);
      AndStep(x, h);
      ModStep(x, h);
    }
  }

  lemma {:induction false} SmallerDivides(m: nat, n: nat) returns (q: nat)
    requires PowerOfTwo(m) && PowerOfTwo(n) && n <= m
    ensures m == n * q
  {
    if n == 1 {
      q := m;
    } else {
      q := SmallerDivides(m / 2, n / 2);
    }
  }

  /** Counters that wrap at a multiple of `n` keep their remainders. */
  lemma ModOfMod(x: nat, m: nat, n: nat, q: nat)
    requires n > 0 && m == n * q && m > 0
    ensures (x % m) % n == x % n
  {
    var k, r := x / m, x % m;
    assert x == n * (q * k + r / n) + r % n by {
      assert x == n * q * k + r && r == n * (r / n) + r % n;
    }
    ModUnique(x, n, q * k + r / n, r % n);
  }

  lemma ModDiffers(a: nat, b: nat, n: nat)
    requires a < b < a + n
    ensures a % n != b % n
  {
    var k, l := a / n, b / n;
    assert a == n * k + a % n && b == n * l + b % n;
    assert n * (l - k) == n * l - n * k;
    if a % n == b % n {
      OnlyZeroFits(n, l - k);
      assert false;
    }
  }
}
