/** Bitwise AND on naturals, powers of two, and the modular arithmetic of a
    sliding window, as the ring's slot addressing needs them. */
module Bits {

  function Pow2(k: nat): (r: nat)
    ensures r >= 1
  {
    if k == 0 then 1 else 2 * Pow2(k - 1)
  }

  /** Bitwise AND of two unsigned numbers. */
  function And(a: nat, b: nat): (r: nat)
    ensures r <= b
  {
    if a == 0 || b == 0 then 0
    else 2 * And(a / 2, b / 2) + (if a % 2 == 1 && b % 2 == 1 then 1 else 0)
  }

  ghost predicate IsPow2(c: nat) {
    exists k: nat :: c == Pow2(k)
  }

  /** Halving a number modulo twice m keeps the remainder modulo m. */
  lemma HalveMod(x: nat, m: nat)
    requires m > 0
    ensures x % (2 * m) == 2 * ((x / 2) % m) + x % 2
  {
    var h := x / 2;
    var q, r := h / m, h % m;
    assert x == 2 * h + x % 2;
    assert h == q * m + r;
    assert x == q * (2 * m) + (2 * r + x % 2) by {
      assert 2 * (q * m) == q * (2 * m);
    }
    RemainderUnique(x, 2 * m, q, 2 * r + x % 2);
  }

  lemma RemainderUnique(x: int, m: int, q: int, r: int)
    requires m > 0 && 0 <= r < m && x == q * m + r
    ensures x % m == r && x / m == q
  {
    var q', r' := x / m, x % m;
    assert x == q' * m + r';
    assert (q - q') * m == r' - r by {
      assert (q - q') * m == q * m - q' * m;
    }
    if q > q' {
      assert (q - q') * m >= m by { MulAtLeast(q - q', m); }
    } else if q < q' {
      MulAtLeast(q' - q, m);
    }
  }

  lemma MulAtLeast(a: int, m: int)
    requires a >= 1 && m > 0
    ensures a * m >= m
  {
    assert a * m == (a - 1) * m + m;
    assert (a - 1) * m >= 0;
  }

  /** Masking with 2^k - 1 is the remainder modulo 2^k. */
  lemma {:induction false} MaskIsMod(x: nat, k: nat)
    ensures And(x, Pow2(k) - 1) == x % Pow2(k)
    decreases k, x
  {
    if k == 0 {
    } else if x == 0 {
    } else {
      var m := Pow2(k - 1);
      MaskIsMod(x / 2, k - 1);
      assert (2 * m - 1) / 2 == m - 1 && (2 * m - 1) % 2 == 1;
      HalveMod(x, m);
    }
  }

  /** The test in the ring's static assertion accepts exactly zero and the powers of two.
      (For zero, `Capacity - 1` wraps to all ones; And(0, b) is 0 for every b.) */
  lemma {:induction false} PowerOfTwoTest(c: nat)
    requires c > 0
    ensures And(c, c - 1) == 0 <==> IsPow2(c)
  {
    if c == 1 {
      assert c == Pow2(0);
    } else if c % 2 == 1 {
      assert (c - 1) / 2 == c / 2;
      AndSelf(c / 2);
      forall k: nat ensures c != Pow2(k) {
        assert k > 0 ==> Pow2(k) == 2 * Pow2(k - 1);
      }
    } else {
      var h := c / 2;
      assert (c - 1) / 2 == h - 1 && (c - 1) % 2 == 1;
      PowerOfTwoTest(h);
      if IsPow2(h) {
        var k: nat :| h == Pow2(k);
        assert c == Pow2(k + 1);
      }
      if IsPow2(c) {
        var k: nat :| c == Pow2(k);
        assert h == Pow2(k - 1);
      }
    }
  }

  lemma {:induction false} AndSelf(x: nat)
    ensures And(x, x) == x
  {
    if x > 0 { AndSelf(x / 2); }
  }

  lemma {:induction false} Pow2Monotone(j: nat, k: nat)
    requires j <= k
    ensures Pow2(j) <= Pow2(k)
  {
    if j < k { Pow2Monotone(j, k - 1); }
  }

  /** Two positions of one window of `cap` consecutive positions that share a slot are equal. */
  lemma WindowMod(p: int, q: int, lo: int, cap: int)
    requires cap > 0 && lo <= p < lo + cap && lo <= q < lo + cap && p % cap == q % cap
    ensures p == q
  {
    var a, b := p / cap, q / cap;
    assert p == a * cap + p % cap && q == b * cap + q % cap;
    assert p - q == (a - b) * cap by { assert (a - b) * cap == a * cap - b * cap; }
    if a > b {
      MulAtLeast(a - b, cap);
    } else if a < b {
      assert (b - a) * cap == -((a - b) * cap);
      MulAtLeast(b - a, cap);
    }
  }

  lemma AddCapMod(p: int, cap: int)
    requires cap > 0
    ensures (p + cap) % cap == p % cap
  {
    var a := p / cap;
    assert p + cap == (a + 1) * cap + p % cap by { assert (a + 1) * cap == a * cap + cap; }
    RemainderUnique(p + cap, cap, a + 1, p % cap);
  }

  /** The window position that uses the same slot as `pos`. */
  lemma WindowPosition(pos: int, lo: int, cap: int) returns (p: int)
    requires cap > 0
    ensures lo <= p < lo + cap && p % cap == pos % cap
    ensures pos < lo ==> pos + cap <= p
    ensures lo <= pos < lo + cap ==> p == pos
    ensures lo + cap <= pos ==> p + cap <= pos
  {
    var d := (pos - lo) % cap;
    var q := (pos - lo) / cap;
    p := lo + d;
    assert pos == q * cap + p;
    var a := p / cap;
    assert pos == (q + a) * cap + p % cap by { assert (q + a) * cap == q * cap + a * cap; }
    RemainderUnique(pos, cap, q + a, p % cap);
    if pos < lo {
      assert q < 0;
      MulAtLeast(-q, cap);
    } else if pos < lo + cap {
      WindowMod(p, pos, lo, cap);
    } else {
      assert q > 0;
      MulAtLeast(q, cap);
    }
  }

  /** Numbers less than `m` apart that agree modulo `m` are equal. */
  lemma CongruentClose(a: nat, b: nat, m: nat)
    requires m > 0 && a < b + m && b < a + m
    ensures a % m == b % m <==> a == b
  {
    if a % m == b % m {
      if a <= b { WindowMod(a, b, a, m); } else { WindowMod(a, b, b, m); }
    }
  }

  lemma ModTwice(x: nat, m: nat)
    requires m > 0
    ensures (x % (2 * m)) % m == x % m
  {
    var q, r := x / (2 * m), x % (2 * m);
    var a := r / m;
    assert x == (2 * q + a) * m + r % m by {
      assert (2 * q + a) * m == 2 * q * m + a * m;
      assert q * (2 * m) == 2 * q * m;
    }
    RemainderUnique(x, m, 2 * q + a, r % m);
  }

  /** 2^j divides 2^k for j <= k, so truncating to k bits does not change the low j bits. */
  lemma {:induction false} ModPow2Nested(x: nat, j: nat, k: nat)
    requires j <= k
    ensures (x % Pow2(k)) % Pow2(j) == x % Pow2(j)
    decreases k
  {
    if j == k {
      RemainderUnique(x % Pow2(k), Pow2(k), 0, x % Pow2(k));
    } else {
      var m, y := Pow2(k - 1), x % Pow2(k);
      ModPow2Nested(x, j, k - 1);
      ModPow2Nested(y, j, k - 1);
      assert y % m == x % m by { ModTwice(x, m); }
    }
  }
}
