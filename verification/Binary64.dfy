/** Integers as binary64 numbers (section 6 of RFC 8259): which are exact, and what the others become
    when a decimal literal is read as a float64 -- the nearest number, ties to even. */
module Binary64 {
  const SIGNIFICAND := 9007199254740992 // 2^53

  function Pow2(e: nat): (p: nat)
    ensures p > 0
  {
    if e == 0 then 1 else 2 * Pow2(e - 1)
  }

  // n == m * 2^e with a significand of 53 bits.
  ghost predicate Represents(n: int, m: int, e: nat) {
    -SIGNIFICAND < m < SIGNIFICAND && n == m * Pow2(e)
  }

  ghost predicate Exact(n: int) {
    exists m: int, e: nat :: Represents(n, m, e)
  }

  // The multiple of unit nearest to n, the even one of two.
  function Nearest(n: nat, unit: nat): nat
    requires unit > 0
  {
    var below, rest := n / unit, n % unit;
    if 2 * rest < unit || (2 * rest == unit && below % 2 == 0) then n - rest else n - rest + unit
  }

  // Rounding with the smallest unit that leaves 53 bits.
  function RoundAt(n: nat, unit: nat): nat
    requires unit > 0
    decreases n - unit
  {
    if n < SIGNIFICAND * unit then Nearest(n, unit) else RoundAt(n, 2 * unit)
  }

  function Round(n: int): int {
    if n < 0 then 0 - RoundAt(-n, 1) else RoundAt(n, 1)
  }

  lemma MulAssociative(a: int, b: int, c: int)
    ensures a * (b * c) == (a * b) * c
  {
  }

  lemma {:induction false} Pow2Sum(a: nat, b: nat)
    ensures Pow2(a + b) == Pow2(a) * Pow2(b)
  {
    if a > 0 {
      Pow2Sum(a - 1, b);
      assert Pow2(a + b) == 2 * Pow2(a - 1 + b);
      MulAssociative(2, Pow2(a - 1), Pow2(b));
    }
  }

  lemma {:induction false} Pow2Monotone(a: nat, b: nat)
    requires a <= b
    ensures Pow2(a) <= Pow2(b)
    decreases b - a
  {
    if a < b {
      Pow2Monotone(a, b - 1);
    }
  }

  lemma MulMonotone(a: int, b: int, c: int)
    requires a <= b && 0 <= c
    ensures a * c <= b * c
  {
  }

  lemma DivMod(n: nat, unit: nat)
    requires unit > 0
    ensures n == (n / unit) * unit + n % unit
  {
  }

  lemma MultipleHasNoRest(q: nat, unit: nat)
    requires unit > 0
    ensures (q * unit) % unit == 0
  {
    DivMod(q * unit, unit);
    var d, r := (q * unit) / unit, (q * unit) % unit;
    assert r == (q - d) * unit by {
      assert q * unit - d * unit == (q - d) * unit;
    }
    if q - d >= 1 {
      MulMonotone(1, q - d, unit);
      assert false;
    } else if q - d <= -1 {
      MulMonotone(q - d, -1, unit);
      assert false;
    }
  }

  // An exact number that needs this unit is a multiple of it.
  lemma ExactIsMultiple(n: nat, m: int, e: nat, k: nat)
    requires Represents(n, m, e) && (k > 0 ==> n >= SIGNIFICAND * Pow2(k - 1))
    ensures n % Pow2(k) == 0
  {
    if k > 0 {
      UnitDivides(n, m, e, k);
      Pow2Sum(e - k, k);
      MulAssociative(m, Pow2(e - k), Pow2(k));
      var q := m * Pow2(e - k);
      assert q >= 0 by {
        if q <= -1 { MulMonotone(q, -1, Pow2(k)); }
      }
      MultipleHasNoRest(q, Pow2(k));
    }
  }

  lemma UnitDivides(n: nat, m: int, e: nat, k: nat)
    requires Represents(n, m, e) && k > 0 && n >= SIGNIFICAND * Pow2(k - 1)
    ensures e >= k
  {
    if e <= k - 1 {
      Pow2Monotone(e, k - 1);
      MulMonotone(m, SIGNIFICAND - 1, Pow2(e));
    }
  }

  lemma MultipleIsExact(n: nat, k: nat)
    requires n % Pow2(k) == 0 && n < SIGNIFICAND * Pow2(k)
    ensures Exact(n)
  {
    var q := n / Pow2(k);
    DivMod(n, Pow2(k));
    if q >= SIGNIFICAND {
      MulMonotone(SIGNIFICAND, q, Pow2(k));
    }
    assert Represents(n, q, k);
  }

  lemma {:induction false} RoundAtExact(n: nat, k: nat)
    requires k > 0 ==> n >= SIGNIFICAND * Pow2(k - 1)
    ensures RoundAt(n, Pow2(k)) == n <==> Exact(n)
    decreases n - Pow2(k)
  {
    var unit := Pow2(k);
    if n < SIGNIFICAND * unit {
      assert Nearest(n, unit) == n <==> n % unit == 0;
      if Exact(n) {
        var m: int, e: nat :| Represents(n, m, e);
        ExactIsMultiple(n, m, e, k);
      }
      if n % unit == 0 {
        MultipleIsExact(n, k);
      }
    } else {
      assert Pow2(k + 1) == 2 * unit;
      RoundAtExact(n, k + 1);
    }
  }

  lemma NegationIsExact(n: int)
    requires Exact(n)
    ensures Exact(-n)
  {
    var m: int, e: nat :| Represents(n, m, e);
    assert Represents(-n, -m, e);
  }

  /** Reading an integer gives it back exactly when it has at most 53 significant bits. */
  lemma RoundsToItselfIffExact(n: int)
    ensures Round(n) == n <==> Exact(n)
  {
    if n < 0 {
      RoundAtExact(-n, 0);
      if Exact(n) { NegationIsExact(n); }
      if Exact(-n) { NegationIsExact(-n); }
    } else {
      RoundAtExact(n, 0);
    }
  }

  function Distance(a: int, b: int): nat { if a < b then b - a else a - b }

  lemma NearestMultiple(n: nat, unit: nat, q: int)
    requires unit > 0
    ensures Distance(Nearest(n, unit), n) <= Distance(q * unit, n)
  {
    var below, rest := n / unit, n % unit;
    DivMod(n, unit);
    if q <= below {
      MulMonotone(q, below, unit);
    } else {
      MulMonotone(below + 1, q, unit);
      assert (below + 1) * unit == below * unit + unit;
    }
  }

  lemma {:induction false} RoundAtNearest(n: nat, k: nat, x: nat)
    requires (k > 0 ==> n >= SIGNIFICAND * Pow2(k - 1)) && Exact(x)
    ensures Distance(RoundAt(n, Pow2(k)), n) <= Distance(x, n)
    decreases n - Pow2(k)
  {
    var unit := Pow2(k);
    if n >= SIGNIFICAND * unit {
      assert Pow2(k + 1) == 2 * unit;
      RoundAtNearest(n, k + 1, x);
    } else if k == 0 {
      NearestMultiple(n, unit, n);
    } else if x < SIGNIFICAND * Pow2(k - 1) {
      NearestMultiple(n, unit, SIGNIFICAND / 2);
    } else {
      var m: int, e: nat :| Represents(x, m, e);
      ExactIsMultiple(x, m, e, k);
      DivMod(x, unit);
      NearestMultiple(n, unit, x / unit);
    }
  }

  /** What is read is the nearest number there is. */
  lemma RoundIsNearest(n: int, x: int)
    requires Exact(x)
    ensures Distance(Round(n), n) <= Distance(x, n)
  {
    assert Exact(0) by { assert Represents(0, 0, 0); }
    if n < 0 {
      NegationIsExact(x);
      RoundAtNearest(-n, 0, if x < 0 then -x else 0);
    } else {
      RoundAtNearest(n, 0, if x > 0 then x else 0);
    }
  }

  // n has an even significand, and x is the next number on one side.
  ghost predicate EvenBeside(n: int, x: int, m: int, e: nat) {
    n == m * Pow2(e) && m % 2 == 0 && Distance(n, x) == Pow2(e)
  }

  lemma MultipleBetween(x: int, q: int, unit: nat)
    requires unit > 0 && q * unit < x < (q + 1) * unit
    ensures x % unit != 0
  {
    DivModInt(x, unit);
    var p := x / unit;
    if p <= q {
      MulMonotone(p, q, unit);
    } else {
      MulMonotone(q + 1, p, unit);
    }
  }

  lemma DivModInt(x: int, unit: nat)
    requires unit > 0
    ensures x == (x / unit) * unit + x % unit
  {
  }

  lemma {:induction false} RoundAtTie(n: nat, k: nat, x: nat) returns (m: int, e: nat)
    requires (k > 0 ==> n >= SIGNIFICAND * Pow2(k - 1)) && Exact(x)
    requires x != RoundAt(n, Pow2(k)) && Distance(x, n) == Distance(RoundAt(n, Pow2(k)), n)
    ensures EvenBeside(RoundAt(n, Pow2(k)), x, m, e)
    decreases n - Pow2(k)
  {
    var unit := Pow2(k);
    if n >= SIGNIFICAND * unit {
      assert Pow2(k + 1) == 2 * unit;
      m, e := RoundAtTie(n, k + 1, x);
    } else {
      var below, rest := n / unit, n % unit;
      DivMod(n, unit);
      assert (below + 1) * unit == below * unit + unit;
      if 2 * rest != unit {
        NoTie(n, k, x);
      }
      m, e := (if below % 2 == 0 then below else below + 1), k;
    }
  }

  lemma NoTie(n: nat, k: nat, x: nat)
    requires (k > 0 ==> n >= SIGNIFICAND * Pow2(k - 1)) && Exact(x) && n < SIGNIFICAND * Pow2(k)
    requires x != Nearest(n, Pow2(k)) && Distance(x, n) == Distance(Nearest(n, Pow2(k)), n)
    ensures 2 * (n % Pow2(k)) == Pow2(k)
  {
    var unit := Pow2(k);
    var below, rest := n / unit, n % unit;
    DivMod(n, unit);
    assert (below + 1) * unit == below * unit + unit;
    if k > 0 && 2 * rest != unit {
      assert unit == 2 * Pow2(k - 1);
      assert below >= SIGNIFICAND / 2 by {
        if below <= SIGNIFICAND / 2 - 1 { MulMonotone(below + 1, SIGNIFICAND / 2, unit); }
      }
      MulMonotone(SIGNIFICAND / 2, below, unit);
      var m: int, e: nat :| Represents(x, m, e);
      ExactIsMultiple(x, m, e, k);
      MultipleBetween(x, below, unit);
    }
  }

  lemma Mirrored(n: int, x: int, m: int, e: nat)
    requires EvenBeside(n, x, m, e)
    ensures EvenBeside(-n, -x, -m, e)
  {
    assert (-m) * Pow2(e) == -(m * Pow2(e));
  }

  lemma SameSide(n: nat, x: int)
    requires Exact(x) && Distance(x, n) == Distance(Round(n), n)
    ensures x >= 0
  {
    assert Exact(0) by { assert Represents(0, 0, 0); }
    RoundIsNearest(n, 0);
  }

  lemma TiesUpward(n: nat, x: int) returns (m: int, e: nat)
    requires Exact(x) && x != Round(n) && Distance(x, n) == Distance(Round(n), n)
    ensures EvenBeside(Round(n), x, m, e)
  {
    SameSide(n, x);
    assert Pow2(0) == 1;
    m, e := RoundAtTie(n, 0, x);
  }

  /** Of two that are equally near the even one is read. */
  lemma TiesToEven(n: int, x: int) returns (m: int, e: nat)
    requires Exact(x) && x != Round(n) && Distance(x, n) == Distance(Round(n), n)
    ensures EvenBeside(Round(n), x, m, e)
  {
    if n < 0 {
      NegationIsExact(x);
      m, e := TiesUpward(-n, -x);
      Mirrored(Round(-n), -x, m, e);
      m := -m;
    } else {
      m, e := TiesUpward(n, x);
    }
  }

  lemma {:induction false} RoundAtIsExact(n: nat, k: nat)
    ensures Exact(RoundAt(n, Pow2(k)))
    decreases n - Pow2(k)
  {
    var unit := Pow2(k);
    if n >= SIGNIFICAND * unit {
      assert Pow2(k + 1) == 2 * unit;
      RoundAtIsExact(n, k + 1);
    } else {
      var below := n / unit;
      DivMod(n, unit);
      assert (below + 1) * unit == below * unit + unit;
      var q := if Nearest(n, unit) == n - n % unit then below else below + 1;
      assert below < SIGNIFICAND by { if below >= SIGNIFICAND { MulMonotone(SIGNIFICAND, below, unit); } }
      if q < SIGNIFICAND {
        assert Represents(q * unit, q, k);
      } else {
        assert Pow2(k + 1) == 2 * unit;
        assert Represents(q * unit, SIGNIFICAND / 2, k + 1);
      }
    }
  }

  /** And what is read is such a number. */
  lemma RoundIsExact(n: int)
    ensures Exact(Round(n))
  {
    if n < 0 {
      RoundAtIsExact(-n, 0);
      NegationIsExact(RoundAt(-n, 1));
    } else {
      RoundAtIsExact(n, 0);
    }
  }

  /** In particular up to 2^53; the next integer is the first that changes. */
  lemma SmallIsExact(n: int)
    requires -SIGNIFICAND <= n <= SIGNIFICAND
    ensures Exact(n) && Round(n) == n
  {
    if n == SIGNIFICAND || n == -SIGNIFICAND {
      assert Pow2(1) == 2;
      assert Represents(n, n / 2, 1);
    } else {
      assert Represents(n, n, 0);
    }
    RoundsToItselfIffExact(n);
  }

  lemma FirstInexact()
    ensures Round(SIGNIFICAND + 1) == SIGNIFICAND && !Exact(SIGNIFICAND + 1)
  {
    assert RoundAt(SIGNIFICAND + 1, 1) == RoundAt(SIGNIFICAND + 1, 2) == SIGNIFICAND;
    RoundsToItselfIffExact(SIGNIFICAND + 1);
  }
}
