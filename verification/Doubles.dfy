/** Natural numbers as JavaScript has them: IEEE 754 doubles, exact up to 2 to the 53, rounded to nearest even
    beyond. */
module Doubles {
  import opened Wrappers

  const EXACT := 0x20_0000_0000_0000
  const HALF := 0x10_0000_0000_0000

  /** The distance between neighbouring doubles at x. */
  function Ulp(x: nat): (u: nat)
    ensures u >= 1
  {
    if x < EXACT then 1 else 2 * Ulp(x / 2)
  }

  predicate IsDouble(x: nat) { x % Ulp(x) == 0 }

  /** Ties go to the neighbour with an even significand. */
  function Round(x: nat): nat {
    var u := Ulp(x);
    var q, r := x / u, x % u;
    if 2 * r < u || (2 * r == u && q % 2 == 0) then q * u else (q + 1) * u
  }

  /** x + 1 for a double x */
  function Increment(x: nat): nat { Round(x + 1) }

  lemma {:induction false} UlpBounds(x: nat)
    ensures x < EXACT * Ulp(x)
    ensures Ulp(x) > 1 ==> HALF * Ulp(x) <= x && Ulp(x) % 2 == 0
    ensures Ulp(x) > 1 <==> x >= EXACT
  {
    if x < EXACT {
    } else {
      UlpBounds(x / 2);
    }
  }

  /** Two numbers of one binade are equally far from their neighbours. */
  lemma {:induction false} SameBinade(x: nat, y: nat)
    requires x >= EXACT && HALF * Ulp(x) <= y < EXACT * Ulp(x)
    ensures Ulp(y) == Ulp(x)
  {
    if x / 2 < EXACT {
    } else {
      UlpBounds(x / 2);
      SameBinade(x / 2, y / 2);
    }
  }

  lemma {:induction false} NextBinade(x: nat, y: nat)
    requires y == EXACT * Ulp(x)
    ensures Ulp(y) == 2 * Ulp(x)
  {
    if x < EXACT {
      assert Ulp(HALF) == 1;
    } else {
      NextBinade(x / 2, y / 2);
    }
  }

  lemma Multiple(m: nat, u: nat)
    requires u >= 1
    ensures m * u % u == 0 && m * u / u == m
  {
    Remainder(m * u, u, m, 0);
  }

  lemma MulMonotone(a: nat, b: nat, u: nat)
    requires a <= b
    ensures a * u <= b * u
  {
  }

  /** A significand of at most 53 bits at this scale is a double. */
  lemma ScaledIsDouble(x: nat, m: nat)
    requires x >= EXACT && HALF <= m <= EXACT
    ensures IsDouble(m * Ulp(x))
  {
    hide Ulp;
    var u := Ulp(x);
    Between(m, u);
    if m < EXACT {
      SameBinade(x, m * u);
      Multiple(m, u);
    } else {
      NextBinade(x, m * u);
      Multiple(HALF, 2 * u);
      assert HALF * (2 * u) == m * u;
    }
  }

  lemma Between(m: nat, u: nat)
    requires HALF <= m && u >= 1
    ensures HALF * u <= m * u
    ensures m < EXACT ==> m * u < EXACT * u
  {
    MulMonotone(HALF, m, u);
    if m < EXACT {
      MulMonotone(m + 1, EXACT, u);
      assert (m + 1) * u == m * u + u;
    }
  }

  lemma Significand(x: nat)
    requires x >= EXACT
    ensures HALF <= x / Ulp(x) < EXACT
  {
    UlpBounds(x);
    hide Ulp;
    QuotientBounds(x, Ulp(x), HALF, EXACT);
  }

  lemma QuotientBounds(x: nat, u: nat, lo: nat, hi: nat)
    requires u >= 1 && lo * u <= x < hi * u
    ensures lo <= x / u < hi
  {
    var q := x / u;
    assert x == q * u + x % u;
    if q < lo {
      MulMonotone(q + 1, lo, u);
    } else if q >= hi {
      MulMonotone(hi, q, u);
    }
  }

  /** Rounding gives a double, and leaves doubles and small numbers alone. */
  lemma RoundIsDouble(x: nat)
    ensures IsDouble(Round(x))
    ensures IsDouble(x) ==> Round(x) == x
    ensures x <= 0x20_0000_0000_0000 ==> Round(x) == x
  {
    UlpBounds(x);
    if x >= EXACT {
      Significand(x);
      ScaledIsDouble(x, x / Ulp(x));
      ScaledIsDouble(x, x / Ulp(x) + 1);
    }
    assert Ulp(EXACT) == 2 by { assert Ulp(HALF) == 1; }
  }

  /** No double lies between neighbours. */
  lemma NeighboursAreNext(x: nat, d: nat)
    requires IsDouble(d)
    ensures d <= x / Ulp(x) * Ulp(x) || d >= (x / Ulp(x) + 1) * Ulp(x)
  {
    var u, q := Ulp(x), x / Ulp(x);
    if x < EXACT {
    } else if q * u < d < (q + 1) * u {
      Significand(x);
      hide Ulp;
      MulMonotone(HALF, q, u);
      MulMonotone(q + 1, EXACT, u);
      SameBinade(x, d);
      Remainder(d, u, q, d - q * u);
    }
  }

  /** No double is nearer than the rounded one. */
  lemma RoundIsNearest(x: nat, d: nat)
    requires IsDouble(d)
    ensures (if Round(x) <= x then x - Round(x) else Round(x) - x) <= if d <= x then x - d else d - x
  {
    hide *;
    var lo, u, r := Neighbours(x, d);
    Nearer(x, lo, u, r, Round(x), d);
  }

  /** The doubles next to x: Round picks the nearer of them, and d is neither's inner side. */
  lemma Neighbours(x: nat, d: nat) returns (lo: int, u: int, r: int)
    requires IsDouble(d)
    ensures x == lo + r && 0 <= r < u && (d <= lo || d >= lo + u)
    ensures (Round(x) == lo && 2 * r <= u) || (Round(x) == lo + u && 2 * r >= u)
  {
    NeighboursAreNext(x, d);
    hide *;
    u, r, lo := Ulp(x), x % Ulp(x), x / Ulp(x) * Ulp(x);
    Split(x, u);
    RoundIs(x);
  }

  lemma Split(x: nat, u: nat)
    requires u >= 1
    ensures x == x / u * u + x % u && 0 <= x % u < u && (x / u + 1) * u == x / u * u + u
  {
  }

  lemma RoundIs(x: nat)
    ensures var u, q, r := Ulp(x), x / Ulp(x), x % Ulp(x);
      Round(x) == q * u + if 2 * r < u || (2 * r == u && q % 2 == 0) then 0 else u
  {
    Split(x, Ulp(x));
    hide Ulp;
  }

  /** Of the two neighbours of lo + r, the one on the nearer side is at least as near as anything beyond them. */
  lemma Nearer(x: int, lo: int, u: int, r: int, near: int, d: int)
    requires 0 <= r && x == lo + r && r < u && (d <= lo || d >= lo + u)
    requires (near == lo && 2 * r <= u) || (near == lo + u && 2 * r >= u)
    ensures (if near <= x then x - near else near - x) <= if d <= x then x - d else d - x
  {
  }

  lemma LargeStaysLarge(x: nat)
    requires x >= EXACT
    ensures Round(x) >= EXACT
  {
    UlpBounds(x);
    Significand(x);
    hide Ulp;
    MulMonotone(HALF, x / Ulp(x), Ulp(x));
    MulMonotone(HALF, x / Ulp(x) + 1, Ulp(x));
  }

  /** Below 2 to the 53 a double grows by one. From there on it stays, or moves once to the next even significand. */
  lemma IncrementIs(x: nat)
    requires IsDouble(x)
    ensures x < 0x20_0000_0000_0000 ==> Increment(x) == x + 1
    ensures x >= 0x20_0000_0000_0000 ==> Increment(x) == if Ulp(x) == 2 && x / 2 % 2 == 1 then x + 2 else x
    ensures IsDouble(Increment(x)) && Increment(x) >= x
  {
    RoundIsDouble(x + 1);
    if x < EXACT {
      hide Ulp;
    } else {
      NextDoubles(x);
      hide Ulp, IsDouble;
      var u, q := Ulp(x), x / Ulp(x);
      assert Round(x + 1) == if u > 2 || q % 2 == 0 then q * u else (q + 1) * u;
      assert u == 2 ==> q * u == 2 * q && (q + 1) * u == 2 * q + 2;
    }
  }

  lemma NextDoubles(x: nat)
    requires IsDouble(x) && x >= EXACT
    ensures Ulp(x + 1) == Ulp(x) >= 2 && Ulp(x) % 2 == 0
    ensures (x + 1) / Ulp(x) == x / Ulp(x) && (x + 1) % Ulp(x) == 1
    ensures x == x / Ulp(x) * Ulp(x)
  {
    UlpBounds(x);
    Significand(x);
    hide Ulp;
    var u, q := Ulp(x), x / Ulp(x);
    assert x == q * u;
    Between(q, u);
    NextFits(q, u);
    SameBinade(x, x + 1);
    Remainder(x + 1, u, q, 1);
  }

  lemma NextFits(q: nat, u: nat)
    requires q < EXACT && u >= 2
    ensures q * u + 1 < EXACT * u
  {
    MulMonotone(q + 1, EXACT, u);
    assert (q + 1) * u == q * u + u;
  }

  /** Incrementing twice moves a double on both times exactly while it stays within the exact range. */
  lemma TwoIncrements(x: nat)
    requires IsDouble(x)
    ensures Increment(Increment(x)) > Increment(x) <==> x + 1 < EXACT
  {
    IncrementIs(x);
    IncrementIs(Increment(x));
    SmallUlps();
    if x >= EXACT && Increment(x) == x + 2 {
      UlpBounds(x);
      hide Ulp, Round;
      if x + 2 < EXACT * 2 {
        SameBinade(x, x + 2);
      } else {
        NextBinade(x, x + 2);
      }
    } else {
      hide Ulp, Round;
    }
  }

  lemma SmallUlps()
    ensures Ulp(EXACT) == 2
  {
    assert Ulp(HALF) == 1;
  }
}
