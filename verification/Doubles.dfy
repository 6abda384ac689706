/** Integers read as 64-bit floats, as `as_f64` reads a JSON integer: rounded to 53
    significant bits, halves to even. */
module Doubles {
  import opened Division

  const TWO_52: nat := 0x10_0000_0000_0000
  const TWO_53: nat := 0x20_0000_0000_0000

  /** The distance between neighbouring doubles around n: a power of two, 1 up to 2^53. */
  function Unit(n: nat): (u: nat)
    ensures u >= 1
  {
    if n < TWO_53 then 1 else 2 * Unit(n / 2)
  }

  function RoundNat(n: nat): (r: int)
    ensures r >= 0
  {
    var u := Unit(n);
    var q, r := n / u, n % u;
    if 2 * r < u || (2 * r == u && q % 2 == 0) then q * u else (q + 1) * u
  }

  function RoundToDouble(n: int): int {
    if n >= 0 then RoundNat(n) else -RoundNat(-n)
  }

  /** Integers a double can hold: at most 53 significant bits. */
  ghost predicate IsDouble(n: int) {
    var m := if n >= 0 then n else -n;
    m % Unit(m) == 0
  }

  // ----- Units -----

  lemma HalfBounds(n: nat, u: nat)
    requires TWO_52 * u <= n / 2 < TWO_53 * u
    ensures TWO_52 * (2 * u) <= n < TWO_53 * (2 * u)
  {
  }

  /** From 2^52 on, n lies between 2^52 and 2^53 units. */
  lemma {:induction false} UnitBounds(n: nat)
    requires n >= TWO_52
    ensures TWO_52 * Unit(n) <= n < TWO_53 * Unit(n)
  {
    if n >= TWO_53 {
      UnitBounds(n / 2);
      HalfBounds(n, Unit(n / 2));
    }
  }

  lemma DoubleMultiple(m: nat, u: nat)
    requires u >= 1
    ensures m % (2 * u) == 0 <==> m % 2 == 0 && (m / 2) % u == 0
  {
    if m % 2 == 0 && (m / 2) % u == 0 {
      var k := (m / 2) / u;
      assert m / 2 == u * k;
      assert m == (2 * u) * k;
      MultipleRemainder(2 * u, k);
    }
    if m % (2 * u) == 0 {
      var k := m / (2 * u);
      assert m == (2 * u) * k == 2 * (u * k);
      MultipleRemainder(u, k);
      assert m / 2 == u * k;
    }
  }

  /** A double as large as 2^52 units of n is a whole number of them. */
  lemma {:induction false} LargeDoubles(n: nat, m: nat)
    requires m % Unit(m) == 0 && m >= TWO_52 * Unit(n)
    ensures m % Unit(n) == 0
    decreases n
  {
    if n >= TWO_53 {
      var u := Unit(n / 2);
      assert m >= TWO_53;
      DoubleMultiple(m, Unit(m / 2));
      assert m / 2 >= TWO_52 * u;
      LargeDoubles(n / 2, m / 2);
      DoubleMultiple(m, u);
    }
  }

  /** k units of n are k units of themselves. */
  lemma {:induction false} UnitOfMultiple(n: nat, k: nat)
    requires TWO_52 <= k < TWO_53
    ensures Unit(k * Unit(n)) == Unit(n)
    decreases n
  {
    if n >= TWO_53 {
      var u := Unit(n / 2);
      assert k * Unit(n) == 2 * (k * u);
      assert k * u >= TWO_52;
      UnitOfMultiple(n / 2, k);
    } else {
      assert k * Unit(n) == k;
    }
  }

  lemma FullUnitsAreDouble(n: nat, k: nat)
    requires TWO_52 <= k < TWO_53
    ensures k * Unit(n) >= 0 && IsDouble(k * Unit(n))
  {
    UnitOfMultiple(n, k);
    hide Unit;
    MultipleRemainder(Unit(n), k);
    assert k * Unit(n) == Unit(n) * k;
  }

  lemma UnitDoubles(n: nat)
    requires n >= TWO_52
    ensures Unit(2 * n) == 2 * Unit(n)
  {
    assert 2 * n / 2 == n;
  }

  lemma WholeUnitsAreDouble(n: nat, k: nat)
    requires n >= TWO_52 && TWO_52 <= k <= TWO_53
    ensures k * Unit(n) >= 0 && IsDouble(k * Unit(n))
  {
    if k < TWO_53 {
      FullUnitsAreDouble(n, k);
    } else {
      hide Unit, IsDouble;
      UnitDoubles(n);
      assert k * Unit(n) == TWO_52 * Unit(2 * n);
      FullUnitsAreDouble(2 * n, TWO_52);
    }
  }

  // ----- Rounding -----

  lemma SmallIsExact(n: nat)
    requires n < TWO_53
    ensures RoundNat(n) == n && IsDouble(n)
  {
  }

  /** n lies in whole units q, with the two doubles q and q + 1 units around it. */
  lemma Around(n: nat) returns (q: nat, r: nat)
    requires n >= TWO_52
    ensures n == q * Unit(n) + r && r < Unit(n) && TWO_52 <= q < TWO_53
    ensures RoundNat(n)
         == if 2 * r < Unit(n) || (2 * r == Unit(n) && q % 2 == 0) then q * Unit(n) else (q + 1) * Unit(n)
  {
    var u := Unit(n);
    q, r := n / u, n % u;
    UnitBounds(n);
    hide Unit;
    QuotientRange(n, u, TWO_52, TWO_53);
  }

  lemma RoundIsDouble(n: int)
    ensures IsDouble(RoundToDouble(n))
  {
    var m: nat := if n >= 0 then n else -n;
    if m < TWO_52 {
      SmallIsExact(m);
    } else {
      var q, r := Around(m);
      WholeUnitsAreDouble(m, q);
      WholeUnitsAreDouble(m, q + 1);
    }
  }

  ghost function Distance(a: int, b: int): nat {
    if a >= b then a - b else b - a
  }

  lemma NoDoubleBetween(n: nat, m: nat, q: nat)
    requires n >= TWO_52 && m % Unit(m) == 0 && TWO_52 <= q
    ensures m <= q * Unit(n) || m >= (q + 1) * Unit(n)
  {
    hide Unit;
    var u := Unit(n);
    if m >= TWO_52 * u {
      LargeDoubles(n, m);
      var k := m / u;
      assert m == k * u;
      if k <= q {
        Scale(k, q, u);
      } else {
        Scale(q + 1, k, u);
      }
    } else {
      Scale(TWO_52, q, u);
    }
  }

  lemma NatIsNearest(n: nat, m: nat)
    requires IsDouble(m)
    ensures Distance(n, RoundNat(n)) <= Distance(n, m)
  {
    if n < TWO_52 {
      SmallIsExact(n);
    } else {
      var q, r := Around(n);
      NoDoubleBetween(n, m, q);
    }
  }

  /** No double lies closer to an integer than the one it rounds to. */
  lemma RoundIsNearest(n: int, m: int)
    requires IsDouble(m)
    ensures Distance(n, RoundToDouble(n)) <= Distance(n, m)
  {
    var a: nat := if n >= 0 then n else -n;
    NatIsNearest(a, if m >= 0 then m else -m);
    NatIsNearest(a, 0);
  }

  lemma TieParity(u: nat, qu: int, q: nat, r: nat, result: int)
    requires r < u
    requires result == if 2 * r < u || (2 * r == u && q % 2 == 0) then qu else qu + u
    requires 2 * Distance(qu + r, result) == u
    ensures result == qu <==> q % 2 == 0
  {
  }

  /** An integer halfway between two doubles goes to the one with an even number of units. */
  lemma TiesToEven(n: nat) returns (k: nat)
    requires 2 * Distance(n, RoundNat(n)) == Unit(n)
    ensures RoundNat(n) == k * Unit(n) && k % 2 == 0
  {
    k := 0;
    if n < TWO_52 {
      SmallIsExact(n);
    } else {
      var q, r := Around(n);
      hide Unit, RoundNat;
      assert (q + 1) * Unit(n) == q * Unit(n) + Unit(n);
      TieParity(Unit(n), q * Unit(n), q, r, RoundNat(n));
      k := if q % 2 == 0 then q else q + 1;
    }
  }

  lemma RoundKeepsSign(n: int)
    ensures RoundToDouble(n) < 0 <==> n < 0
  {
    if n < 0 {
      RoundIsNearest(n, -1);
    }
  }

  /** Exactly the doubles stay as they are. */
  lemma RoundsToItself(n: int)
    ensures RoundToDouble(n) == n <==> IsDouble(n)
  {
    RoundIsDouble(n);
    if IsDouble(n) {
      RoundIsNearest(n, n);
    }
  }

  /** Up to 2^53 every integer is a double, and the next one is not. */
  lemma ExactUpTo(n: nat)
    requires n <= TWO_53
    ensures RoundToDouble(n) == n
    ensures RoundToDouble(TWO_53 + 1) == TWO_53
  {
    assert Unit(TWO_52) == 1 && Unit(TWO_53) == 2 && Unit(TWO_53 + 1) == 2;
  }
}
