/** Bitwise operations on naturals, and the arithmetic facts the decoders rely on. */
module Bits {
  function Pow2(k: nat): (p: nat)
    ensures p > 0
  {
    if k == 0 then 1 else 2 * Pow2(k - 1)
  }

  function And(a: nat, b: nat): (r: nat)
    ensures r <= a && r <= b
  {
    if a == 0 || b == 0 then 0 else (if a % 2 == 1 && b % 2 == 1 then 1 else 0) + 2 * And(a / 2, b / 2)
  }

  function Or(a: nat, b: nat): nat {
    if a == 0 then b
    else if b == 0 then a
    else (if a % 2 == 1 || b % 2 == 1 then 1 else 0) + 2 * Or(a / 2, b / 2)
  }

  function Shr(a: nat, k: nat): nat {
    if k == 0 then a else Shr(a / 2, k - 1)
  }

  function Scale(a: nat, k: nat): nat {
    if k == 0 then a else 2 * Scale(a, k - 1)
  }

  // A left shift in a register holding the numbers below size: bits pushed past the top are lost.
  function Shl(a: nat, k: nat, size: nat): nat
    requires size > 0
  {
    Scale(a, k) % size
  }

  // Bit k, counted from the least significant.
  predicate Bit(a: nat, k: nat) {
    Shr(a, k) % 2 == 1
  }

  // The number made of the k low bits.
  function Low(a: nat, k: nat): (r: nat)
    ensures r < Pow2(k) && r <= a
  {
    if k == 0 then 0 else a % 2 + 2 * Low(a / 2, k - 1)
  }

  // The number with its k low bits cleared.
  function ClearLow(a: nat, k: nat): (r: nat)
    ensures r <= a
  {
    a - Low(a, k)
  }

  /* ---------- the same in terms of division ---------- */

  lemma DivMod(a: nat, b: nat, q: nat, r: nat)
    requires b > 0 && r < b && a == b * q + r
    ensures a / b == q && a % b == r
  {
    var q' := a / b;
    if q < q' {
      StrictProduct(b, q, q');
    } else if q' < q {
      StrictProduct(b, q', q);
    }
  }

  lemma StrictProduct(b: nat, q: nat, q': nat)
    requires q < q'
    ensures b * q + b <= b * q'
  {
    var d := q' - q - 1;
    assert b * q' == b * q + b + b * d by {
      assert q' == q + 1 + d;
    }
    assert b * d >= 0;
  }

  lemma {:induction false} Recompose(a: nat, k: nat)
    ensures a == Pow2(k) * Shr(a, k) + Low(a, k)
  {
    if k > 0 {
      Recompose(a / 2, k - 1);
      DoubleProduct(Pow2(k - 1), Shr(a / 2, k - 1));
    }
  }

  lemma DoubleProduct(p: nat, q: nat)
    ensures 2 * (p * q) == (2 * p) * q
  {
  }

  lemma ShiftDivides(a: nat, k: nat)
    ensures Shr(a, k) == a / Pow2(k) && Low(a, k) == a % Pow2(k)
  {
    Recompose(a, k);
    DivMod(a, Pow2(k), Shr(a, k), Low(a, k));
  }

  lemma {:induction false} ScaleMultiplies(a: nat, k: nat)
    ensures Scale(a, k) == Pow2(k) * a
  {
    if k > 0 {
      ScaleMultiplies(a, k - 1);
      DoubleProduct(Pow2(k - 1), a);
    }
  }

  lemma {:induction false} Pow2Monotone(j: nat, k: nat)
    requires j <= k
    ensures Pow2(j) <= Pow2(k)
  {
    if j < k {
      Pow2Monotone(j, k - 1);
    }
  }

  /* ---------- masks ---------- */

  // Masking with k low ones keeps the k low bits.
  lemma {:induction false} AndLow(a: nat, k: nat)
    ensures And(a, Pow2(k) - 1) == Low(a, k)
  {
    if k > 0 {
      AndLow(a / 2, k - 1);
      assert (Pow2(k) - 1) / 2 == Pow2(k - 1) - 1;
    }
  }

  lemma {:induction false} LowOfSmall(a: nat, k: nat)
    requires a < Pow2(k)
    ensures Low(a, k) == a
  {
    if k > 0 {
      LowOfSmall(a / 2, k - 1);
    }
  }

  // Ones at the positions k..w.
  function HighOnes(k: nat, w: nat): nat
    requires k <= w
  {
    if k == 0 then Pow2(w) - 1 else 2 * HighOnes(k - 1, w - 1)
  }

  lemma {:induction false} HighOnesValue(k: nat, w: nat)
    requires k <= w
    ensures HighOnes(k, w) == Pow2(w) - Pow2(k)
  {
    if k > 0 {
      HighOnesValue(k - 1, w - 1);
    }
  }

  // Masking with them clears the k low bits and keeps the rest.
  lemma {:induction false} AndHigh(a: nat, k: nat, w: nat)
    requires k <= w && a < Pow2(w)
    ensures And(a, HighOnes(k, w)) == ClearLow(a, k)
  {
    if k == 0 {
      AndLow(a, w);
      LowOfSmall(a, w);
    } else {
      AndHigh(a / 2, k - 1, w - 1);
      ClearLowHalves(a, k);
    }
  }

  lemma ClearLowHalves(a: nat, k: nat)
    requires k > 0
    ensures ClearLow(a, k) == 2 * ClearLow(a / 2, k - 1)
  {
  }

  // Masking with a single one at position k isolates that bit.
  lemma {:induction false} AndBit(a: nat, k: nat)
    ensures And(a, Pow2(k)) == (if Bit(a, k) then Pow2(k) else 0)
  {
    if k > 0 {
      AndBit(a / 2, k - 1);
    } else {
      assert And(a / 2, 0) == 0;
    }
  }

  // Clearing k low bits changes exactly the bits below position k.
  lemma {:induction false} ClearedBit(a: nat, k: nat, p: nat)
    ensures Bit(ClearLow(a, k), p) <==> k <= p && Bit(a, p)
  {
    if k > 0 {
      var c := ClearLow(a, k);
      ClearLowHalves(a, k);
      if p > 0 {
        ClearedBit(a / 2, k - 1, p - 1);
      }
    }
  }

  lemma {:induction false} ZeroBits(k: nat)
    ensures Shr(0, k) == 0
  {
    if k > 0 {
      ZeroBits(k - 1);
    }
  }

  // The k low bits have the bits below k and no others.
  lemma {:induction false} LowKeeps(a: nat, k: nat, p: nat)
    ensures Bit(Low(a, k), p) <==> p < k && Bit(a, p)
  {
    if k == 0 {
      ZeroBits(p);
    } else if p > 0 {
      LowKeeps(a / 2, k - 1, p - 1);
      assert Low(a, k) / 2 == Low(a / 2, k - 1);
    }
  }

  // A number put together from a high and a low part comes apart into them.
  lemma {:induction false} Compose(high: nat, low: nat, k: nat)
    requires low < Pow2(k)
    ensures Shr(Scale(high, k) + low, k) == high
    ensures Low(Scale(high, k) + low, k) == low
  {
    if k > 0 {
      Compose(high, low / 2, k - 1);
      assert (Scale(high, k) + low) / 2 == Scale(high, k - 1) + low / 2;
    }
  }

  lemma {:induction false} Decompose(a: nat, k: nat)
    ensures a == Scale(Shr(a, k), k) + Low(a, k)
  {
    if k > 0 {
      Decompose(a / 2, k - 1);
    }
  }

  // Numbers of k bits with the same bits are the same.
  lemma {:induction false} SameBitsBelow(a: nat, b: nat, k: nat)
    requires a < Pow2(k) && b < Pow2(k)
    requires forall p | 0 <= p < k :: Bit(a, p) == Bit(b, p)
    ensures a == b
  {
    if k > 0 {
      assert Bit(a, 0) == Bit(b, 0);
      forall p | 0 <= p < k - 1 ensures Bit(a / 2, p) == Bit(b / 2, p) {
        assert Bit(a, p + 1) == Bit(b, p + 1);
      }
      SameBitsBelow(a / 2, b / 2, k - 1);
    }
  }

  // One more low bit.
  lemma {:induction false} LowBit(a: nat, k: nat)
    ensures Low(a, k + 1) == Low(a, k) + if Bit(a, k) then Pow2(k) else 0
  {
    if k > 0 {
      LowBit(a / 2, k - 1);
    } else {
      assert Low(a / 2, 0) == 0;
    }
  }

  // Joining a value shifted past the other one's bits is addition.
  lemma {:induction false} OrDisjoint(a: nat, b: nat, k: nat)
    requires b < Pow2(k)
    ensures Or(Scale(a, k), b) == Scale(a, k) + b
  {
    if k > 0 {
      OrDisjoint(a, b / 2, k - 1);
      assert Scale(a, k) / 2 == Scale(a, k - 1);
    }
  }

  // All ones of width w shifted left by k.
  lemma ShlOnes(k: nat, w: nat)
    requires k <= w
    ensures Shl(Pow2(w) - 1, k, Pow2(w)) == HighOnes(k, w)
  {
    Pow2Monotone(k, w);
    ScaleMultiplies(Pow2(w) - 1, k);
    ShiftedOnes(Pow2(k), Pow2(w));
    HighOnesValue(k, w);
  }

  lemma ShiftedOnes(p: nat, q: nat)
    requires 0 < p <= q
    ensures p * (q - 1) % q == q - p
  {
    assert p * (q - 1) == q * (p - 1) + (q - p);
    DivMod(p * (q - 1), q, p - 1, q - p);
  }
}
