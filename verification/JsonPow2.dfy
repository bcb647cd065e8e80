// pow2gt of packages/cJSON-v1.0.2/cJSON.c: smearing the bits of x-1 downwards
// and adding one gives the least power of two that is at least x.
module JsonPow2 {

  function Or(a: nat, b: nat): nat
    decreases a + b
  {
    if a == 0 && b == 0 then 0
    else 2 * Or(a / 2, b / 2) + (if a % 2 == 1 || b % 2 == 1 then 1 else 0)
  }

  // a >> n
  function Shr(a: nat, n: nat): nat
    decreases n
  {
    if n == 0 then a else Shr(a / 2, n - 1)
  }

  // pow2gt
  function Pow2Gt(x: nat): nat
    requires x > 0
  {
    var a := x - 1;
    var b := Or(a, Shr(a, 1));
    var c := Or(b, Shr(b, 2));
    var d := Or(c, Shr(c, 4));
    var e := Or(d, Shr(d, 8));
    var f := Or(e, Shr(e, 16));
    f + 1
  }

  function Pow2(n: nat): nat
  {
    if n == 0 then 1 else 2 * Pow2(n - 1)
  }

  // ------------------------------------------------------------------ bits

  predicate Bit(a: nat, i: nat)
    decreases i
  {
    if i == 0 then a % 2 == 1 else Bit(a / 2, i - 1)
  }

  // The number of significant bits.
  function Len(a: nat): nat {
    if a == 0 then 0 else 1 + Len(a / 2)
  }

  lemma {:induction false} OrBit(a: nat, b: nat, i: nat)
    ensures Bit(Or(a, b), i) <==> Bit(a, i) || Bit(b, i)
    decreases i
  {
    if i == 0 || (a == 0 && b == 0) {
      if a == 0 && b == 0 {
        ZeroBit(i);
      }
    } else {
      OrBit(a / 2, b / 2, i - 1);
      assert Or(a, b) / 2 == Or(a / 2, b / 2);
    }
  }

  lemma {:induction false} ZeroBit(i: nat)
    ensures !Bit(0, i)
    decreases i
  {
    if i > 0 {
      ZeroBit(i - 1);
    }
  }

  lemma {:induction false} ShrBit(a: nat, n: nat, i: nat)
    ensures Bit(Shr(a, n), i) <==> Bit(a, n + i)
    decreases n
  {
    if n > 0 {
      ShrBit(a / 2, n - 1, i);
    }
  }

  lemma {:induction false} OrLen(a: nat, b: nat)
    requires Len(b) <= Len(a)
    ensures Len(Or(a, b)) == Len(a)
    decreases a
  {
    if a > 0 {
      OrLen(a / 2, b / 2);
      assert Or(a, b) / 2 == Or(a / 2, b / 2);
    }
  }

  lemma {:induction false} ShrLen(a: nat, n: nat)
    ensures Len(Shr(a, n)) <= Len(a)
    decreases n
  {
    if n > 0 {
      ShrLen(a / 2, n - 1);
    }
  }

  lemma {:induction false} TopBit(a: nat)
    requires a > 0
    ensures Bit(a, Len(a) - 1)
  {
    if a > 1 {
      TopBit(a / 2);
    }
  }

  // The n highest significant bits are set.
  predicate TopOnes(a: nat, n: nat) {
    forall i :: 0 <= i < Len(a) && Len(a) <= i + n ==> Bit(a, i)
  }

  lemma SmearStep(a: nat, n: nat)
    requires TopOnes(a, n)
    ensures var b := Or(a, Shr(a, n)); Len(b) == Len(a) && TopOnes(b, 2 * n)
  {
    var b := Or(a, Shr(a, n));
    ShrLen(a, n);
    OrLen(a, Shr(a, n));
    forall i | 0 <= i < Len(b) && Len(b) <= i + 2 * n ensures Bit(b, i) {
      OrBit(a, Shr(a, n), i);
      ShrBit(a, n, i);
      if i + n >= Len(a) {
        assert Bit(a, i);
      } else {
        assert Bit(a, n + i);
      }
    }
  }

  lemma {:induction false} AllOnes(a: nat)
    requires TopOnes(a, Len(a))
    ensures a + 1 == Pow2(Len(a))
  {
    if a > 0 {
      forall i | 0 <= i < Len(a / 2) ensures Bit(a / 2, i) {
        assert Bit(a, i + 1);
      }
      AllOnes(a / 2);
      assert Bit(a, 0);
    }
  }

  lemma {:induction false} LenBounds(a: nat)
    ensures a < Pow2(Len(a)) && (a > 0 ==> Pow2(Len(a) - 1) <= a)
  {
    if a > 0 {
      LenBounds(a / 2);
    }
  }

  lemma {:induction false} Pow2Monotone(i: nat, j: nat)
    requires i <= j
    ensures Pow2(i) <= Pow2(j)
    decreases j
  {
    if i < j {
      Pow2Monotone(i, j - 1);
    }
  }

  // For arguments up to 2^30 the result is the least power of two not below the argument.
  lemma Pow2GtIsLeast(x: nat)
    requires 0 < x <= 0x4000_0000
    ensures exists k :: k <= 30 && Pow2Gt(x) == Pow2(k)
    ensures x <= Pow2Gt(x) && forall k :: x <= Pow2(k) ==> Pow2Gt(x) <= Pow2(k)
  {
    var a := x - 1;
    var k := Len(a);
    LenBounds(a);
    if k > 30 {
      Pow2Monotone(30, k - 1);
      assert Pow2(30) == 0x4000_0000 by { ThirtyBits(); }
    }
    Smeared(a);
    forall j | x <= Pow2(j) ensures Pow2(k) <= Pow2(j) {
      if j < k {
        Pow2Monotone(j, k - 1);
      } else {
        Pow2Monotone(k, j);
      }
    }
  }

  lemma Smeared(a: nat)
    requires Len(a) <= 32
    ensures Pow2Gt(a + 1) == Pow2(Len(a))
  {
    if a > 0 {
      TopBit(a);
    }
    var b := Or(a, Shr(a, 1));
    var c := Or(b, Shr(b, 2));
    var d := Or(c, Shr(c, 4));
    var e := Or(d, Shr(d, 8));
    SmearStep(a, 1);
    SmearStep(b, 2);
    SmearStep(c, 4);
    SmearStep(d, 8);
    SmearStep(e, 16);
    AllOnes(Or(e, Shr(e, 16)));
  }

  lemma ThirtyBits()
    ensures Pow2(30) == 0x4000_0000
  {
    assert Pow2(10) == 0x400;
    assert Pow2(20) == 0x10_0000;
  }
}
