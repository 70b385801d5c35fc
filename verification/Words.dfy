/** Bitwise operators of OCaml's native integers, read as two's complement integers of
    unbounded width: `land`, `lor` and `lxor` act digit by digit in base 2, where the sign
    extends as an endless run of 0s or 1s. */
module Words {
  import opened Arith
  import opened Radix

  function Land(a: int, b: int): int
    decreases if a < 0 then -a else a
  {
    if a == 0 then 0
    else if a == -1 then b
    else (a % 2) * (b % 2) + 2 * Land(a / 2, b / 2)
  }

  function Lor(a: int, b: int): int
    decreases if a < 0 then -a else a
  {
    if a == 0 then b
    else if a == -1 then -1
    else (if a % 2 == 1 || b % 2 == 1 then 1 else 0) + 2 * Lor(a / 2, b / 2)
  }

  function Lxor(a: int, b: int): int
    decreases if a < 0 then -a else a
  {
    if a == 0 then b
    else if a == -1 then -1 - b
    else (a + b) % 2 + 2 * Lxor(a / 2, b / 2)
  }

  /** `lsr` on 63-bit integers. */
  function Lsr63(x: int, k: nat): int
    requires -0x4000_0000_0000_0000 <= x < 0x4000_0000_0000_0000
  {
    PowPositive(2, k);
    (if x < 0 then x + 0x8000_0000_0000_0000 else x) / Pow(2, k)
  }

  lemma {:induction false} LandMask(a: int)
    ensures Land(a, 0) == 0 && Land(a, -1) == a
    decreases if a < 0 then -a else a
  {
    if a != 0 && a != -1 {
      LandMask(a / 2);
    }
  }

  lemma {:induction false} AllOnes(x: int, k: nat)
    requires 0 <= x < Pow(2, k)
    ensures Land(x, Pow(2, k) - 1) == x
    decreases k
  {
    if x != 0 {
      assert k > 0 && (Pow(2, k) - 1) / 2 == Pow(2, k - 1) - 1 && (Pow(2, k) - 1) % 2 == 1;
      AllOnes(x / 2, k - 1);
    }
  }

  lemma LandBelow(a: int, b: int)
    requires 0 <= a && 0 <= b
    ensures 0 <= Land(a, b) <= a
    decreases a
  {
    if a != 0 {
      LandBelow(a / 2, b / 2);
      assert a % 2 == 0 || a % 2 == 1;
      assert (a % 2) * (b % 2) == 0 || (a % 2) * (b % 2) == a % 2;
    }
  }

  lemma {:induction false} LxorZero(a: int)
    ensures Lxor(a, 0) == a
    decreases if a < 0 then -a else a
  {
    if a != 0 && a != -1 {
      LxorZero(a / 2);
    }
  }

  lemma {:induction false} LxorSelf(a: int)
    ensures Lxor(a, a) == 0
    decreases if a < 0 then -a else a
  {
    if a != 0 && a != -1 {
      LxorSelf(a / 2);
    }
  }

  lemma {:induction false} LxorCancel(a: int, b: int)
    ensures Lxor(a, Lxor(a, b)) == b
    decreases if a < 0 then -a else a
  {
    if a != 0 && a != -1 {
      var rest := Lxor(a / 2, b / 2);
      var c := (a + b) % 2 + 2 * rest;
      LxorCancel(a / 2, b / 2);
      assert Lxor(a, b) == c && c / 2 == rest;
      assert Lxor(a, c) == (a + c) % 2 + 2 * Lxor(a / 2, c / 2);
    }
  }

  lemma {:induction false} LxorCommutes(a: int, b: int)
    ensures Lxor(a, b) == Lxor(b, a)
    decreases if a < 0 then -a else a
  {
    if a == 0 {
      LxorZero(b);
    } else if a == -1 {
      LxorOnes(b);
    } else if b == 0 {
      LxorZero(a);
    } else if b == -1 {
      LxorOnes(a);
    } else {
      LxorCommutes(a / 2, b / 2);
    }
  }

  lemma {:induction false} LxorOnes(a: int)
    ensures Lxor(a, -1) == -1 - a
    decreases if a < 0 then -a else a
  {
    if a != 0 && a != -1 {
      LxorOnes(a / 2);
      var h, b := a / 2, a % 2;
      assert a == 2 * h + b && (a + -1) % 2 == 1 - b && -1 / 2 == -1;
    }
  }

  /** Equality test by exclusive or. */
  lemma LxorIsZero(a: int, b: int)
    ensures Lxor(a, b) == 0 <==> a == b
  {
    LxorSelf(a);
    LxorCancel(a, b);
    LxorZero(a);
  }

  lemma {:induction false} LxorSign(a: int, b: int)
    ensures (Lxor(a, b) < 0) <==> ((a < 0) != (b < 0))
    decreases if a < 0 then -a else a
  {
    if a != 0 && a != -1 {
      LxorSign(a / 2, b / 2);
    }
  }

  lemma {:induction false} LxorBelow(a: int, b: int, k: nat)
    requires 0 <= a < Pow(2, k) && 0 <= b < Pow(2, k)
    ensures 0 <= Lxor(a, b) < Pow(2, k)
    decreases k
  {
    if k > 0 && a != 0 {
      LxorBelow(a / 2, b / 2, k - 1);
    }
  }

  lemma {:induction false} LorZero(a: int)
    ensures Lor(a, 0) == a
    decreases if a < 0 then -a else a
  {
    if a != 0 && a != -1 {
      LorZero(a / 2);
    }
  }

  lemma {:induction false} LorIsZero(a: int, b: int)
    requires a >= 0 && b >= 0
    ensures Lor(a, b) >= 0 && (Lor(a, b) == 0 <==> a == 0 && b == 0)
    decreases a
  {
    if a != 0 {
      LorIsZero(a / 2, b / 2);
    }
  }

  lemma {:induction false} LorBelow(a: int, b: int, k: nat)
    requires 0 <= a < Pow(2, k) && 0 <= b < Pow(2, k)
    ensures 0 <= Lor(a, b) < Pow(2, k)
    decreases k
  {
    if k > 0 && a != 0 {
      LorBelow(a / 2, b / 2, k - 1);
    }
  }

  /** Or of disjoint bit ranges is addition. */
  lemma {:induction false} LorDisjoint(a: int, b: int, k: nat)
    requires 0 <= a < Pow(2, k)
    ensures Lor(a, b * Pow(2, k)) == a + b * Pow(2, k)
    decreases k
  {
    if a != 0 {
      assert k > 0;
      assert b * Pow(2, k) == 2 * (b * Pow(2, k - 1));
      LorDisjoint(a / 2, b, k - 1);
    }
  }

  lemma LxorStep(a: int, b: int)
    requires a >= 0 && b >= 0
    ensures Lxor(a, b) == (a + b) % 2 + 2 * Lxor(a / 2, b / 2)
  {
    if a == 0 {
      assert Lxor(0, b / 2) == b / 2;
    }
  }

  lemma LxorDouble(a: int, m: int, c: int, n: int)
    requires a >= 0 && m >= 0 && c >= 0 && n >= 0
    ensures Lxor(a + 2 * m, c + 2 * n) == (a + c) % 2 + 2 * Lxor(a / 2 + m, c / 2 + n)
  {
    LxorStep(a + 2 * m, c + 2 * n);
    assert (a + 2 * m) / 2 == a / 2 + m && (c + 2 * n) / 2 == c / 2 + n;
  }

  lemma DoubleWeight(b: int, k: nat)
    requires k > 0 && b >= 0
    ensures b * Pow(2, k - 1) >= 0 && b * Pow(2, k) == 2 * (b * Pow(2, k - 1))
  {
    PowPositive(2, k - 1);
    MulMonotone(0, b, Pow(2, k - 1));
  }

  /** Exclusive or acts on the low k bits and on the rest separately. */
  lemma {:induction false} LxorSplit(a: int, b: int, c: int, d: int, k: nat)
    requires 0 <= a < Pow(2, k) && 0 <= c < Pow(2, k) && b >= 0 && d >= 0
    ensures Lxor(a + b * Pow(2, k), c + d * Pow(2, k)) == Lxor(a, c) + Lxor(b, d) * Pow(2, k)
    decreases k
  {
    if k == 0 {
      assert Lxor(0, 0) == 0;
    } else {
      LxorSign(b, d);
      DoubleWeight(b, k);
      DoubleWeight(d, k);
      DoubleWeight(Lxor(b, d), k);
      LxorDouble(a, b * Pow(2, k - 1), c, d * Pow(2, k - 1));
      LxorSplit(a / 2, b, c / 2, d, k - 1);
      LxorStep(a, c);
    }
  }

  /** Two exclusive ors on disjoint bit ranges are one. */
  lemma LxorDisjoint(x: int, a: int, b: int, c: int, y: int, d: int, k: nat)
    requires 0 <= a < Pow(2, k) && 0 <= c < Pow(2, k) && b >= 0 && d >= 0
    requires x == a + b * Pow(2, k) && y == d * Pow(2, k)
    ensures Lxor(Lxor(x, c), y) == Lxor(x, c + y)
  {
    var w, e := Pow(2, k), Lxor(a, c);
    LxorSplit(a, b, c, 0, k);
    LxorZero(b);
    assert Lxor(x, c) == e + b * w;
    LxorBelow(a, c, k);
    LxorSplit(e, b, 0, d, k);
    LxorZero(e);
    assert Lxor(e + b * w, y) == e + Lxor(b, d) * w;
    LxorSplit(a, b, c, d, k);
  }

  /** `(((a lxor b) - 1) lsr 62) land 1` */
  function EqualSmall(a: int, b: int): (r: int)
    requires 0 <= a < Pow(2, 61) && 0 <= b < Pow(2, 61)
    ensures r == if a == b then 1 else 0
  {
    LxorIsZero(a, b);
    LxorBelow(a, b, 61);
    WordPowers();
    TopBit(Lxor(a, b) - 1);
    Land(Lsr63(Lxor(a, b) - 1, 62), 1)
  }

  lemma TopBit(x: int)
    requires -1 <= x < 0x2000_0000_0000_0000
    ensures Land(Lsr63(x, 62), 1) == if x < 0 then 1 else 0
  {
    WordPowers();
  }

  lemma WordPowers()
    ensures Pow(2, 8) == 0x100 && Pow(2, 28) == 0x1000_0000 && Pow(2, 61) == 0x2000_0000_0000_0000
    ensures Pow(2, 32) == 0x1_0000_0000 && Pow(2, 62) == 0x4000_0000_0000_0000
  {
    assert Pow(2, 8) == 0x100;
    assert Pow(2, 16) == 0x1_0000;
    assert Pow(2, 24) == 0x100_0000;
    assert Pow(2, 32) == 0x1_0000_0000;
    assert Pow(2, 40) == 0x100_0000_0000;
    assert Pow(2, 48) == 0x1_0000_0000_0000;
    assert Pow(2, 56) == 0x100_0000_0000_0000;
  }

  // ---------------------------------------------------------------- bits

  type Binary = b: int | 0 <= b <= 1

  function PlainBit(x: int, i: nat): Binary
    decreases i
  {
    if i == 0 then x % 2 else PlainBit(x / 2, i - 1)
  }

  /** A guard, as Prime448.Value: bits are unfolded only where a proof asserts Place. */
  predicate Place(x: int, i: nat) {
    i <= i + x * x
  }

  ghost predicate ReadsBits(f: (int, nat) -> Binary) {
    forall x: int, i: nat {:trigger Place(x, i)} :: Place(x, i) ==> f(x, i) == if i == 0 then x % 2 else f(x / 2, i - 1)
  }

  type BitReader = f: (int, nat) -> Binary | ReadsBits(f) witness PlainBit

  const BITS: BitReader

  /** Bit i of x. */
  function Bit(x: int, i: nat): Binary {
    BITS(x, i)
  }

  lemma LowBit(x: int)
    ensures Bit(x, 0) == x % 2
  {
    assert Place(x, 0);
  }

  lemma BitNext(x: int, i: nat)
    ensures Bit(x, i + 1) == Bit(x / 2, i)
  {
    assert Place(x, i + 1);
  }

  lemma {:induction false} BitMeans(x: nat, i: nat)
    ensures Pow(2, i) > 0 && Bit(x, i) == x / Pow(2, i) % 2
    decreases i
  {
    PowPositive(2, i);
    if i == 0 {
      LowBit(x);
    } else {
      BitNext(x, i - 1);
      BitMeans(x / 2, i - 1);
      DivideTwice(x, 2, Pow(2, i - 1));
    }
  }

  /** A number joined from a bit and the rest. */
  lemma BitJoined(c: int, rest: nat, i: nat)
    requires 0 <= c <= 1
    ensures Bit(c + 2 * rest, i) == if i == 0 then c else Bit(rest, i - 1)
  {
    if i == 0 {
      LowBit(c + 2 * rest);
    } else {
      BitNext(c + 2 * rest, i - 1);
      assert (c + 2 * rest) / 2 == rest;
    }
  }

  lemma {:induction false} BitOfZero(i: nat)
    ensures Bit(0, i) == 0
  {
    if i == 0 {
      LowBit(0);
    } else {
      BitNext(0, i - 1);
      BitOfZero(i - 1);
    }
  }

  lemma {:induction false} LandBit(a: nat, b: nat, i: nat)
    ensures Land(a, b) >= 0 && Bit(Land(a, b), i) == Bit(a, i) * Bit(b, i)
    decreases i
  {
    LandBelow(a, b);
    LandBelow(a / 2, b / 2);
    BitOfZero(i);
    if a > 0 {
      BitJoined((a % 2) * (b % 2), Land(a / 2, b / 2), i);
      if i > 0 {
        LandBit(a / 2, b / 2, i - 1);
        BitNext(a, i - 1);
        BitNext(b, i - 1);
      } else {
        LowBit(a);
        LowBit(b);
      }
    }
  }

  lemma {:induction false} LorBit(a: nat, b: nat, i: nat)
    ensures Lor(a, b) >= 0 && Bit(Lor(a, b), i) == if Bit(a, i) == 1 || Bit(b, i) == 1 then 1 else 0
    decreases i
  {
    LorIsZero(a, b);
    LorIsZero(a / 2, b / 2);
    BitOfZero(i);
    if a > 0 {
      BitJoined(if a % 2 == 1 || b % 2 == 1 then 1 else 0, Lor(a / 2, b / 2), i);
      if i > 0 {
        LorBit(a / 2, b / 2, i - 1);
        BitNext(a, i - 1);
        BitNext(b, i - 1);
      } else {
        LowBit(a);
        LowBit(b);
      }
    }
  }

  lemma SumParity(a: int, b: int)
    ensures (a + b) % 2 == (a % 2 + b % 2) % 2
  {
  }

  lemma XorBitJoined(a: nat, b: nat, x: int, rest: nat, i: nat)
    requires x == (a + b) % 2 + 2 * rest
    requires i > 0 ==> Bit(rest, i - 1) == (Bit(a / 2, i - 1) + Bit(b / 2, i - 1)) % 2
    ensures Bit(x, i) == (Bit(a, i) + Bit(b, i)) % 2
  {
    BitJoined((a + b) % 2, rest, i);
    if i == 0 {
      LowBit(a);
      LowBit(b);
      SumParity(a, b);
    } else {
      BitNext(a, i - 1);
      BitNext(b, i - 1);
    }
  }

  lemma LxorPositive(a: nat, b: nat)
    ensures Lxor(a, b) >= 0
  {
    LxorSign(a, b);
  }

  lemma {:induction false} LxorBit(a: nat, b: nat, i: nat)
    ensures Lxor(a, b) >= 0 && Bit(Lxor(a, b), i) == (Bit(a, i) + Bit(b, i)) % 2
    decreases i
  {
    LxorPositive(a, b);
    LxorPositive(a / 2, b / 2);
    LxorStep(a, b);
    if i > 0 {
      LxorBit(a / 2, b / 2, i - 1);
    }
    XorBitJoined(a, b, Lxor(a, b), Lxor(a / 2, b / 2), i);
  }
}
