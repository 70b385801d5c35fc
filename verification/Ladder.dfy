/** The Montgomery ladder of RFC 7748, section 5. The field operations are parameters: which
    ladder step is computed, and when registers are swapped, does not depend on them. */
module Ladder {
  import opened Radix

  datatype Ops = Ops(add: (int, int) -> int, sub: (int, int) -> int, mul: (int, int) -> int)

  /** The registers (x_2 : z_2) and (x_3 : z_3). */
  datatype Registers = Registers(x2: int, z2: int, x3: int, z3: int)

  const A24: int := 39081

  /** One step, with the names of RFC 7748: doubles the first point, adds the second to it. */
  function Step(o: Ops, x1: int, s: Registers): Registers {
    var a, b := o.add(s.x2, s.z2), o.sub(s.x2, s.z2);
    var aa, bb := o.mul(a, a), o.mul(b, b);
    var e := o.sub(aa, bb);
    var c, d := o.add(s.x3, s.z3), o.sub(s.x3, s.z3);
    var da, cb := o.mul(d, a), o.mul(c, b);
    Registers(o.mul(aa, bb), o.mul(e, o.add(aa, o.mul(e, A24))),
              o.mul(o.add(da, cb), o.add(da, cb)), o.mul(x1, o.mul(o.sub(da, cb), o.sub(da, cb))))
  }

  function Swapped(s: Registers): Registers {
    Registers(s.x3, s.z3, s.x2, s.z2)
  }

  function SwapIf(s: Registers, bit: int): Registers {
    if bit == 1 then Swapped(s) else s
  }

  predicate IsBits(bits: seq<int>) {
    Digits(2, bits)
  }

  function Initial(x1: int): Registers {
    Registers(1, 0, x1, 1)
  }

  /** The textbook ladder after bits |bits| - 1 down to t: a set bit works on the pair in the
      other order. */
  function Textbook(o: Ops, x1: int, bits: seq<int>, t: nat): Registers
    requires t <= |bits|
    decreases |bits| - t
  {
    if t == |bits| then Initial(x1)
    else
      var s := Textbook(o, x1, bits, t + 1);
      if bits[t] == 1 then Swapped(Step(o, x1, Swapped(s))) else Step(o, x1, s)
  }

  /** Exclusive or of two bits. */
  function Flip(a: int, b: int): (r: int)
    requires 0 <= a <= 1 && 0 <= b <= 1
    ensures 0 <= r <= 1
  {
    (a + b) % 2
  }

  lemma SwapTwice(s: Registers, a: int, b: int)
    requires 0 <= a <= 1 && 0 <= b <= 1
    ensures SwapIf(SwapIf(s, a), Flip(a, b)) == SwapIf(s, b)
  {
  }

  /** Putting off the swap: one conditional swap per step by the exclusive or of neighbouring
      bits leaves the textbook pair, physically swapped exactly when the last bit was 1. */
  lemma DeferredStep(o: Ops, x1: int, bits: seq<int>, t: nat, s: Registers, swap: int)
    requires t < |bits| && IsBits(bits) && 0 <= swap <= 1
    requires s == SwapIf(Textbook(o, x1, bits, t + 1), swap)
    ensures Step(o, x1, SwapIf(s, Flip(swap, bits[t]))) == SwapIf(Textbook(o, x1, bits, t), bits[t])
  {
    SwapTwice(Textbook(o, x1, bits, t + 1), swap, bits[t]);
  }

  // ---------------------------------------------------------------- what the ladder computes

  /** rep(n, x, z): (x : z) is the u-coordinate of n P. */
  ghost predicate DifferentialAt(rep: (nat, int, int) -> bool, o: Ops, x1: int, n: nat, m: nat, s: Registers) {
    (m == n + 1 || n == m + 1) && rep(n, s.x2, s.z2) && rep(m, s.x3, s.z3) ==>
      var r := Step(o, x1, s);
      rep(2 * n, r.x2, r.z2) && rep(n + m, r.x3, r.z3)
  }

  /** The step is doubling and differential addition of multiples of P that differ by P, whose
      u-coordinate is x1. MontgomeryLadder.StepIsDifferential proves it of Curve448. */
  ghost predicate Differential(rep: (nat, int, int) -> bool, o: Ops, x1: int) {
    && rep(0, 1, 0) && rep(1, x1, 1)
    && forall n: nat, m: nat, s: Registers :: DifferentialAt(rep, o, x1, n, m, s)
  }

  /** The registers always hold m P and (m + 1) P, where m is the number read so far. */
  lemma {:induction false} LadderInvariant(rep: (nat, int, int) -> bool, o: Ops, x1: int, bits: seq<int>, t: nat)
    requires Differential(rep, o, x1) && IsBits(bits) && t <= |bits|
    ensures Val(2, bits[t..]) >= 0
    ensures var s, m := Textbook(o, x1, bits, t), Val(2, bits[t..]);
      rep(m, s.x2, s.z2) && rep(m + 1, s.x3, s.z3)
    decreases |bits| - t
  {
    if t == |bits| {
      assert bits[t..] == [];
    } else {
      LadderInvariant(rep, o, x1, bits, t + 1);
      var s, m := Textbook(o, x1, bits, t + 1), Val(2, bits[t + 1..]);
      ReadBit(bits, t);
      LadderAdvance(rep, o, x1, bits[t], s, m);
    }
  }

  lemma ReadBit(bits: seq<int>, t: nat)
    requires t < |bits|
    ensures Val(2, bits[t..]) == bits[t] + 2 * Val(2, bits[t + 1..])
  {
    assert bits[t..] == [bits[t]] + bits[t + 1..];
    ValCons(2, bits[t], bits[t + 1..]);
  }

  lemma LadderAdvance(rep: (nat, int, int) -> bool, o: Ops, x1: int, bit: int, s: Registers, m: nat)
    requires Differential(rep, o, x1) && 0 <= bit <= 1 && rep(m, s.x2, s.z2) && rep(m + 1, s.x3, s.z3)
    ensures var r := if bit == 1 then Swapped(Step(o, x1, Swapped(s))) else Step(o, x1, s);
      rep(2 * m + bit, r.x2, r.z2) && rep(2 * m + bit + 1, r.x3, r.z3)
  {
    if bit == 1 {
      assert DifferentialAt(rep, o, x1, m + 1, m, Swapped(s));
    } else {
      assert DifferentialAt(rep, o, x1, m, m + 1, s);
    }
  }

  // ---------------------------------------------------------------- the C step and loop

  /** One step with C's register reuse: z3, z2 and the temporaries hold several values in turn. */
  method NativeStep(o: Ops, x1: int, s: Registers) returns (r: Registers)
    ensures r == Step(o, x1, s)
  {
    var x2, z2, x3, z3 := s.x2, s.z2, s.x3, s.z3;
    var tmp0l := o.sub(x3, z3);
    var tmp1l := o.sub(x2, z2);
    var x2l := o.add(x2, z2);
    var z2l := o.add(x3, z3);
    z3 := o.mul(tmp0l, x2l);
    z2 := o.mul(z2l, tmp1l);
    var tmp0 := o.mul(tmp1l, tmp1l);
    var tmp1 := o.mul(x2l, x2l);
    var x3l := o.add(z3, z2);
    z2l := o.sub(z3, z2);
    x2 := o.mul(tmp1, tmp0);
    tmp1l := o.sub(tmp1, tmp0);
    z2 := o.mul(z2l, z2l);
    z3 := o.mul(tmp1l, A24);
    x3 := o.mul(x3l, x3l);
    tmp0l := o.add(tmp1, z3);
    z3 := o.mul(x1, z2);
    z2 := o.mul(tmp1l, tmp0l);
    r := Registers(x2, z2, x3, z3);
  }

  /** The C loop over a scalar's bits, and the last swap. */
  method NativeLadder(o: Ops, x1: int, bits: seq<int>) returns (s: Registers)
    requires IsBits(bits)
    ensures s == Textbook(o, x1, bits, 0)
  {
    s := Initial(x1);
    var swap, t := 0, |bits|;
    while t > 0
      invariant 0 <= t <= |bits| && 0 <= swap <= 1
      invariant s == SwapIf(Textbook(o, x1, bits, t), swap)
    {
      t := t - 1;
      var b := bits[t];
      DeferredStep(o, x1, bits, t, s, swap);
      s := SwapIf(s, Flip(swap, b));
      swap := b;
      s := NativeStep(o, x1, s);
    }
    s := SwapIf(s, swap);
  }
}
