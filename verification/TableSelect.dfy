/** Masked table selection: the sign and magnitude of a digit, the eight masks, and the limb
    they pick out of eight table entries that are all read. */
module TableSelect {
  import opened Arith
  import opened Words

  /** `(digit asr 62) land 1` and `(digit lxor -negative) + negative` */
  method SignMagnitude(digit: int) returns (negative: int, magnitude: int)
    requires -8 <= digit <= 8
    ensures negative == (if digit < 0 then 1 else 0) && magnitude == (if digit < 0 then -digit else digit)
  {
    LxorOnes(digit);
    LxorZero(digit);
    negative := Land(digit / 0x4000_0000_0000_0000, 1);
    magnitude := Lxor(digit, -negative) + negative;
  }

  /** `-equal_small magnitude n`: all ones when the magnitude is n, no bits otherwise. */
  method Mask(magnitude: int, n: int) returns (m: int)
    requires 0 <= magnitude <= 8 && 0 <= n <= 8
    ensures m == if magnitude == n then -1 else 0
  {
    WordPowers();
    m := -EqualSmall(magnitude, n);
  }

  /** The or of eight masked limbs, `stride` apart. */
  function Pick(tbl: seq<int>, o: nat, stride: nat,
                m0: int, m1: int, m2: int, m3: int, m4: int, m5: int, m6: int, m7: int): int
    requires o + 7 * stride < |tbl|
  {
    Lor(Lor(Lor(Lor(Lor(Lor(Lor(
      Land(tbl[o], m0),
      Land(tbl[o + stride], m1)),
      Land(tbl[o + 2 * stride], m2)),
      Land(tbl[o + 3 * stride], m3)),
      Land(tbl[o + 4 * stride], m4)),
      Land(tbl[o + 5 * stride], m5)),
      Land(tbl[o + 6 * stride], m6)),
      Land(tbl[o + 7 * stride], m7))
  }

  lemma LorStep(a: int, v: int)
    requires a == 0 || v == 0
    ensures Lor(a, v) == if a == 0 then v else a
  {
    LorZero(a);
  }

  /** An or of eight values of which only one can be non-zero. */
  lemma OrOfOne(v0: int, v1: int, v2: int, v3: int, v4: int, v5: int, v6: int, v7: int, t: int, k: int)
    requires v0 == (if k == 1 then t else 0) && v1 == (if k == 2 then t else 0)
    requires v2 == (if k == 3 then t else 0) && v3 == (if k == 4 then t else 0)
    requires v4 == (if k == 5 then t else 0) && v5 == (if k == 6 then t else 0)
    requires v6 == (if k == 7 then t else 0) && v7 == (if k == 8 then t else 0)
    ensures Lor(Lor(Lor(Lor(Lor(Lor(Lor(v0, v1), v2), v3), v4), v5), v6), v7) == if 1 <= k <= 8 then t else 0
  {
    LorStep(v0, v1);
    var a := Lor(v0, v1);
    LorStep(a, v2);
    var b := Lor(a, v2);
    LorStep(b, v3);
    var c := Lor(b, v3);
    LorStep(c, v4);
    var d := Lor(c, v4);
    LorStep(d, v5);
    var e := Lor(d, v5);
    LorStep(e, v6);
    var f := Lor(e, v6);
    LorStep(f, v7);
  }

  lemma MaskedLimb(x: int, m: int, magnitude: int, n: int)
    requires m == (if magnitude == n then -1 else 0)
    ensures Land(x, m) == if magnitude == n then x else 0
  {
    LandMask(x);
  }

  /** With the masks of a magnitude, `Pick` returns that entry's limb, and 0 for magnitude 0. */
  lemma PickSelects(tbl: seq<int>, o: nat, stride: nat, k: int,
                    m0: int, m1: int, m2: int, m3: int, m4: int, m5: int, m6: int, m7: int)
    requires 0 <= k <= 8 && o + 7 * stride < |tbl|
    requires m0 == (if k == 1 then -1 else 0) && m1 == (if k == 2 then -1 else 0)
    requires m2 == (if k == 3 then -1 else 0) && m3 == (if k == 4 then -1 else 0)
    requires m4 == (if k == 5 then -1 else 0) && m5 == (if k == 6 then -1 else 0)
    requires m6 == (if k == 7 then -1 else 0) && m7 == (if k == 8 then -1 else 0)
    ensures k > 0 ==> 0 <= (k - 1) * stride <= 7 * stride
    ensures Pick(tbl, o, stride, m0, m1, m2, m3, m4, m5, m6, m7) == if k == 0 then 0 else tbl[o + (k - 1) * stride]
  {
    EntryOffset(k, stride);
    var t := if k == 0 then 0 else tbl[o + (k - 1) * stride];
    MaskedLimb(tbl[o], m0, k, 1);
    MaskedLimb(tbl[o + stride], m1, k, 2);
    MaskedLimb(tbl[o + 2 * stride], m2, k, 3);
    MaskedLimb(tbl[o + 3 * stride], m3, k, 4);
    MaskedLimb(tbl[o + 4 * stride], m4, k, 5);
    MaskedLimb(tbl[o + 5 * stride], m5, k, 6);
    MaskedLimb(tbl[o + 6 * stride], m6, k, 7);
    MaskedLimb(tbl[o + 7 * stride], m7, k, 8);
    OrOfOne(Land(tbl[o], m0), Land(tbl[o + stride], m1), Land(tbl[o + 2 * stride], m2), Land(tbl[o + 3 * stride], m3),
            Land(tbl[o + 4 * stride], m4), Land(tbl[o + 5 * stride], m5), Land(tbl[o + 6 * stride], m6),
            Land(tbl[o + 7 * stride], m7), t, k);
  }

  lemma EntryOffset(k: int, stride: nat)
    requires 0 <= k <= 8
    ensures k > 0 ==> 0 <= (k - 1) * stride <= 7 * stride
  {
    if k > 0 {
      MulMonotone(0, k - 1, stride);
      MulMonotone(k - 1, 7, stride);
    }
  }

  /** The sixteen limbs of one coordinate of the selected entry. */
  function Picked(tbl: seq<int>, start: nat, stride: nat, magnitude: int): (r: seq<int>)
    requires 0 <= magnitude <= 8 && start + 7 * stride + 16 <= |tbl|
    ensures |r| == 16
  {
    if magnitude == 0 then seq(16, _ => 0)
    else
      EntryOffset(magnitude, stride);
      tbl[start + (magnitude - 1) * stride..start + (magnitude - 1) * stride + 16]
  }

  method PickLimb(tbl: seq<int>, o: nat, stride: nat, ghost k: int,
                  m0: int, m1: int, m2: int, m3: int, m4: int, m5: int, m6: int, m7: int) returns (limb: int)
    requires 0 <= k <= 8 && o + 7 * stride < |tbl|
    requires m0 == (if k == 1 then -1 else 0) && m1 == (if k == 2 then -1 else 0)
    requires m2 == (if k == 3 then -1 else 0) && m3 == (if k == 4 then -1 else 0)
    requires m4 == (if k == 5 then -1 else 0) && m5 == (if k == 6 then -1 else 0)
    requires m6 == (if k == 7 then -1 else 0) && m7 == (if k == 8 then -1 else 0)
    ensures k > 0 ==> 0 <= (k - 1) * stride <= 7 * stride
    ensures limb == if k == 0 then 0 else tbl[o + (k - 1) * stride]
  {
    PickSelects(tbl, o, stride, k, m0, m1, m2, m3, m4, m5, m6, m7);
    limb := Pick(tbl, o, stride, m0, m1, m2, m3, m4, m5, m6, m7);
  }

  /** Picking limb by limb, every entry read and masked. */
  method PickLimbs(tbl: seq<int>, start: nat, stride: nat, magnitude: int) returns (r: seq<int>)
    requires 0 <= magnitude <= 8 && start + 7 * stride + 16 <= |tbl|
    ensures r == Picked(tbl, start, stride, magnitude)
  {
    var m0 := Mask(magnitude, 1);
    var m1 := Mask(magnitude, 2);
    var m2 := Mask(magnitude, 3);
    var m3 := Mask(magnitude, 4);
    var m4 := Mask(magnitude, 5);
    var m5 := Mask(magnitude, 6);
    var m6 := Mask(magnitude, 7);
    var m7 := Mask(magnitude, 8);
    r := [];
    for i := 0 to 16
      invariant r == Picked(tbl, start, stride, magnitude)[..i]
    {
      var limb := PickLimb(tbl, start + i, stride, magnitude, m0, m1, m2, m3, m4, m5, m6, m7);
      r := r + [limb];
    }
  }
}
