/** One round of Keccak-f[1600] (FIPS 202, section 3), computed by the C code's in-place walk and
    by the OCaml code's unrolled locals. Neither proof looks inside the word operations, so the
    two agree for any exclusive or, and-not and rotation, the 64-bit ones among them. */
module Keccak {
  datatype Ops = Ops(xor: (int, int) -> int, andNot: (int, int) -> int, rotl: (int, int) -> int)

  predicate Lanes(l: seq<int>) {
    |l| == 25
  }

  // ---------------------------------------------------------------- the round, from FIPS 202

  /** C[x]: the column parity. */
  function Parity(o: Ops, l: seq<int>, x: nat): int
    requires Lanes(l) && x < 5
  {
    o.xor(o.xor(o.xor(o.xor(l[x], l[x + 5]), l[x + 10]), l[x + 15]), l[x + 20])
  }

  /** D[x] = C[x - 1] xor rot(C[x + 1], 1) */
  function Effect(o: Ops, l: seq<int>, x: nat): int
    requires Lanes(l) && x < 5
  {
    o.xor(Parity(o, l, (x + 4) % 5), o.rotl(Parity(o, l, (x + 1) % 5), 1))
  }

  function ThetaLane(o: Ops, l: seq<int>, i: nat): int
    requires Lanes(l) && i < 25
  {
    o.xor(l[i], Effect(o, l, i % 5))
  }

  function Theta(o: Ops, l: seq<int>): (r: seq<int>)
    requires Lanes(l)
    ensures Lanes(r)
  {
    seq(25, i requires 0 <= i < 25 => ThetaLane(o, l, i))
  }

  /** Rotation offsets of lane x + 5 y, modulo 64 (table 2 of FIPS 202). */
  const OFFSETS: seq<int> := [
    0, 1, 62, 28, 27,
    36, 44, 6, 55, 20,
    3, 10, 43, 25, 39,
    41, 45, 15, 21, 8,
    18, 2, 61, 56, 14]

  /** The lane that pi moves to i: A'[x, y] = A[x + 3 y, x]. */
  function Source(i: nat): (j: nat)
    requires i < 25
    ensures j < 25
  {
    (i % 5 + 3 * (i / 5)) % 5 + 5 * (i % 5)
  }

  function RhoPiLane(o: Ops, l: seq<int>, i: nat): int
    requires Lanes(l) && i < 25
  {
    if i == 0 then l[0] else o.rotl(l[Source(i)], OFFSETS[Source(i)])
  }

  function RhoPi(o: Ops, l: seq<int>): (r: seq<int>)
    requires Lanes(l)
    ensures Lanes(r)
  {
    seq(25, i requires 0 <= i < 25 => RhoPiLane(o, l, i))
  }

  /** Lane x + 5 y after chi. */
  function ChiLane(o: Ops, l: seq<int>, x: nat, y: nat): int
    requires Lanes(l) && x < 5 && y < 5
  {
    o.xor(l[5 * y + x], o.andNot(l[5 * y + (x + 1) % 5], l[5 * y + (x + 2) % 5]))
  }

  function Chi(o: Ops, l: seq<int>): (r: seq<int>)
    requires Lanes(l)
    ensures Lanes(r)
  {
    seq(25, i requires 0 <= i < 25 => ChiLane(o, l, i % 5, i / 5))
  }

  function Round(o: Ops, l: seq<int>, rc: int): (r: seq<int>)
    requires Lanes(l)
    ensures Lanes(r)
  {
    var c := Chi(o, RhoPi(o, Theta(o, l)));
    c[0 := o.xor(c[0], rc)]
  }

  /** The first n rounds. */
  function Rounds(o: Ops, l: seq<int>, rc: seq<int>, n: nat): (r: seq<int>)
    requires Lanes(l) && n <= |rc|
    ensures Lanes(r)
  {
    if n == 0 then l else Round(o, Rounds(o, l, rc, n - 1), rc[n - 1])
  }

  /** The guard of `After`, which keeps its rounds folded. */
  predicate Same(x: seq<int>, y: seq<int>) {
    x == y
  }

  /** x is the state after n rounds. */
  ghost predicate After(o: Ops, l: seq<int>, rc: seq<int>, n: nat, x: seq<int>) {
    && Lanes(l) && Lanes(x) && n <= |rc|
    && forall y: seq<int> {:trigger Same(x, y)} :: Same(x, y) ==> y == Rounds(o, l, rc, n)
  }

  lemma AfterNone(o: Ops, l: seq<int>, rc: seq<int>)
    requires Lanes(l)
    ensures After(o, l, rc, 0, l)
  {
  }

  lemma AfterNext(o: Ops, l: seq<int>, rc: seq<int>, n: nat, w: seq<int>)
    requires n < |rc| && After(o, l, rc, n, w)
    ensures After(o, l, rc, n + 1, Round(o, w, rc[n]))
  {
    assert Same(w, w);
  }

  /** The first n rounds read only the first n constants. */
  lemma {:induction false} EarlierRounds(o: Ops, l: seq<int>, rc: seq<int>, more: seq<int>, n: nat) returns (x: seq<int>)
    requires Lanes(l) && n <= |rc| && rc <= more
    ensures After(o, l, rc, n, x) && After(o, l, more, n, x)
    decreases n
  {
    if n == 0 {
      x := l;
      AfterNone(o, l, rc);
      AfterNone(o, l, more);
    } else {
      var w := EarlierRounds(o, l, rc, more, n - 1);
      x := Round(o, w, rc[n - 1]);
      AfterNext(o, l, rc, n - 1, w);
      AfterNext(o, l, more, n - 1, w);
    }
  }

  // ---------------------------------------------------------------- C: theta

  method NativeParities(o: Ops, st: array<int>) returns (bc: seq<int>)
    requires st.Length == 25
    ensures |bc| == 5 && forall x :: 0 <= x < 5 ==> bc[x] == Parity(o, st[..], x)
  {
    bc := [];
    for i := 0 to 5
      invariant |bc| == i && forall x :: 0 <= x < i ==> bc[x] == Parity(o, st[..], x)
    {
      bc := bc + [o.xor(o.xor(o.xor(o.xor(st[i], st[i + 5]), st[i + 10]), st[i + 15]), st[i + 20])];
    }
  }

  /** Columns below i have taken their effect. */
  predicate ThetaUpTo(o: Ops, l: seq<int>, m: seq<int>, i: nat)
    requires Lanes(l) && Lanes(m)
  {
    forall k :: 0 <= k < 25 ==> m[k] == if k % 5 < i then ThetaLane(o, l, k) else l[k]
  }

  lemma ThetaColumn(o: Ops, l: seq<int>, m: seq<int>, n: seq<int>, i: nat, t: int)
    requires Lanes(l) && Lanes(m) && Lanes(n) && i < 5 && ThetaUpTo(o, l, m, i) && t == Effect(o, l, i)
    requires forall k :: 0 <= k < 25 ==> n[k] == if k % 5 == i then o.xor(m[k], t) else m[k]
    ensures ThetaUpTo(o, l, n, i + 1)
  {
    forall k | 0 <= k < 25 ensures n[k] == if k % 5 < i + 1 then ThetaLane(o, l, k) else l[k] {
      if k % 5 == i {
        assert m[k] == l[k];
      }
    }
  }

  lemma ThetaDone(o: Ops, l: seq<int>, m: seq<int>)
    requires Lanes(l) && Lanes(m) && ThetaUpTo(o, l, m, 5)
    ensures m == Theta(o, l)
  {
  }

  method NativeTheta(o: Ops, st: array<int>)
    requires st.Length == 25
    modifies st
    ensures st[..] == Theta(o, old(st[..]))
  {
    ghost var l := st[..];
    var bc := NativeParities(o, st);
    for i := 0 to 5
      invariant ThetaUpTo(o, l, st[..], i)
    {
      ghost var before := st[..];
      var t := o.xor(bc[(i + 4) % 5], o.rotl(bc[(i + 1) % 5], 1));
      assert t == Effect(o, l, i);
      NativeColumn(o, st, i, t);
      ThetaColumn(o, l, before, st[..], i, t);
    }
    ThetaDone(o, l, st[..]);
  }

  /** `for (j = 0; j < 25; j += 5) st[j + i] ^= t` */
  method NativeColumn(o: Ops, st: array<int>, i: nat, t: int)
    requires st.Length == 25 && i < 5
    modifies st
    ensures forall k :: 0 <= k < 25 ==> st[k] == if k % 5 == i then o.xor(old(st[k]), t) else old(st[k])
  {
    for y := 0 to 5
      invariant forall k :: 0 <= k < 25 ==> st[k] == if k % 5 == i && k < 5 * y then o.xor(old(st[k]), t) else old(st[k])
    {
      st[5 * y + i] := o.xor(st[5 * y + i], t);
    }
  }

  // ---------------------------------------------------------------- C: the pi cycle

  const RHO: seq<int> := [1, 3, 6, 10, 15, 21, 28, 36, 45, 55, 2, 14, 27, 41, 56, 8, 25, 43, 62, 18, 39, 61, 20, 44]
  const PI: seq<int> := [10, 7, 11, 17, 18, 3, 5, 16, 8, 21, 24, 4, 15, 23, 19, 13, 12, 2, 20, 14, 22, 9, 6, 1]

  /** Where the value carried into step k came from. */
  function Carried(k: nat): int
    requires k <= 24
  {
    if k == 0 then 1 else PI[k - 1]
  }

  /** Rotation amounts are the triangular numbers, and the walk is (x, y) := (y, 2 x + 3 y). */
  lemma WalkTables(k: nat)
    requires k < 24
    ensures 0 < PI[k] < 25 && 0 < Carried(k) < 25
    ensures RHO[k] == ((k + 1) * (k + 2) / 2) % 64
    ensures PI[k] == Carried(k) / 5 + 5 * ((2 * (Carried(k) % 5) + 3 * (Carried(k) / 5)) % 5)
  {
    assert k < 8 || (8 <= k < 16) || k >= 16;
    assert k < 8 ==> k == 0 || k == 1 || k == 2 || k == 3 || k == 4 || k == 5 || k == 6 || k == 7;
    assert 8 <= k < 16 ==> k == 8 || k == 9 || k == 10 || k == 11 || k == 12 || k == 13 || k == 14 || k == 15;
    assert k >= 16 ==> k == 16 || k == 17 || k == 18 || k == 19 || k == 20 || k == 21 || k == 22 || k == 23;
  }

  /** Step k writes the lane whose source under pi it carries, rotated by that lane's offset. */
  lemma WalkStep(k: nat)
    requires k < 24
    ensures 0 < PI[k] < 25 && Source(PI[k]) == Carried(k) && OFFSETS[Carried(k)] == RHO[k]
  {
    assert k < 8 ==> k == 0 || k == 1 || k == 2 || k == 3 || k == 4 || k == 5 || k == 6 || k == 7;
    assert 8 <= k < 16 ==> k == 8 || k == 9 || k == 10 || k == 11 || k == 12 || k == 13 || k == 14 || k == 15;
    assert k >= 16 ==> k == 16 || k == 17 || k == 18 || k == 19 || k == 20 || k == 21 || k == 22 || k == 23;
  }

  /** The step that writes lane i, for every lane but 0. */
  const STEP: seq<int> := [0, 23, 17, 5, 11, 6, 22, 1, 8, 21, 0, 2, 16, 15, 19, 12, 7, 3, 4, 14, 18, 9, 20, 13, 10]

  lemma StepOf(i: nat)
    requires 0 < i < 25
    ensures 0 <= STEP[i] < 24 && PI[STEP[i]] == i
  {
    assert i < 9 ==> i == 1 || i == 2 || i == 3 || i == 4 || i == 5 || i == 6 || i == 7 || i == 8;
    assert 9 <= i < 17 ==> i == 9 || i == 10 || i == 11 || i == 12 || i == 13 || i == 14 || i == 15 || i == 16;
    assert i >= 17 ==> i == 17 || i == 18 || i == 19 || i == 20 || i == 21 || i == 22 || i == 23 || i == 24;
  }

  lemma StepUnique(k: nat)
    requires k < 24
    ensures 0 < PI[k] < 25 && STEP[PI[k]] == k
  {
    assert k < 8 ==> k == 0 || k == 1 || k == 2 || k == 3 || k == 4 || k == 5 || k == 6 || k == 7;
    assert 8 <= k < 16 ==> k == 8 || k == 9 || k == 10 || k == 11 || k == 12 || k == 13 || k == 14 || k == 15;
    assert k >= 16 ==> k == 16 || k == 17 || k == 18 || k == 19 || k == 20 || k == 21 || k == 22 || k == 23;
  }

  /** Lane i after n steps of the walk. */
  function Walked(o: Ops, l: seq<int>, n: nat, i: nat): int
    requires Lanes(l) && i < 25
  {
    if i > 0 && STEP[i] < n then RhoPi(o, l)[i] else l[i]
  }

  lemma WalkedStep(o: Ops, l: seq<int>, n: nat, i: nat)
    requires Lanes(l) && i < 25 && n < 24
    ensures 0 < PI[n] < 25
    ensures Walked(o, l, n + 1, i) == if i == PI[n] then o.rotl(l[Carried(n)], RHO[n]) else Walked(o, l, n, i)
    ensures Walked(o, l, n, PI[n]) == l[PI[n]]
  {
    WalkStep(n);
    StepUnique(n);
    if i > 0 {
      StepOf(i);
    }
  }

  /** rho and pi in place, carrying one lane around the 24-cycle. */
  method NativeRhoPi(o: Ops, st: array<int>)
    requires st.Length == 25
    modifies st
    ensures st[..] == RhoPi(o, old(st[..]))
  {
    ghost var l := st[..];
    var t := st[1];
    for n := 0 to 24
      invariant t == l[Carried(n)]
      invariant forall i :: 0 <= i < 25 ==> st[i] == Walked(o, l, n, i)
    {
      forall i | 0 <= i < 25
        ensures 0 < PI[n] < 25
        ensures Walked(o, l, n + 1, i) == if i == PI[n] then o.rotl(t, RHO[n]) else Walked(o, l, n, i)
        ensures Walked(o, l, n, PI[n]) == l[PI[n]]
      {
        WalkedStep(o, l, n, i);
      }
      var j := PI[n];
      var bc0 := st[j];
      st[j] := o.rotl(t, RHO[n]);
      t := bc0;
    }
    forall i | 0 <= i < 25 ensures st[i] == RhoPi(o, l)[i] {
      if i > 0 {
        StepOf(i);
      }
    }
  }

  // ---------------------------------------------------------------- C: chi, iota and the round

  /** chi on one row, through a copy of the row. */
  method NativeRow(o: Ops, st: array<int>, y: nat)
    requires st.Length == 25 && y < 5
    modifies st
    ensures forall k :: 0 <= k < 25 && !(5 * y <= k < 5 * y + 5) ==> st[k] == old(st[k])
    ensures forall x :: 0 <= x < 5 ==> st[5 * y + x] == ChiLane(o, old(st[..]), x, y)
  {
    ghost var l := st[..];
    var bc := CopyRow(st, y);
    for i := 0 to 5
      invariant forall k :: 0 <= k < 25 && !(5 * y <= k < 5 * y + i) ==> st[k] == l[k]
      invariant forall x :: 0 <= x < i ==> st[5 * y + x] == ChiLane(o, l, x, y)
    {
      st[5 * y + i] := o.xor(st[5 * y + i], o.andNot(bc[(i + 1) % 5], bc[(i + 2) % 5]));
    }
  }

  method CopyRow(st: array<int>, y: nat) returns (bc: seq<int>)
    requires st.Length == 25 && y < 5
    ensures |bc| == 5 && forall x :: 0 <= x < 5 ==> bc[x] == st[5 * y + x]
  {
    bc := [];
    for i := 0 to 5
      invariant |bc| == i && forall x :: 0 <= x < i ==> bc[x] == st[5 * y + x]
    {
      bc := bc + [st[5 * y + i]];
    }
  }

  method NativeChi(o: Ops, st: array<int>)
    requires st.Length == 25
    modifies st
    ensures st[..] == Chi(o, old(st[..]))
  {
    ghost var l := st[..];
    for y := 0 to 5
      invariant forall k :: 5 * y <= k < 25 ==> st[k] == l[k]
      invariant forall k :: 0 <= k < 5 * y ==> st[k] == Chi(o, l)[k]
    {
      ghost var before := st[..];
      NativeRow(o, st, y);
      forall k | 5 * y <= k < 5 * y + 5 ensures st[k] == Chi(o, l)[k] {
        RowAlone(o, l, before, k - 5 * y, y);
        assert st[5 * y + (k - 5 * y)] == ChiLane(o, before, k - 5 * y, y);
      }
    }
  }

  /** Row y of chi depends on row y alone. */
  lemma RowAlone(o: Ops, l: seq<int>, m: seq<int>, x: nat, y: nat)
    requires Lanes(l) && Lanes(m) && x < 5 && y < 5
    requires forall k :: 5 * y <= k < 25 ==> m[k] == l[k]
    ensures ChiLane(o, m, x, y) == Chi(o, l)[5 * y + x]
  {
    assert (5 * y + x) % 5 == x && (5 * y + x) / 5 == y;
  }

  /** `keccak_f1600`: every round in place. */
  method NativePermute(o: Ops, st: array<int>, rc: seq<int>)
    requires st.Length == 25
    modifies st
    ensures st[..] == Rounds(o, old(st[..]), rc, |rc|)
  {
    for round := 0 to |rc|
      invariant st[..] == Rounds(o, old(st[..]), rc, round)
    {
      NativeTheta(o, st);
      NativeRhoPi(o, st);
      NativeChi(o, st);
      ghost var c := st[..];
      st[0] := o.xor(st[0], rc[round]);
      assert st[..] == c[0 := o.xor(c[0], rc[round])];
    }
  }

  // ---------------------------------------------------------------- OCaml: the unrolled round

  /** The five column effects. */
  method UnrolledEffects(o: Ops, l: seq<int>) returns (d: seq<int>)
    requires Lanes(l)
    ensures |d| == 5 && forall x :: 0 <= x < 5 ==> d[x] == Effect(o, l, x)
  {
    var c0 := o.xor(o.xor(o.xor(o.xor(l[0], l[5]), l[10]), l[15]), l[20]);
    var c1 := o.xor(o.xor(o.xor(o.xor(l[1], l[6]), l[11]), l[16]), l[21]);
    var c2 := o.xor(o.xor(o.xor(o.xor(l[2], l[7]), l[12]), l[17]), l[22]);
    var c3 := o.xor(o.xor(o.xor(o.xor(l[3], l[8]), l[13]), l[18]), l[23]);
    var c4 := o.xor(o.xor(o.xor(o.xor(l[4], l[9]), l[14]), l[19]), l[24]);
    var d0 := o.xor(c4, o.rotl(c1, 1));
    var d1 := o.xor(c0, o.rotl(c2, 1));
    var d2 := o.xor(c1, o.rotl(c3, 1));
    var d3 := o.xor(c2, o.rotl(c4, 1));
    var d4 := o.xor(c3, o.rotl(c0, 1));
    d := [d0, d1, d2, d3, d4];
  }

  /** theta, rho and pi at once: every moved lane is rotated into its new name. */
  method UnrolledRhoPi(o: Ops, l: seq<int>, d: seq<int>) returns (b: seq<int>)
    requires Lanes(l) && |d| == 5 && forall x :: 0 <= x < 5 ==> d[x] == Effect(o, l, x)
    ensures b == RhoPi(o, Theta(o, l))
  {
    var b00 := o.xor(l[0], d[0]);
    var t10 := o.xor(l[1], d[1]);
    var b02 := o.rotl(t10, 1);
    var t20 := o.xor(l[2], d[2]);
    var b04 := o.rotl(t20, 62);
    var t30 := o.xor(l[3], d[3]);
    var b01 := o.rotl(t30, 28);
    var t40 := o.xor(l[4], d[4]);
    var b03 := o.rotl(t40, 27);
    var t01 := o.xor(l[5], d[0]);
    var b13 := o.rotl(t01, 36);
    var t11 := o.xor(l[6], d[1]);
    var b10 := o.rotl(t11, 44);
    var t21 := o.xor(l[7], d[2]);
    var b12 := o.rotl(t21, 6);
    var t31 := o.xor(l[8], d[3]);
    var b14 := o.rotl(t31, 55);
    var t41 := o.xor(l[9], d[4]);
    var b11 := o.rotl(t41, 20);
    var t02 := o.xor(l[10], d[0]);
    var b21 := o.rotl(t02, 3);
    var t12 := o.xor(l[11], d[1]);
    var b23 := o.rotl(t12, 10);
    var t22 := o.xor(l[12], d[2]);
    var b20 := o.rotl(t22, 43);
    var t32 := o.xor(l[13], d[3]);
    var b22 := o.rotl(t32, 25);
    var t42 := o.xor(l[14], d[4]);
    var b24 := o.rotl(t42, 39);
    var t03 := o.xor(l[15], d[0]);
    var b34 := o.rotl(t03, 41);
    var t13 := o.xor(l[16], d[1]);
    var b31 := o.rotl(t13, 45);
    var t23 := o.xor(l[17], d[2]);
    var b33 := o.rotl(t23, 15);
    var t33 := o.xor(l[18], d[3]);
    var b30 := o.rotl(t33, 21);
    var t43 := o.xor(l[19], d[4]);
    var b32 := o.rotl(t43, 8);
    var t04 := o.xor(l[20], d[0]);
    var b42 := o.rotl(t04, 18);
    var t14 := o.xor(l[21], d[1]);
    var b44 := o.rotl(t14, 2);
    var t24 := o.xor(l[22], d[2]);
    var b41 := o.rotl(t24, 61);
    var t34 := o.xor(l[23], d[3]);
    var b43 := o.rotl(t34, 56);
    var t44 := o.xor(l[24], d[4]);
    var b40 := o.rotl(t44, 14);
    b := [b00, b10, b20, b30, b40,
         b01, b11, b21, b31, b41,
         b02, b12, b22, b32, b42,
         b03, b13, b23, b33, b43,
         b04, b14, b24, b34, b44];
    ghost var r := RhoPi(o, Theta(o, l));
    assert r[0] == b00;
    Moved(o, l, d, r, 1, 6, 44);
    Moved(o, l, d, r, 2, 12, 43);
    Moved(o, l, d, r, 3, 18, 21);
    Moved(o, l, d, r, 4, 24, 14);
    Moved(o, l, d, r, 5, 3, 28);
    Moved(o, l, d, r, 6, 9, 20);
    Moved(o, l, d, r, 7, 10, 3);
    Moved(o, l, d, r, 8, 16, 45);
    Moved(o, l, d, r, 9, 22, 61);
    Moved(o, l, d, r, 10, 1, 1);
    Moved(o, l, d, r, 11, 7, 6);
    Moved(o, l, d, r, 12, 13, 25);
    Moved(o, l, d, r, 13, 19, 8);
    Moved(o, l, d, r, 14, 20, 18);
    Moved(o, l, d, r, 15, 4, 27);
    Moved(o, l, d, r, 16, 5, 36);
    Moved(o, l, d, r, 17, 11, 10);
    Moved(o, l, d, r, 18, 17, 15);
    Moved(o, l, d, r, 19, 23, 56);
    Moved(o, l, d, r, 20, 2, 62);
    Moved(o, l, d, r, 21, 8, 55);
    Moved(o, l, d, r, 22, 14, 39);
    Moved(o, l, d, r, 23, 15, 41);
    Moved(o, l, d, r, 24, 21, 2);
    LaneByLane(b, r);
  }

  /** Lane j, with its column effect, rotated by n into place i. */
  lemma Moved(o: Ops, l: seq<int>, d: seq<int>, r: seq<int>, i: nat, j: nat, n: int)
    requires Lanes(l) && |d| == 5 && forall x :: 0 <= x < 5 ==> d[x] == Effect(o, l, x)
    requires r == RhoPi(o, Theta(o, l)) && 0 < i < 25 && j == Source(i) && n == OFFSETS[j]
    ensures r[i] == o.rotl(o.xor(l[j], d[j % 5]), n)
  {
  }

  lemma LaneByLane(a: seq<int>, b: seq<int>)
    requires Lanes(a) && Lanes(b)
    requires a[0] == b[0] && a[1] == b[1] && a[2] == b[2] && a[3] == b[3] && a[4] == b[4]
    requires a[5] == b[5] && a[6] == b[6] && a[7] == b[7] && a[8] == b[8] && a[9] == b[9]
    requires a[10] == b[10] && a[11] == b[11] && a[12] == b[12] && a[13] == b[13] && a[14] == b[14]
    requires a[15] == b[15] && a[16] == b[16] && a[17] == b[17] && a[18] == b[18] && a[19] == b[19]
    requires a[20] == b[20] && a[21] == b[21] && a[22] == b[22] && a[23] == b[23] && a[24] == b[24]
    ensures a == b
  {
    assert forall i :: 0 <= i < 5 ==> a[i] == b[i];
    assert forall i :: 5 <= i < 10 ==> a[i] == b[i];
    assert forall i :: 10 <= i < 15 ==> a[i] == b[i];
    assert forall i :: 15 <= i < 20 ==> a[i] == b[i];
    assert forall i :: 20 <= i < 25 ==> a[i] == b[i];
  }

  /** chi on the five named lanes of a row. */
  method UnrolledRow(o: Ops, b: seq<int>, y: nat) returns (r: seq<int>)
    requires Lanes(b) && y < 5
    ensures |r| == 5 && forall x :: 0 <= x < 5 ==> r[x] == ChiLane(o, b, x, y)
  {
    var b0, b1, b2, b3, b4 := b[5 * y], b[5 * y + 1], b[5 * y + 2], b[5 * y + 3], b[5 * y + 4];
    r := [o.xor(b0, o.andNot(b1, b2)), o.xor(b1, o.andNot(b2, b3)), o.xor(b2, o.andNot(b3, b4)),
          o.xor(b3, o.andNot(b4, b0)), o.xor(b4, o.andNot(b0, b1))];
  }

  /** chi and iota from the named lanes. */
  method UnrolledChi(o: Ops, b: seq<int>, rc: int) returns (s: seq<int>)
    requires Lanes(b)
    ensures s == Chi(o, b)[0 := o.xor(Chi(o, b)[0], rc)]
  {
    ghost var c := Chi(o, b);
    s := [];
    for y := 0 to 5
      invariant s == c[..5 * y]
    {
      var r := UnrolledRow(o, b, y);
      forall x | 0 <= x < 5 ensures r[x] == c[5 * y + x] {
        RowAlone(o, b, b, x, y);
      }
      assert c[..5 * y + 5] == c[..5 * y] + r;
      s := s + r;
    }
    s := s[0 := o.xor(s[0], rc)];
  }

  /** One round of `permute` on loaded lanes. */
  method UnrolledRound(o: Ops, l: seq<int>, rc: int) returns (r: seq<int>)
    requires Lanes(l)
    ensures r == Round(o, l, rc)
  {
    var d := UnrolledEffects(o, l);
    var b := UnrolledRhoPi(o, l, d);
    r := UnrolledChi(o, b, rc);
  }
}
