/** What the 64-bit word operations do to each bit, and one round of the two permutations bit by
    bit, as section 3.2 of FIPS 202 writes its five steps. Bit z of lane x + 5 y is A[x, y, z]. */
module KeccakBits {
  import opened Arith
  import opened Radix
  import opened Words
  import opened Sponge
  import opened NativeShake
  import opened KeccakState
  import K = Keccak

  // ---------------------------------------------------------------- shifts and complements

  lemma {:induction false} ComplementBit(a: nat, k: nat, i: nat)
    requires a < Pow(2, k) && i < k
    ensures Bit(Pow(2, k) - 1 - a, i) == 1 - Bit(a, i)
    decreases i
  {
    var c := Pow(2, k) - 1 - a;
    if i == 0 {
      LowBit(a);
      LowBit(c);
    } else {
      BitNext(a, i - 1);
      BitNext(c, i - 1);
      assert c / 2 == Pow(2, k - 1) - 1 - a / 2;
      ComplementBit(a / 2, k - 1, i - 1);
    }
  }

  lemma {:induction false} ModuloBit(y: nat, k: nat, i: nat)
    requires i < k
    ensures Pow(2, k) > 0 && Bit(y % Pow(2, k), i) == Bit(y, i)
    decreases i
  {
    PowPositive(2, k);
    PowPositive(2, k - 1);
    HalfModulo(y, Pow(2, k - 1));
    if i == 0 {
      LowBit(y);
      LowBit(y % Pow(2, k));
    } else {
      BitNext(y, i - 1);
      BitNext(y % Pow(2, k), i - 1);
      ModuloBit(y / 2, k - 1, i - 1);
    }
  }

  lemma {:induction false} ShiftLeftBit(x: nat, n: nat, i: nat)
    ensures x * Pow(2, n) >= 0 && Bit(x * Pow(2, n), i) == if i < n then 0 else Bit(x, i - n)
    decreases n
  {
    if n > 0 {
      ShiftLeftBit(x, n - 1, if i > 0 then i - 1 else 0);
      assert x * Pow(2, n) == 0 + 2 * (x * Pow(2, n - 1));
      BitJoined(0, x * Pow(2, n - 1), i);
    }
  }

  lemma {:induction false} ShiftRightBit(x: nat, m: nat, i: nat)
    ensures Pow(2, m) > 0 && Bit(x / Pow(2, m), i) == Bit(x, m + i)
    decreases m
  {
    PowPositive(2, m);
    if m > 0 {
      ShiftRightBit(x / 2, m - 1, i);
      BitNext(x, m + i - 1);
      DivideTwice(x, 2, Pow(2, m - 1));
    }
  }

  lemma {:induction false} NoHighBit(x: nat, k: nat, i: nat)
    requires x < Pow(2, k) && k <= i
    ensures Bit(x, i) == 0
    decreases k
  {
    if k == 0 {
      BitOfZero(i);
    } else {
      NoHighBit(x / 2, k - 1, i - 1);
      BitNext(x, i - 1);
    }
  }

  // ---------------------------------------------------------------- the word operations

  /** `(lnot a) land b` complements its first operand. */
  lemma AndNotBit(a: int, b: int, i: nat)
    requires Word(a) && Word(b) && i < 64
    ensures Bit(AndNot(a, b), i) == (1 - Bit(a, i)) * Bit(b, i)
  {
    LaneBits();
    ComplementBit(a, 64, i);
    LandBit(LANE - 1 - a, b, i);
  }

  lemma XorBits(a: int, b: int, i: nat)
    requires Word(a) && Word(b)
    ensures Bit(Lxor(a, b), i) == (Bit(a, i) + Bit(b, i)) % 2
  {
    LxorBit(a, b, i);
  }

  lemma LeftPart(x: nat, n: nat, i: nat)
    requires i < 64
    ensures x * Pow(2, n) % LANE >= 0
    ensures Bit(x * Pow(2, n) % LANE, i) == if i < n then 0 else Bit(x, i - n)
  {
    LaneBits();
    ShiftLeftBit(x, n, i);
    ModuloBit(x * Pow(2, n), 64, i);
  }

  lemma EitherBit(left: nat, right: nat, x: int, p: int, q: int, i: nat)
    requires x == Lor(left, right) && Bit(left, i) == p && Bit(right, i) == q
    ensures Bit(x, i) == if p == 1 || q == 1 then 1 else 0
  {
    LorBit(left, right, i);
  }

  lemma RightPart(x: nat, m: nat, i: nat)
    ensures Pow(2, m) > 0 && x / Pow(2, m) >= 0 && Bit(x / Pow(2, m), i) == Bit(x, m + i)
  {
    ShiftRightBit(x, m, i);
    QuotientPositive(x, Pow(2, m));
  }

  lemma QuotientPositive(x: nat, w: int)
    requires w > 0
    ensures x / w >= 0
  {
    if x / w < 0 {
      MulMonotone(x / w, -1, w);
    }
  }

  lemma RotlParts(x: int, n: nat, m: nat, i: nat)
    requires Word(x) && n < 64 && i < 64 && m == 64 - n
    ensures Bit(Rotl(x, n), i) == if (i >= n && Bit(x, i - n) == 1) || Bit(x, m + i) == 1 then 1 else 0
  {
    LeftPart(x, n, i);
    RightPart(x, m, i);
    EitherBit(x * Pow(2, n) % LANE, x / Pow(2, m), Rotl(x, n), if i < n then 0 else Bit(x, i - n), Bit(x, m + i), i);
  }

  lemma Wrapped(i: nat, n: nat)
    requires n < 64 && i < 64
    ensures (i - n) % 64 == if i >= n then i - n else 64 - n + i
  {
  }

  lemma RotlCases(x: int, n: nat, i: nat)
    requires Word(x) && n < 64 && i < 64
    ensures Bit(Rotl(x, n), i) == if i >= n then Bit(x, i - n) else Bit(x, 64 - n + i)
  {
    RotlParts(x, n, 64 - n, i);
    if i >= n {
      LaneBits();
      NoHighBit(x, 64, 64 - n + i);
    }
  }

  /** Rotation moves bit i - n to i. */
  lemma RotlBit(x: int, n: nat, i: nat)
    requires Word(x) && n < 64 && i < 64
    ensures Bit(Rotl(x, n), i) == Bit(x, (i - n) % 64)
  {
    Wrapped(i, n);
    RotlCases(x, n, i);
  }

  // ---------------------------------------------------------------- the steps

  lemma ModuloTwo(p: int, q: int)
    ensures (p % 2 + q) % 2 == (p + q) % 2 && (p + q % 2) % 2 == (p + q) % 2
  {
  }

  lemma XorWord(a: int, b: int, p: int, z: nat)
    requires Word(a) && Word(b) && Bit(a, z) == p % 2
    ensures Word(Lxor(a, b)) && Bit(Lxor(a, b), z) == (p + Bit(b, z)) % 2
  {
    LaneBits();
    LxorBelow(a, b, 64);
    XorBits(a, b, z);
    ModuloTwo(p, Bit(b, z));
  }

  lemma FiveXors(a: int, b: int, c: int, d: int, e: int, z: nat)
    requires Word(a) && Word(b) && Word(c) && Word(d) && Word(e)
    ensures var x := Lxor(Lxor(Lxor(Lxor(a, b), c), d), e);
      Word(x) && Bit(x, z) == (Bit(a, z) + Bit(b, z) + Bit(c, z) + Bit(d, z) + Bit(e, z)) % 2
  {
    var p := Bit(a, z) + Bit(b, z);
    XorWord(a, b, Bit(a, z), z);
    XorWord(Lxor(a, b), c, p, z);
    XorWord(Lxor(Lxor(a, b), c), d, p + Bit(c, z), z);
    XorWord(Lxor(Lxor(Lxor(a, b), c), d), e, p + Bit(c, z) + Bit(d, z), z);
  }

  lemma ParityBit(l: Lanes, x: nat, z: nat)
    requires x < 5 && z < 64
    ensures Word(K.Parity(WordOps(), l, x))
    ensures Bit(K.Parity(WordOps(), l, x), z)
         == (Bit(l[x], z) + Bit(l[5 + x], z) + Bit(l[10 + x], z) + Bit(l[15 + x], z) + Bit(l[20 + x], z)) % 2
  {
    assert Word(l[x]) && Word(l[5 + x]) && Word(l[10 + x]) && Word(l[15 + x]) && Word(l[20 + x]);
    FiveXors(l[x], l[5 + x], l[10 + x], l[15 + x], l[20 + x], z);
  }

  lemma EffectBit(l: Lanes, x: nat, z: nat)
    requires x < 5 && z < 64
    ensures Word(K.Effect(WordOps(), l, x))
    ensures var u, v := (x + 4) % 5, (x + 1) % 5;
      Bit(K.Effect(WordOps(), l, x), z)
      == (Bit(K.Parity(WordOps(), l, u), z) + Bit(K.Parity(WordOps(), l, v), (z - 1) % 64)) % 2
  {
    WordOpsClosed();
    EffectWord(WordOps(), l, x);
    ParityWord(WordOps(), l, (x + 4) % 5);
    ParityWord(WordOps(), l, (x + 1) % 5);
    var p, q := K.Parity(WordOps(), l, (x + 4) % 5), K.Parity(WordOps(), l, (x + 1) % 5);
    RotlWord(q, 1);
    RotlBit(q, 1, z);
    XorBits(p, Rotl(q, 1), z);
  }

  lemma ThetaSum(c: int, a: int, p: int, q: int)
    requires c == (a + (p % 2 + q % 2) % 2) % 2
    ensures c == (a + p + q) % 2
  {
  }

  lemma ThetaLaneBit(l: Lanes, i: nat, z: nat)
    requires i < 25 && z < 64
    ensures Bit(K.Theta(WordOps(), l)[i], z) == (Bit(l[i], z) + Bit(K.Effect(WordOps(), l, i % 5), z)) % 2
  {
    assert Word(l[i]);
    EffectBit(l, i % 5, z);
    XorBits(l[i], K.Effect(WordOps(), l, i % 5), z);
  }

  lemma ThetaFrom(l: Lanes, i: nat, z: nat, p: int, q: int)
    requires i < 25 && z < 64
    requires Bit(K.Parity(WordOps(), l, (i % 5 + 4) % 5), z) == p % 2
    requires Bit(K.Parity(WordOps(), l, (i % 5 + 1) % 5), (z - 1) % 64) == q % 2
    ensures Bit(K.Theta(WordOps(), l)[i], z) == (Bit(l[i], z) + p + q) % 2
  {
    ThetaLaneBit(l, i, z);
    EffectBit(l, i % 5, z);
    ThetaSum(Bit(K.Theta(WordOps(), l)[i], z), Bit(l[i], z), p, q);
  }

  lemma ThetaAt(l: Lanes, i: nat, u: nat, v: nat, z: nat, w: nat)
    requires i < 25 && u == (i % 5 + 4) % 5 && v == (i % 5 + 1) % 5 && z < 64 && w == (z - 1) % 64
    ensures Bit(K.Theta(WordOps(), l)[i], z)
         == (Bit(l[i], z)
             + (Bit(l[u], z) + Bit(l[5 + u], z) + Bit(l[10 + u], z) + Bit(l[15 + u], z) + Bit(l[20 + u], z))
             + (Bit(l[v], w) + Bit(l[5 + v], w) + Bit(l[10 + v], w) + Bit(l[15 + v], w) + Bit(l[20 + v], w))) % 2
  {
    ParityBit(l, u, z);
    ParityBit(l, v, w);
    ThetaFrom(l, i, z, Bit(l[u], z) + Bit(l[5 + u], z) + Bit(l[10 + u], z) + Bit(l[15 + u], z) + Bit(l[20 + u], z),
              Bit(l[v], w) + Bit(l[5 + v], w) + Bit(l[10 + v], w) + Bit(l[15 + v], w) + Bit(l[20 + v], w));
  }

  /** rho alone: every lane turned by its offset. */
  function Turned(l: Lanes): Lanes {
    seq(25, i requires 0 <= i < 25 => TurnedLane(l, i))
  }

  function TurnedLane(l: Lanes, i: nat): (x: int)
    requires i < 25
    ensures Word(x)
  {
    assert Word(l[i]);
    Offsets(i);
    RotlWord(l[i], K.OFFSETS[i]);
    if i == 0 then l[0] else Rotl(l[i], K.OFFSETS[i])
  }

  /** Lane Carried(k) is turned by the triangular number of k + 1. */
  lemma RhoBit(l: Lanes, k: nat, z: nat)
    requires k < 24 && z < 64
    ensures 0 < K.Carried(k) < 25
    ensures Bit(Turned(l)[K.Carried(k)], z) == Bit(l[K.Carried(k)], (z - (k + 1) * (k + 2) / 2) % 64)
  {
    K.WalkTables(k);
    K.WalkStep(k);
    TurnedBit(l, K.Carried(k), z);
    SubtractModulo(z, (k + 1) * (k + 2) / 2);
  }

  lemma TurnedBit(l: Lanes, i: nat, z: nat)
    requires 0 < i < 25 && z < 64
    ensures Bit(Turned(l)[i], z) == Bit(l[i], (z - K.OFFSETS[i]) % 64)
  {
    assert Word(l[i]);
    Offsets(i);
    RotlBit(l[i], K.OFFSETS[i], z);
  }

  lemma SubtractModulo(z: int, t: int)
    ensures (z - t % 64) % 64 == (z - t) % 64
  {
  }

  lemma PiMoves(l: Lanes, i: nat)
    requires i < 25
    ensures K.RhoPi(WordOps(), l)[i] == Turned(l)[K.Source(i)]
  {
    if i == 0 {
      assert K.Source(0) == 0;
    } else {
      SourceMoves(i);
    }
  }

  lemma SourceMoves(i: nat)
    requires 0 < i < 25
    ensures K.Source(i) > 0
  {
  }

  lemma ChiWord(a: int, b: int, c: int, z: nat)
    requires Word(a) && Word(b) && Word(c) && z < 64
    ensures Bit(Lxor(a, AndNot(b, c)), z) == (Bit(a, z) + (1 - Bit(b, z)) * Bit(c, z)) % 2
  {
    LandBelow(LANE - 1 - b, c);
    AndNotBit(b, c, z);
    XorBits(a, AndNot(b, c), z);
  }

  lemma ChiLaneIs(l: Lanes, i: nat, j: nat, k: nat)
    requires i < 25 && j == 5 * (i / 5) + (i % 5 + 1) % 5 && k == 5 * (i / 5) + (i % 5 + 2) % 5
    ensures j < 25 && k < 25 && K.Chi(WordOps(), l)[i] == Lxor(l[i], AndNot(l[j], l[k]))
  {
  }

  lemma ChiBit(l: Lanes, i: nat, j: nat, k: nat, z: nat)
    requires i < 25 && j == 5 * (i / 5) + (i % 5 + 1) % 5 && k == 5 * (i / 5) + (i % 5 + 2) % 5 && z < 64
    ensures j < 25 && k < 25
    ensures Bit(K.Chi(WordOps(), l)[i], z) == (Bit(l[i], z) + (1 - Bit(l[j], z)) * Bit(l[k], z)) % 2
  {
    ChiLaneIs(l, i, j, k);
    assert Word(l[i]) && Word(l[j]) && Word(l[k]);
    ChiWord(l[i], l[j], l[k], z);
  }

  // ---------------------------------------------------------------- state arrays

  /** A state array A[x, y, z] of bits (section 3.1 of FIPS 202). */
  type Cube = (int, int, int) -> int

  predicate Coordinates(x: int, y: int, z: int) {
    0 <= x < 5 && 0 <= y < 5 && 0 <= z < 64
  }

  /** Step k of rho's walk, at depth z. */
  predicate Visit(k: int, z: int) {
    0 <= k < 24 && 0 <= z < 64
  }

  /** Lane x + 5 y holds the 64 bits A[x, y, .]. */
  ghost predicate InLanes(a: Cube, l: Lanes) {
    forall x, y, z {:trigger Coordinates(x, y, z)} :: Coordinates(x, y, z) ==> a(x, y, z) == Bit(l[5 * y + x], z)
  }

  /** The bit string S of A[x, y, z] = S[64 (5 y + x) + z], eight bits to an octet. */
  ghost predicate InBytes(a: Cube, s: State) {
    forall x, y, z {:trigger Coordinates(x, y, z)} :: Coordinates(x, y, z) ==>
      a(x, y, z) == Bit(s[8 * (5 * y + x) + z / 8], z % 8)
  }

  function CubeOf(l: Lanes): Cube {
    (x, y, z) => if 0 <= x < 5 && 0 <= y < 5 && 0 <= z < 64 then Bit(l[5 * y + x], z) else 0
  }

  lemma {:induction false} JoinedBit(c: nat, rest: nat, k: nat, z: nat)
    requires c < Pow(2, k)
    ensures c + Pow(2, k) * rest >= 0
    ensures Bit(c + Pow(2, k) * rest, z) == if z < k then Bit(c, z) else Bit(rest, z - k)
    decreases k
  {
    PowPositive(2, k);
    MulMonotone(0, rest, Pow(2, k));
    if k > 0 {
      assert c + Pow(2, k) * rest == c % 2 + 2 * (c / 2 + Pow(2, k - 1) * rest);
      JoinedBit(c / 2, rest, k - 1, if z > 0 then z - 1 else 0);
      BitJoined(c % 2, c / 2 + Pow(2, k - 1) * rest, z);
      BitJoined(c % 2, c / 2, z);
    }
  }

  lemma FirstOctetBit(c: nat, rest: nat, z: nat)
    requires c < 256
    ensures Bit(c + 256 * rest, z) == if z < 8 then Bit(c, z) else Bit(rest, z - 8)
  {
    WordPowers();
    JoinedBit(c, rest, 8, z);
  }

  lemma RestIndex(s: seq<int>, z: nat)
    requires 8 <= z < 8 * |s|
    ensures s[1..][(z - 8) / 8] == s[z / 8] && (z - 8) % 8 == z % 8
  {
  }

  /** Bit z of a little-endian integer is bit z % 8 of octet z / 8. */
  lemma {:induction false} OctetBit(s: Octets, z: nat)
    requires z < 8 * |s|
    ensures Val(256, s) >= 0 && Bit(Val(256, s), z) == Bit(s[z / 8], z % 8)
    decreases |s|
  {
    var rest: Octets := s[1..];
    assert s == [s[0]] + rest;
    ValCons(256, s[0], rest);
    ValBounds(256, s);
    ValBounds(256, rest);
    FirstOctetBit(s[0], Val(256, rest), z);
    if z >= 8 {
      OctetBit(rest, z - 8);
      RestIndex(s, z);
    }
  }

  lemma ByteOfLane(s: State, i: nat, z: nat)
    requires i < 25 && z < 64
    ensures Bit(s[8 * i + z / 8], z % 8) == Bit(LaneAt(s, i), z)
  {
    OctetBit(s[8 * i..8 * i + 8], z);
  }

  lemma BytesHoldLanes(a: Cube, s: State)
    ensures InBytes(a, s) <==> InLanes(a, LanesOf(s))
  {
    forall i: nat, z: nat | i < 25 && z < 64 ensures Bit(s[8 * i + z / 8], z % 8) == Bit(LanesOf(s)[i], z) {
      ByteOfLane(s, i, z);
    }
  }

  lemma {:induction false} BitsDetermine(a: nat, b: nat, k: nat)
    requires a < Pow(2, k) && b < Pow(2, k)
    requires forall i: nat :: i < k ==> Bit(a, i) == Bit(b, i)
    ensures a == b
    decreases k
  {
    if k > 0 {
      assert Bit(a, 0) == Bit(b, 0);
      LowBit(a);
      LowBit(b);
      forall i: nat | i < k - 1 ensures Bit(a / 2, i) == Bit(b / 2, i) {
        assert Bit(a, i + 1) == Bit(b, i + 1);
        BitNext(a, i);
        BitNext(b, i);
      }
      BitsDetermine(a / 2, b / 2, k - 1);
    }
  }

  lemma LanesDetermined(a: Cube, l: Lanes, m: Lanes)
    requires InLanes(a, l) && InLanes(a, m)
    ensures l == m
  {
    LaneBits();
    forall i | 0 <= i < 25 ensures l[i] == m[i] {
      forall z: nat | z < 64 ensures Bit(l[i], z) == Bit(m[i], z) {
        Held(a, l, i % 5, i / 5, z, i);
        Held(a, m, i % 5, i / 5, z, i);
      }
      assert Word(l[i]) && Word(m[i]);
      BitsDetermine(l[i], m[i], 64);
    }
  }

  // ---------------------------------------------------------------- one round

  lemma Held(a: Cube, l: Lanes, x: int, y: int, z: int, i: int)
    requires InLanes(a, l) && 0 <= x < 5 && 0 <= y < 5 && 0 <= z < 64 && i == 5 * y + x
    ensures a(x, y, z) == Bit(l[i], z)
  {
    assert Coordinates(x, y, z);
  }

  ghost predicate ThetaHolds(a: Cube, t: Cube, x: int, y: int, z: int, u: int, v: int, w: int) {
    t(x, y, z) == (a(x, y, z) + (a(u, 0, z) + a(u, 1, z) + a(u, 2, z) + a(u, 3, z) + a(u, 4, z))
                   + (a(v, 0, w) + a(v, 1, w) + a(v, 2, w) + a(v, 3, w) + a(v, 4, w))) % 2
  }

  lemma ThetaCubeAt(a: Cube, l: Lanes, t: Cube, m: Lanes, x: int, y: int, z: int, u: int, v: int, w: int)
    requires InLanes(a, l) && InLanes(t, m)
    requires 0 <= x < 5 && 0 <= y < 5 && 0 <= z < 64 && 0 <= u < 5 && 0 <= v < 5 && 0 <= w < 64
    requires Bit(m[5 * y + x], z)
      == (Bit(l[5 * y + x], z)
          + (Bit(l[u], z) + Bit(l[5 + u], z) + Bit(l[10 + u], z) + Bit(l[15 + u], z) + Bit(l[20 + u], z))
          + (Bit(l[v], w) + Bit(l[5 + v], w) + Bit(l[10 + v], w) + Bit(l[15 + v], w) + Bit(l[20 + v], w))) % 2
    ensures ThetaHolds(a, t, x, y, z, u, v, w)
  {
    Held(t, m, x, y, z, 5 * y + x);
    Held(a, l, x, y, z, 5 * y + x);
    Held(a, l, u, 0, z, u);
    Held(a, l, u, 1, z, 5 + u);
    Held(a, l, u, 2, z, 10 + u);
    Held(a, l, u, 3, z, 15 + u);
    Held(a, l, u, 4, z, 20 + u);
    Held(a, l, v, 0, w, v);
    Held(a, l, v, 1, w, 5 + v);
    Held(a, l, v, 2, w, 10 + v);
    Held(a, l, v, 3, w, 15 + v);
    Held(a, l, v, 4, w, 20 + v);
  }

  lemma ThetaCoordinate(a: Cube, l: Lanes, t: Cube, m: Lanes, x: int, y: int, z: int, u: int, v: int, w: int)
    requires InLanes(a, l) && InLanes(t, m) && m == K.Theta(WordOps(), l) && 0 <= x < 5 && 0 <= y < 5 && 0 <= z < 64
    requires u == (x + 4) % 5 && v == (x + 1) % 5 && w == (z - 1) % 64
    ensures ThetaHolds(a, t, x, y, z, u, v, w)
  {
    var i := 5 * y + x;
    assert i % 5 == x;
    ThetaAt(l, i, u, v, z, w);
    ThetaCubeAt(a, l, t, m, x, y, z, u, v, w);
  }

  lemma ThetaCube(a: Cube, l: Lanes, t: Cube, m: Lanes)
    requires InLanes(a, l) && InLanes(t, m) && m == K.Theta(WordOps(), l)
    ensures forall x, y, z :: Coordinates(x, y, z) ==> ThetaHolds(a, t, x, y, z, (x + 4) % 5, (x + 1) % 5, (z - 1) % 64)
  {
    forall x, y, z | Coordinates(x, y, z)
      ensures ThetaHolds(a, t, x, y, z, (x + 4) % 5, (x + 1) % 5, (z - 1) % 64)
    {
      ThetaCoordinate(a, l, t, m, x, y, z, (x + 4) % 5, (x + 1) % 5, (z - 1) % 64);
    }
  }

  lemma ThetaSpelled(a: Cube, t: Cube)
    requires forall x, y, z :: Coordinates(x, y, z) ==> ThetaHolds(a, t, x, y, z, (x + 4) % 5, (x + 1) % 5, (z - 1) % 64)
    ensures forall x, y, z {:trigger Coordinates(x, y, z)} :: Coordinates(x, y, z) ==>
      var u, v, w := (x + 4) % 5, (x + 1) % 5, (z - 1) % 64;
      t(x, y, z) == (a(x, y, z) + (a(u, 0, z) + a(u, 1, z) + a(u, 2, z) + a(u, 3, z) + a(u, 4, z))
                     + (a(v, 0, w) + a(v, 1, w) + a(v, 2, w) + a(v, 3, w) + a(v, 4, w))) % 2
  {
    forall x, y, z | Coordinates(x, y, z)
      ensures var u, v, w := (x + 4) % 5, (x + 1) % 5, (z - 1) % 64;
        t(x, y, z) == (a(x, y, z) + (a(u, 0, z) + a(u, 1, z) + a(u, 2, z) + a(u, 3, z) + a(u, 4, z))
                       + (a(v, 0, w) + a(v, 1, w) + a(v, 2, w) + a(v, 3, w) + a(v, 4, w))) % 2
    {
      assert ThetaHolds(a, t, x, y, z, (x + 4) % 5, (x + 1) % 5, (z - 1) % 64);
    }
  }

  lemma WalkStart(k: nat)
    requires k < 24
    ensures 0 < K.Carried(k) < 25
  {
    K.WalkTables(k);
  }

  lemma WalkGoes(k: nat)
    requires k < 23
    ensures K.Carried(k) > 0
    ensures K.Carried(k + 1) % 5 == K.Carried(k) / 5
    ensures K.Carried(k + 1) / 5 == (2 * (K.Carried(k) % 5) + 3 * (K.Carried(k) / 5)) % 5
  {
    K.WalkTables(k);
    NextLane(K.Carried(k) / 5, (2 * (K.Carried(k) % 5) + 3 * (K.Carried(k) / 5)) % 5);
  }

  lemma NextLane(x: int, y: int)
    requires 0 <= x < 5
    ensures (x + 5 * y) % 5 == x && (x + 5 * y) / 5 == y
  {
  }

  lemma WalkReaches(i: nat) returns (k: nat)
    requires 0 < i < 25
    ensures k < 24 && K.Carried(k) == i
  {
    K.StepOf(i);
    k := if K.STEP[i] == 23 then 0 else K.STEP[i] + 1;
  }

  ghost predicate Walks(walk: seq<(int, int)>) {
    |walk| == 24 && forall k :: 0 <= k < 24 ==> walk[k] == (K.Carried(k) % 5, K.Carried(k) / 5) && 0 < K.Carried(k) < 25
  }

  lemma WalkReachesAll(walk: seq<(int, int)>, x: int, y: int)
    requires Walks(walk) && 0 <= x < 5 && 0 <= y < 5 && (x, y) != (0, 0)
    ensures (x, y) in walk
  {
    var k := WalkReaches(x + 5 * y);
    NextLane(x, y);
    assert walk[k] == (x, y);
  }

  lemma WalkAdvances(walk: seq<(int, int)>, k: int)
    requires Walks(walk) && 0 < k < 24
    ensures walk[k] == (walk[k - 1].1, (2 * walk[k - 1].0 + 3 * walk[k - 1].1) % 5)
  {
    WalkGoes(k - 1);
  }

  /** The lanes in the order rho visits them. */
  lemma Walk() returns (walk: seq<(int, int)>)
    ensures Walks(walk) && walk[0] == (1, 0)
  {
    walk := seq(24, k requires 0 <= k < 24 => (K.Carried(k) % 5, K.Carried(k) / 5));
    forall k | 0 <= k < 24 ensures walk[k] == (K.Carried(k) % 5, K.Carried(k) / 5) && 0 < K.Carried(k) < 25 {
      WalkStart(k);
    }
  }

  /** rho: lane walk[k] is turned by the triangular number of k + 1. */
  lemma RhoCube(t: Cube, m: Lanes, r: Cube, n: Lanes, walk: seq<(int, int)>)
    requires InLanes(t, m) && InLanes(r, n) && n == Turned(m) && Walks(walk)
    ensures forall z {:trigger Coordinates(0, 0, z)} :: Coordinates(0, 0, z) ==> r(0, 0, z) == t(0, 0, z)
    ensures forall k, z {:trigger Visit(k, z)} :: Visit(k, z) ==>
      r(walk[k].0, walk[k].1, z) == t(walk[k].0, walk[k].1, (z - (k + 1) * (k + 2) / 2) % 64)
  {
    forall z | Coordinates(0, 0, z) ensures r(0, 0, z) == t(0, 0, z) {
      Held(r, n, 0, 0, z, 0);
      Held(t, m, 0, 0, z, 0);
    }
    forall k, z | Visit(k, z)
      ensures r(walk[k].0, walk[k].1, z) == t(walk[k].0, walk[k].1, (z - (k + 1) * (k + 2) / 2) % 64)
    {
      RhoBit(m, k, z);
      var x, y, w := K.Carried(k) % 5, K.Carried(k) / 5, (z - (k + 1) * (k + 2) / 2) % 64;
      Held(r, n, x, y, z, K.Carried(k));
      Held(t, m, x, y, w, K.Carried(k));
    }
  }

  lemma SourceIs(x: int, y: int)
    requires 0 <= x < 5 && 0 <= y < 5
    ensures K.Source(x + 5 * y) == (x + 3 * y) % 5 + 5 * x
  {
    NextLane(x, y);
  }

  lemma PiCoordinate(r: Cube, n: Lanes, p: Cube, q: Lanes, x: int, y: int, z: int, u: int)
    requires InLanes(r, n) && InLanes(p, q)
    requires 0 <= x < 5 && 0 <= y < 5 && 0 <= z < 64 && 0 <= u < 5 && q[x + 5 * y] == n[u + 5 * x]
    ensures p(x, y, z) == r(u, x, z)
  {
    Held(p, q, x, y, z, x + 5 * y);
    Held(r, n, u, x, z, u + 5 * x);
  }

  lemma PiHolds(r: Cube, n: Lanes, p: Cube, q: Lanes, m: Lanes, x: int, y: int, z: int, u: int)
    requires InLanes(r, n) && InLanes(p, q) && n == Turned(m) && q == K.RhoPi(WordOps(), m)
    requires 0 <= x < 5 && 0 <= y < 5 && 0 <= z < 64 && u == (x + 3 * y) % 5
    ensures p(x, y, z) == r(u, x, z)
  {
    SourceIs(x, y);
    PiMoves(m, x + 5 * y);
    PiCoordinate(r, n, p, q, x, y, z, u);
  }

  lemma PiCube(r: Cube, n: Lanes, p: Cube, q: Lanes, m: Lanes)
    requires InLanes(r, n) && InLanes(p, q) && n == Turned(m) && q == K.RhoPi(WordOps(), m)
    ensures forall x, y, z {:trigger Coordinates(x, y, z)} :: Coordinates(x, y, z) ==> p(x, y, z) == r((x + 3 * y) % 5, x, z)
  {
    forall x, y, z | Coordinates(x, y, z) ensures p(x, y, z) == r((x + 3 * y) % 5, x, z) {
      PiHolds(r, n, p, q, m, x, y, z, (x + 3 * y) % 5);
    }
  }

  lemma ChiCoordinate(p: Cube, q: Lanes, c: Cube, m: Lanes, x: int, y: int, z: int, u: int, v: int)
    requires InLanes(p, q) && InLanes(c, m) && m == K.Chi(WordOps(), q) && 0 <= x < 5 && 0 <= y < 5 && 0 <= z < 64
    requires u == (x + 1) % 5 && v == (x + 2) % 5
    ensures c(x, y, z) == (p(x, y, z) + (1 - p(u, y, z)) * p(v, y, z)) % 2
  {
    var i := 5 * y + x;
    assert i % 5 == x && i / 5 == y;
    ChiBit(q, i, 5 * y + u, 5 * y + v, z);
    Held(c, m, x, y, z, i);
    Held(p, q, x, y, z, i);
    Held(p, q, u, y, z, 5 * y + u);
    Held(p, q, v, y, z, 5 * y + v);
  }

  lemma ChiCube(p: Cube, q: Lanes, c: Cube, m: Lanes)
    requires InLanes(p, q) && InLanes(c, m) && m == K.Chi(WordOps(), q)
    ensures forall x, y, z {:trigger Coordinates(x, y, z)} :: Coordinates(x, y, z) ==>
      c(x, y, z) == (p(x, y, z) + (1 - p((x + 1) % 5, y, z)) * p((x + 2) % 5, y, z)) % 2
  {
    forall x, y, z | Coordinates(x, y, z)
      ensures c(x, y, z) == (p(x, y, z) + (1 - p((x + 1) % 5, y, z)) * p((x + 2) % 5, y, z)) % 2
    {
      ChiCoordinate(p, q, c, m, x, y, z, (x + 1) % 5, (x + 2) % 5);
    }
  }

  lemma IotaCube(c: Cube, m: Lanes, b: Cube, n: Lanes, rc: int)
    requires InLanes(c, m) && InLanes(b, n) && Word(rc) && n == m[0 := Lxor(m[0], rc)]
    ensures forall z {:trigger Coordinates(0, 0, z)} :: Coordinates(0, 0, z) ==> b(0, 0, z) == (c(0, 0, z) + Bit(rc, z)) % 2
    ensures forall x, y, z {:trigger Coordinates(x, y, z)} :: Coordinates(x, y, z) && (x, y) != (0, 0) ==>
      b(x, y, z) == c(x, y, z)
  {
    assert Word(m[0]);
    forall z | Coordinates(0, 0, z) ensures b(0, 0, z) == (c(0, 0, z) + Bit(rc, z)) % 2 {
      XorBits(m[0], rc, z);
      Held(c, m, 0, 0, z, 0);
      Held(b, n, 0, 0, z, 0);
    }
    forall x, y, z | Coordinates(x, y, z) && (x, y) != (0, 0) ensures b(x, y, z) == c(x, y, z) {
      Held(c, m, x, y, z, 5 * y + x);
      Held(b, n, x, y, z, 5 * y + x);
    }
  }

  /** The five steps on lanes, read as steps on the arrays those lanes hold. */
  lemma Steps(a: Cube, l: Lanes, t: Cube, m: Lanes, r: Cube, n: Lanes, p: Cube, q: Lanes, c: Cube, e: Lanes, b: Cube, f: Lanes,
              rc: int) returns (walk: seq<(int, int)>)
    requires InLanes(a, l) && InLanes(t, m) && InLanes(r, n) && InLanes(p, q) && InLanes(c, e) && InLanes(b, f)
    requires m == K.Theta(WordOps(), l) && n == Turned(m) && q == K.RhoPi(WordOps(), m) && e == K.Chi(WordOps(), q)
    requires Word(rc) && f == e[0 := Lxor(e[0], rc)]
    ensures Walks(walk) && walk[0] == (1, 0)
    ensures forall x, y, z {:trigger Coordinates(x, y, z)} :: Coordinates(x, y, z) ==>
      var u, v, w := (x + 4) % 5, (x + 1) % 5, (z - 1) % 64;
      t(x, y, z) == (a(x, y, z) + (a(u, 0, z) + a(u, 1, z) + a(u, 2, z) + a(u, 3, z) + a(u, 4, z))
                     + (a(v, 0, w) + a(v, 1, w) + a(v, 2, w) + a(v, 3, w) + a(v, 4, w))) % 2
    ensures forall z {:trigger Coordinates(0, 0, z)} :: Coordinates(0, 0, z) ==> r(0, 0, z) == t(0, 0, z)
    ensures forall k, z {:trigger Visit(k, z)} :: Visit(k, z) ==>
      r(walk[k].0, walk[k].1, z) == t(walk[k].0, walk[k].1, (z - (k + 1) * (k + 2) / 2) % 64)
    ensures forall x, y, z {:trigger Coordinates(x, y, z)} :: Coordinates(x, y, z) ==> p(x, y, z) == r((x + 3 * y) % 5, x, z)
    ensures forall x, y, z {:trigger Coordinates(x, y, z)} :: Coordinates(x, y, z) ==>
      c(x, y, z) == (p(x, y, z) + (1 - p((x + 1) % 5, y, z)) * p((x + 2) % 5, y, z)) % 2
    ensures forall z {:trigger Coordinates(0, 0, z)} :: Coordinates(0, 0, z) ==> b(0, 0, z) == (c(0, 0, z) + Bit(rc, z)) % 2
    ensures forall x, y, z {:trigger Coordinates(x, y, z)} :: Coordinates(x, y, z) && (x, y) != (0, 0) ==>
      b(x, y, z) == c(x, y, z)
  {
    ThetaCube(a, l, t, m);
    ThetaSpelled(a, t);
    walk := Walk();
    RhoCube(t, m, r, n, walk);
    PiCube(r, n, p, q, m);
    ChiCube(p, q, c, e);
    IotaCube(c, e, b, f, rc);
  }

  lemma WalkSpelled(walk: seq<(int, int)>)
    requires Walks(walk)
    ensures forall j, k :: 0 <= j && k == j + 1 < 24 ==> walk[k] == (walk[j].1, (2 * walk[j].0 + 3 * walk[j].1) % 5)
    ensures forall x, y :: 0 <= x < 5 && 0 <= y < 5 && (x, y) != (0, 0) ==> (x, y) in walk
  {
    forall j, k | 0 <= j && k == j + 1 < 24 ensures walk[k] == (walk[j].1, (2 * walk[j].0 + 3 * walk[j].1) % 5) {
      WalkAdvances(walk, k);
    }
    forall x, y | 0 <= x < 5 && 0 <= y < 5 && (x, y) != (0, 0) ensures (x, y) in walk {
      WalkReachesAll(walk, x, y);
    }
  }

  /** The lanes after each step. */
  lemma StepLanes(l: Lanes, rc: int) returns (m: Lanes, n: Lanes, q: Lanes, e: Lanes, f: Lanes)
    requires Word(rc)
    ensures m == K.Theta(WordOps(), l) && n == Turned(m) && q == K.RhoPi(WordOps(), m) && e == K.Chi(WordOps(), q)
    ensures f == RoundOn(l, rc) && f == e[0 := Lxor(e[0], rc)]
  {
    WordOpsClosed();
    ThetaWords(WordOps(), l);
    m := K.Theta(WordOps(), l);
    n := Turned(m);
    RhoPiWords(WordOps(), m);
    q := K.RhoPi(WordOps(), m);
    ChiWords(WordOps(), q);
    e := K.Chi(WordOps(), q);
    f := RoundOn(l, rc);
  }

  lemma CubeHeld(l: Lanes)
    ensures InLanes(CubeOf(l), l)
  {
  }

  /** One round on lanes. */
  lemma LaneRound(a: Cube, l: Lanes, rc: int, out: Lanes)
    returns (t: Cube, walk: seq<(int, int)>, r: Cube, p: Cube, c: Cube, b: Cube)
    requires Word(rc) && InLanes(a, l) && out == RoundOn(l, rc)
    ensures Walks(walk) && walk[0] == (1, 0) && InLanes(b, out)
    ensures forall x, y, z {:trigger Coordinates(x, y, z)} :: Coordinates(x, y, z) ==>
      var u, v, w := (x + 4) % 5, (x + 1) % 5, (z - 1) % 64;
      t(x, y, z) == (a(x, y, z) + (a(u, 0, z) + a(u, 1, z) + a(u, 2, z) + a(u, 3, z) + a(u, 4, z))
                     + (a(v, 0, w) + a(v, 1, w) + a(v, 2, w) + a(v, 3, w) + a(v, 4, w))) % 2
    ensures forall z {:trigger Coordinates(0, 0, z)} :: Coordinates(0, 0, z) ==> r(0, 0, z) == t(0, 0, z)
    ensures forall k, z {:trigger Visit(k, z)} :: Visit(k, z) ==>
      r(walk[k].0, walk[k].1, z) == t(walk[k].0, walk[k].1, (z - (k + 1) * (k + 2) / 2) % 64)
    ensures forall x, y, z {:trigger Coordinates(x, y, z)} :: Coordinates(x, y, z) ==> p(x, y, z) == r((x + 3 * y) % 5, x, z)
    ensures forall x, y, z {:trigger Coordinates(x, y, z)} :: Coordinates(x, y, z) ==>
      c(x, y, z) == (p(x, y, z) + (1 - p((x + 1) % 5, y, z)) * p((x + 2) % 5, y, z)) % 2
    ensures forall z {:trigger Coordinates(0, 0, z)} :: Coordinates(0, 0, z) ==> b(0, 0, z) == (c(0, 0, z) + Bit(rc, z)) % 2
    ensures forall x, y, z {:trigger Coordinates(x, y, z)} :: Coordinates(x, y, z) && (x, y) != (0, 0) ==>
      b(x, y, z) == c(x, y, z)
  {
    var m, n, q, e, f: Lanes := StepLanes(l, rc);
    t, r, p, c, b := CubeOf(m), CubeOf(n), CubeOf(q), CubeOf(e), CubeOf(f);
    CubeHeld(m);
    CubeHeld(n);
    CubeHeld(q);
    CubeHeld(e);
    CubeHeld(f);
    walk := Steps(a, l, t, m, r, n, p, q, c, e, b, f, rc);
  }

  lemma OneRound(l: Lanes, s: State, rc: int, constants: RoundConstants)
    requires constants == [rc] && Word(rc) && l == LanesOf(s)
    ensures OnLanes(constants)(l) == RoundOn(l, rc) && OnBytes(constants)(s) == StateBytes(RoundOn(l, rc))
  {
    assert RoundsOn(l, constants, 0) == l;
  }

  lemma SameRound(a: Cube, l: Lanes, s: State, rc: int, constants: RoundConstants)
    requires constants == [rc] && InLanes(a, l) && InBytes(a, s)
    ensures Word(rc) && OnLanes(constants)(l) == RoundOn(l, rc) && OnBytes(constants)(s) == StateBytes(RoundOn(l, rc))
  {
    BytesHoldLanes(a, s);
    LanesDetermined(a, l, LanesOf(s));
    assert Word(constants[0]);
    OneRound(l, s, rc, constants);
  }

  lemma RoundEnds(a: Cube, l: Lanes, s: State, rc: int, constants: RoundConstants, b: Cube, out: Lanes)
    requires constants == [rc] && Word(rc) && InLanes(a, l) && InBytes(a, s) && InLanes(b, out) && out == RoundOn(l, rc)
    ensures InLanes(b, OnLanes(constants)(l)) && InBytes(b, OnBytes(constants)(s))
  {
    SameRound(a, l, s, rc, constants);
    LanesOfBytes(out);
    BytesHoldLanes(b, StateBytes(out));
  }

  /** One round of Keccak-f on the bit array a, whether 25 lanes or 200 bytes hold it: b is the
      result, and t, r, p and c are the arrays after theta, rho, pi and chi. */
  lemma RoundBits(a: Cube, l: Lanes, s: State, rc: int, constants: RoundConstants)
    returns (t: Cube, walk: seq<(int, int)>, r: Cube, p: Cube, c: Cube, b: Cube)
    requires constants == [rc] && InLanes(a, l) && InBytes(a, s)
    ensures |walk| == 24 && walk[0] == (1, 0)
    ensures forall j, k :: 0 <= j && k == j + 1 < 24 ==> walk[k] == (walk[j].1, (2 * walk[j].0 + 3 * walk[j].1) % 5)
    ensures forall x, y :: 0 <= x < 5 && 0 <= y < 5 && (x, y) != (0, 0) ==> (x, y) in walk
    ensures forall x, y, z {:trigger Coordinates(x, y, z)} :: Coordinates(x, y, z) ==>
      var u, v, w := (x + 4) % 5, (x + 1) % 5, (z - 1) % 64;
      t(x, y, z) == (a(x, y, z) + (a(u, 0, z) + a(u, 1, z) + a(u, 2, z) + a(u, 3, z) + a(u, 4, z))
                     + (a(v, 0, w) + a(v, 1, w) + a(v, 2, w) + a(v, 3, w) + a(v, 4, w))) % 2
    ensures forall z {:trigger Coordinates(0, 0, z)} :: Coordinates(0, 0, z) ==> r(0, 0, z) == t(0, 0, z)
    ensures forall k, z {:trigger Visit(k, z)} :: Visit(k, z) ==>
      r(walk[k].0, walk[k].1, z) == t(walk[k].0, walk[k].1, (z - (k + 1) * (k + 2) / 2) % 64)
    ensures forall x, y, z {:trigger Coordinates(x, y, z)} :: Coordinates(x, y, z) ==> p(x, y, z) == r((x + 3 * y) % 5, x, z)
    ensures forall x, y, z {:trigger Coordinates(x, y, z)} :: Coordinates(x, y, z) ==>
      c(x, y, z) == (p(x, y, z) + (1 - p((x + 1) % 5, y, z)) * p((x + 2) % 5, y, z)) % 2
    ensures forall z {:trigger Coordinates(0, 0, z)} :: Coordinates(0, 0, z) ==> b(0, 0, z) == (c(0, 0, z) + Bit(rc, z)) % 2
    ensures forall x, y, z {:trigger Coordinates(x, y, z)} :: Coordinates(x, y, z) && (x, y) != (0, 0) ==>
      b(x, y, z) == c(x, y, z)
    ensures InLanes(b, OnLanes(constants)(l)) && InBytes(b, OnBytes(constants)(s))
  {
    assert Word(constants[0]);
    var out := RoundOn(l, rc);
    t, walk, r, p, c, b := LaneRound(a, l, rc, out);
    RoundEnds(a, l, s, rc, constants, b, out);
    WalkSpelled(walk);
  }

  // ---------------------------------------------------------------- all rounds

  /** The rounds are applied in the order of their constants, and none is the identity. */
  lemma RoundsInOrder(l: Lanes, s: State, rc: RoundConstants, last: RoundConstants, all: RoundConstants)
    requires |last| == 1 && all == rc + last
    ensures OnLanes([])(l) == l && OnLanes(all)(l) == OnLanes(last)(OnLanes(rc)(l))
    ensures OnBytes([])(s) == s && OnBytes(all)(s) == OnBytes(last)(OnBytes(rc)(s))
  {
    RoundsOfLanes(l, rc, last, all);
    RoundsOfLanes(LanesOf(s), rc, last, all);
    LanesOfBytes(Permuted(rc, LanesOf(s)));
    BytesOfLanes(s);
  }

  lemma RoundsOfLanes(l: Lanes, rc: RoundConstants, last: RoundConstants, all: RoundConstants)
    requires |last| == 1 && all == rc + last
    ensures Permuted(all, l) == Permuted(last, Permuted(rc, l))
  {
    var x := K.EarlierRounds(WordOps(), l, rc, all, |rc|);
    assert K.Same(x, x);
    RoundsOnAre(l, rc, |rc|);
    RoundsOnAre(l, all, |rc|);
    assert RoundsOn(Permuted(rc, l), last, 0) == Permuted(rc, l);
  }
}
