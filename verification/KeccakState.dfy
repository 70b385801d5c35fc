/** Keccak-f[1600] on the states the two sponges keep: 200 bytes in OCaml, 25 lanes in C. With
    64-bit word operations both programs compute one permutation, so the sponges that use them
    hash alike. */
module KeccakState {
  import opened Arith
  import opened Radix
  import opened Words
  import opened Sponge
  import opened NativeShake
  import K = Keccak
  import Shake256

  type RoundConstants = rc: seq<int> | Digits(LANE, rc)

  // ---------------------------------------------------------------- 64-bit words

  predicate Word(x: int) {
    0 <= x < LANE
  }

  ghost predicate Closed(o: K.Ops) {
    && (forall a, b :: Word(a) && Word(b) ==> Word(o.xor(a, b)))
    && (forall a, b :: Word(a) && Word(b) ==> Word(o.andNot(a, b)))
    && (forall a, n :: Word(a) && 0 <= n < 64 ==> Word(o.rotl(a, n)))
  }

  /** `(lnot a) land b` */
  function AndNot(a: int, b: int): int {
    Land(LANE - 1 - a, b)
  }

  /** `(x lsl n) lor (x lsr (64 - n))` on 64 bits */
  function Rotl(x: int, n: int): int {
    if 0 <= n < 64 then
      PowPositive(2, n);
      PowPositive(2, 64 - n);
      Lor(x * Pow(2, n) % LANE, x / Pow(2, 64 - n))
    else x
  }

  function WordOps(): K.Ops {
    K.Ops((a, b) => Lxor(a, b), (a, b) => AndNot(a, b), (x, n) => Rotl(x, n))
  }

  lemma LaneBits()
    ensures Pow(2, 64) == LANE
  {
    WordPowers();
    PowAdd(2, 32, 32);
  }

  lemma QuotientWord(x: int, w: int)
    requires Word(x) && w > 0
    ensures Word(x / w)
  {
    MulMonotone(1, w, LANE);
    DivBound(x, w, LANE);
  }

  lemma RotlWord(x: int, n: int)
    requires Word(x) && 0 <= n < 64
    ensures Word(Rotl(x, n))
  {
    LaneBits();
    PowPositive(2, 64 - n);
    QuotientWord(x, Pow(2, 64 - n));
    LorBelow(x * Pow(2, n) % LANE, x / Pow(2, 64 - n), 64);
  }

  lemma WordOpsClosed()
    ensures Closed(WordOps())
  {
    var o := WordOps();
    LaneBits();
    forall a, b | Word(a) && Word(b) ensures Word(o.xor(a, b)) {
      LxorBelow(a, b, 64);
    }
    forall a, b | Word(a) && Word(b) ensures Word(o.andNot(a, b)) {
      LandBelow(LANE - 1 - a, b);
    }
    forall a, n | Word(a) && 0 <= n < 64 ensures Word(o.rotl(a, n)) {
      RotlWord(a, n);
    }
  }

  lemma EffectWord(o: K.Ops, l: Lanes, x: nat)
    requires Closed(o) && x < 5
    ensures Word(K.Effect(o, l, x))
  {
    ParityWord(o, l, (x + 4) % 5);
    ParityWord(o, l, (x + 1) % 5);
  }

  lemma ParityWord(o: K.Ops, l: Lanes, x: nat)
    requires Closed(o) && x < 5
    ensures Word(K.Parity(o, l, x))
  {
    assert Word(l[x]) && Word(l[x + 5]) && Word(l[x + 10]) && Word(l[x + 15]) && Word(l[x + 20]);
  }

  lemma ThetaWords(o: K.Ops, l: Lanes)
    requires Closed(o)
    ensures Digits(LANE, K.Theta(o, l))
  {
    forall i | 0 <= i < 25 ensures Word(K.Theta(o, l)[i]) {
      EffectWord(o, l, i % 5);
      assert Word(l[i]);
    }
  }

  lemma RhoPiWords(o: K.Ops, l: Lanes)
    requires Closed(o)
    ensures Digits(LANE, K.RhoPi(o, l))
  {
    forall i | 0 <= i < 25 ensures Word(K.RhoPi(o, l)[i]) {
      assert Word(l[0]) && Word(l[K.Source(i)]);
      Offsets(K.Source(i));
    }
  }

  lemma Offsets(j: nat)
    requires j < 25
    ensures 0 <= K.OFFSETS[j] < 64
  {
  }

  lemma ChiWords(o: K.Ops, l: Lanes)
    requires Closed(o)
    ensures Digits(LANE, K.Chi(o, l))
  {
    forall i | 0 <= i < 25 ensures Word(K.Chi(o, l)[i]) {
      var x, y := i % 5, i / 5;
      assert Word(l[5 * y + x]) && Word(l[5 * y + (x + 1) % 5]) && Word(l[5 * y + (x + 2) % 5]);
    }
  }

  lemma RoundWords(o: K.Ops, l: Lanes, rc: int)
    requires Closed(o) && Word(rc)
    ensures Digits(LANE, K.Round(o, l, rc))
  {
    ThetaWords(o, l);
    RhoPiWords(o, K.Theta(o, l));
    ChiWords(o, K.RhoPi(o, K.Theta(o, l)));
    var c: Lanes := K.Chi(o, K.RhoPi(o, K.Theta(o, l)));
    assert Word(c[0]);
  }

  /** One round on words. */
  function RoundOn(l: Lanes, rc: int): (r: Lanes)
    requires Word(rc)
    ensures r == K.Round(WordOps(), l, rc)
  {
    WordOpsClosed();
    RoundWords(WordOps(), l, rc);
    K.Round(WordOps(), l, rc)
  }

  function RoundsOn(l: Lanes, rc: RoundConstants, n: nat): Lanes
    requires n <= |rc|
  {
    if n == 0 then l else RoundOn(RoundsOn(l, rc, n - 1), rc[n - 1])
  }

  lemma {:induction false} RoundsOnAre(l: Lanes, rc: RoundConstants, n: nat)
    requires n <= |rc|
    ensures RoundsOn(l, rc, n) == K.Rounds(WordOps(), l, rc, n)
  {
    if n > 0 {
      RoundsOnAre(l, rc, n - 1);
    }
  }

  // ---------------------------------------------------------------- one permutation, two states

  function LaneAt(s: State, i: nat): (x: int)
    requires i < 25
    ensures Word(x)
  {
    LanePower();
    ValBounds(256, s[8 * i..8 * i + 8]);
    Val(256, s[8 * i..8 * i + 8])
  }

  function LanesOf(s: State): Lanes {
    seq(25, i requires 0 <= i < 25 => LaneAt(s, i))
  }

  function Permuted(rc: RoundConstants, l: Lanes): Lanes {
    RoundsOn(l, rc, |rc|)
  }

  /** Keccak-f on lanes. */
  function OnLanes(rc: RoundConstants): LanePermutation {
    l => Permuted(rc, l)
  }

  /** Keccak-f on bytes. */
  function OnBytes(rc: RoundConstants): Permutation {
    s => StateBytes(Permuted(rc, LanesOf(s)))
  }

  lemma LaneOfBytes(l: Lanes, i: nat)
    requires i < 25
    ensures LaneAt(StateBytes(l), i) == l[i]
  {
    LanePower();
    var s := StateBytes(l);
    forall t | 0 <= t < 8 ensures s[8 * i + t] == LaneOctets(l[i])[t] {
      assert (8 * i + t) / 8 == i && (8 * i + t) % 8 == t;
    }
    assert s[8 * i..8 * i + 8] == LaneOctets(l[i]);
    ToDigitsValue(256, l[i], 8);
  }

  lemma LanesOfBytes(l: Lanes)
    ensures LanesOf(StateBytes(l)) == l
  {
    forall i | 0 <= i < 25 ensures LanesOf(StateBytes(l))[i] == l[i] {
      LaneOfBytes(l, i);
    }
  }

  lemma BytesOfLanes(s: State)
    ensures StateBytes(LanesOf(s)) == s
  {
    var t := StateBytes(LanesOf(s));
    forall j | 0 <= j < 200 ensures t[j] == s[j] {
      var b: seq<int> := s[8 * (j / 8)..8 * (j / 8) + 8];
      DigitsAreToDigits(256, b);
      assert b[j % 8] == s[j];
    }
  }

  /** The two forms permute alike, which is what the sponge proofs ask of a pair of permutations. */
  lemma FormsAgree(rc: RoundConstants)
    ensures Agrees(OnBytes(rc), OnLanes(rc))
  {
    forall l: Lanes ensures AgreesAt(OnBytes(rc), OnLanes(rc), l) {
      LanesOfBytes(l);
    }
  }

  // ---------------------------------------------------------------- the OCaml permutation in place

  method LoadLanes(s: array<int>) returns (l: seq<int>)
    requires s.Length == 200 && Digits(256, s[..])
    ensures l == LanesOf(s[..])
  {
    l := [];
    for i := 0 to 25
      invariant l == LanesOf(s[..])[..i]
    {
      assert s[8 * i..8 * i + 8] == s[..][8 * i..8 * i + 8];
      l := l + [Val(256, s[8 * i..8 * i + 8])];
    }
  }

  method StoreLanes(s: array<int>, l: Lanes)
    requires s.Length == 200
    modifies s
    ensures s[..] == StateBytes(l)
  {
    for i := 0 to 25
      invariant forall j :: 0 <= j < 8 * i ==> s[j] == StateBytes(l)[j]
    {
      StoreLane(s, i, LaneOctets(l[i]));
      forall j | 8 * i <= j < 8 * i + 8 ensures s[j] == StateBytes(l)[j] {
        assert j / 8 == i && j % 8 == j - 8 * i;
      }
    }
  }

  method StoreLane(s: array<int>, i: nat, b: Octets)
    requires s.Length == 200 && i < 25 && |b| == 8
    modifies s
    ensures forall j :: 8 * i <= j < 8 * i + 8 ==> s[j] == b[j - 8 * i]
    ensures forall j :: 0 <= j < 200 && !(8 * i <= j < 8 * i + 8) ==> s[j] == old(s[j])
  {
    forall j | 8 * i <= j < 8 * i + 8 {
      s[j] := b[j - 8 * i];
    }
  }

  /** `Keccak.permute`: every round loads the lanes, computes and stores them back. */
  method Permute(s: array<int>, rc: RoundConstants)
    requires s.Length == 200 && Digits(256, s[..])
    modifies s
    ensures Digits(256, s[..]) && s[..] == OnBytes(rc)(old(s[..]))
  {
    ghost var start := LanesOf(s[..]);
    BytesOfLanes(s[..]);
    for round := 0 to |rc|
      invariant s[..] == StateBytes(RoundsOn(start, rc, round))
    {
      ghost var before := RoundsOn(start, rc, round);
      LanesOfBytes(before);
      var l := LoadLanes(s);
      var r := K.UnrolledRound(WordOps(), l, rc[round]);
      assert r == RoundOn(before, rc[round]);
      StoreLanes(s, r);
    }
  }

  /** `keccak_f1600` with 64-bit words. */
  method NativePermute(st: array<int>, rc: RoundConstants)
    requires st.Length == 25 && Digits(LANE, st[..])
    modifies st
    ensures Digits(LANE, st[..]) && st[..] == OnLanes(rc)(old(st[..]))
  {
    ghost var l: Lanes := st[..];
    RoundsOnAre(l, rc, |rc|);
    K.NativePermute(WordOps(), st, rc);
  }

  /** One-shot hashing with the two permutations gives the same bytes. */
  method HashesAgree(rc: RoundConstants, message: Octets, n: nat) returns (ocaml: seq<int>, native: seq<int>)
    ensures ocaml == native == Sponge.Shake256(OnBytes(rc), message, n)
  {
    FormsAgree(rc);
    ocaml := Shake256.Digest(OnBytes(rc), message, n);
    native := NativeShake.Digest(OnLanes(rc), OnBytes(rc), message, n);
  }
}
