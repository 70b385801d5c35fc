/** The sponge construction of FIPS 202 (Algorithm 8) with SHAKE256's rate and padding, for any
    permutation f of the 200-byte state, and the byte-at-a-time view of absorbing. */
module Sponge {
  import opened Arith
  import opened Radix
  import opened Words

  const RATE: int := 136

  type State = s: seq<int> | |s| == 200 && Digits(256, s) witness seq(200, _ => 0)
  type Permutation = State -> State

  function ZeroState(): State {
    seq(200, _ => 0)
  }

  lemma XorBelow(a: int, b: int)
    requires 0 <= a < 256 && 0 <= b < 256
    ensures 0 <= Lxor(a, b) < 256
  {
    WordPowers();
    LxorBelow(a, b, 8);
  }

  function XorByte(a: int, b: int): (r: int)
    requires 0 <= a < 256 && 0 <= b < 256
    ensures 0 <= r < 256
  {
    XorBelow(a, b);
    Lxor(a, b)
  }

  function XorAt(s: State, block: Octets, i: int): (r: int)
    requires |block| <= 200 && 0 <= i < 200
    ensures 0 <= r < 256
  {
    if i < |block| then XorByte(s[i], block[i]) else s[i]
  }

  /** S with the block added at its start: S xor (P || 0^c). */
  function XorBlock(s: State, block: Octets): State
    requires |block| <= 200
  {
    seq(200, i requires 0 <= i < 200 => XorAt(s, block, i))
  }

  /** Absorbing whole blocks: S := f(S xor (P_i || 0^c)). */
  function AbsorbBlocks(f: Permutation, s: State, p: Octets): State
    decreases |p|
  {
    if |p| < RATE then s else AbsorbBlocks(f, f(XorBlock(s, p[..RATE])), p[RATE..])
  }

  /** The SHAKE suffix 1111 and pad10*1, in bytes. */
  function Padding(n: nat): (p: Octets)
    ensures 1 <= |p| <= RATE && (n + |p|) % RATE == 0
  {
    var q := RATE - n % RATE;
    if q == 1 then [0x9f] else [0x1f] + seq(q - 2, _ => 0) + [0x80]
  }

  /** Squeezing: the first RATE bytes of S, then of f(S), and so on, truncated to n bytes. */
  function SqueezeBlocks(f: Permutation, s: State, n: nat): (z: Octets)
    ensures |z| == n
    decreases n
  {
    if n <= RATE then s[..n] else s[..RATE] + SqueezeBlocks(f, f(s), n - RATE)
  }

  /** SHAKE256(message, n): section 6.2 of FIPS 202. */
  function Shake256(f: Permutation, message: Octets, n: nat): (z: Octets)
    ensures |z| == n
  {
    SqueezeBlocks(f, AbsorbBlocks(f, ZeroState(), message + Padding(|message|)), n)
  }

  // ---------------------------------------------------------------- absorbing a prefix

  /** The state once a message of any length has been added, complete blocks permuted. */
  function Feed(f: Permutation, s: State, m: Octets): State
    decreases |m|
  {
    if |m| < RATE then XorBlock(s, m) else Feed(f, f(XorBlock(s, m[..RATE])), m[RATE..])
  }

  function Added(s: State, p: nat, c: int): State
    requires p < RATE && 0 <= c < 256
  {
    s[p := XorByte(s[p], c)]
  }

  lemma XorOneMore(s: State, m: Octets, c: int)
    requires |m| < RATE && 0 <= c < 256
    ensures XorBlock(s, m + [c]) == Added(XorBlock(s, m), |m|, c)
  {
  }

  lemma XorNothing(s: State)
    ensures XorBlock(s, []) == s
  {
  }

  lemma SamePosition(n: nat)
    requires n >= RATE
    ensures (n - RATE) % RATE == n % RATE
  {
  }

  lemma NextPosition(n: nat)
    ensures (n + 1) % RATE == if n % RATE == RATE - 1 then 0 else n % RATE + 1
  {
  }

  lemma FirstBlock(f: Permutation, s: State, m: Octets, c: int)
    requires 0 <= c < 256 && |m| < RATE
    ensures var t := Added(XorBlock(s, m), |m|, c);
      Feed(f, s, m + [c]) == if |m| == RATE - 1 then f(t) else t
  {
    XorOneMore(s, m, c);
    if |m| == RATE - 1 {
      var b := m + [c];
      assert b[..RATE] == b && b[RATE..] == [];
      XorNothing(f(XorBlock(s, b)));
    }
  }

  /** One more byte. */
  lemma {:induction false} FeedByte(f: Permutation, s: State, m: Octets, c: int)
    requires 0 <= c < 256
    ensures var t := Added(Feed(f, s, m), |m| % RATE, c);
      Feed(f, s, m + [c]) == if |m| % RATE == RATE - 1 then f(t) else t
    decreases |m|
  {
    if |m| < RATE {
      FirstBlock(f, s, m, c);
    } else {
      SamePosition(|m|);
      var next := f(XorBlock(s, m[..RATE]));
      FeedByte(f, next, m[RATE..], c);
      FeedRest(f, s, m, [c]);
    }
  }

  lemma FeedRest(f: Permutation, s: State, m: Octets, t: Octets)
    requires |m| >= RATE
    ensures Feed(f, s, m + t) == Feed(f, f(XorBlock(s, m[..RATE])), m[RATE..] + t)
  {
    assert (m + t)[..RATE] == m[..RATE] && (m + t)[RATE..] == m[RATE..] + t;
  }

  /** What one byte does to the absorbing state and position. */
  lemma Fed(f: Permutation, m: Octets, c: int, p: nat, next: Octets)
    requires 0 <= c < 256 && p == |m| % RATE && next == m + [c]
    ensures |next| % RATE == if p == RATE - 1 then 0 else p + 1
    ensures var t := Added(Feed(f, ZeroState(), m), p, c);
      Feed(f, ZeroState(), next) == if p == RATE - 1 then f(t) else t
  {
    FeedByte(f, ZeroState(), m, c);
    NextPosition(|m|);
  }

  /** A whole block at a block boundary. */
  lemma {:induction false} FeedBlock(f: Permutation, s: State, m: Octets, b: Octets)
    requires |m| % RATE == 0 && |b| == RATE
    ensures Feed(f, s, m + b) == f(XorBlock(Feed(f, s, m), b))
    decreases |m|
  {
    if |m| < RATE {
      assert m + b == b && b[..RATE] == b && b[RATE..] == [];
      XorNothing(s);
      XorNothing(f(XorBlock(s, b)));
    } else {
      FeedRest(f, s, m, b);
      FeedBlock(f, f(XorBlock(s, m[..RATE])), m[RATE..], b);
    }
  }

  /** Where finalize adds the suffix and the last padding bit. */
  function Finalized(s: State, p: nat): State
    requires p < RATE
  {
    Added(Added(s, p, 0x1f), RATE - 1, 0x80)
  }

  /** The two padding bytes in one: (a xor 0x1f) xor 0x80 = a xor 0x9f. */
  lemma SuffixAndLastBit(a: int)
    requires 0 <= a < 256
    ensures XorByte(XorByte(a, 0x1f), 0x80) == XorByte(a, 0x9f) && XorByte(a, 0) == a
  {
    LxorZero(a);
    TwoFields(a, 0x1f, 0x80, 4, 5);
  }

  lemma TwoFields(a: int, c: int, y: int, d: int, k: nat)
    requires a >= 0 && 0 <= c < 32 && d >= 0 && k == 5 && y == d * 32
    ensures Lxor(Lxor(a, c), y) == Lxor(a, c + y)
  {
    var w := Pow(2, k);
    assert w == 32;
    Substitute(a / 32, w, 32);
    Substitute(d, w, 32);
    LxorDisjoint(a, a % 32, a / 32, c, y, d, k);
  }

  lemma PaddingByte(n: nat, i: nat)
    requires n <= i < RATE
    ensures n + |Padding(n)| == RATE
    ensures Padding(n)[i - n]
         == if i == n && i == RATE - 1 then 0x9f else if i == n then 0x1f else if i == RATE - 1 then 0x80 else 0
  {
    assert n % RATE == n;
  }

  lemma PaddingAdded(s: State, m: Octets)
    requires |m| < RATE
    ensures |m + Padding(|m|)| == RATE
    ensures XorBlock(s, m + Padding(|m|)) == Finalized(XorBlock(s, m), |m|)
  {
    PaddingByte(|m|, |m|);
    var p, t := m + Padding(|m|), Finalized(XorBlock(s, m), |m|);
    forall i | 0 <= i < 200 ensures XorBlock(s, p)[i] == t[i] {
      SuffixAndLastBit(s[i]);
      if |m| <= i < RATE {
        PaddingByte(|m|, i);
      }
    }
  }

  lemma OneBlock(f: Permutation, s: State, p: Octets)
    requires |p| == RATE
    ensures AbsorbBlocks(f, s, p) == f(XorBlock(s, p))
  {
    assert p[..RATE] == p && p[RATE..] == [];
  }

  /** Absorbing the padded message is feeding the message and finalizing. */
  lemma {:induction false} PaddedFeed(f: Permutation, s: State, m: Octets)
    ensures AbsorbBlocks(f, s, m + Padding(|m|)) == f(Finalized(Feed(f, s, m), |m| % RATE))
    decreases |m|
  {
    if |m| < RATE {
      PaddedShort(f, s, m);
    } else {
      var next, rest := f(XorBlock(s, m[..RATE])), m[RATE..];
      PaddedFeed(f, next, rest);
      SamePadding(|m|);
      FirstAbsorbed(f, s, m, Padding(|rest|));
      assert Feed(f, s, m) == Feed(f, next, rest);
    }
  }

  lemma PaddedShort(f: Permutation, s: State, m: Octets)
    requires |m| < RATE
    ensures AbsorbBlocks(f, s, m + Padding(|m|)) == f(Finalized(Feed(f, s, m), |m| % RATE))
  {
    PaddingAdded(s, m);
    OneBlock(f, s, m + Padding(|m|));
  }

  lemma FirstAbsorbed(f: Permutation, s: State, m: Octets, p: Octets)
    requires |m| >= RATE
    ensures AbsorbBlocks(f, s, m + p) == AbsorbBlocks(f, f(XorBlock(s, m[..RATE])), m[RATE..] + p)
  {
    assert (m + p)[..RATE] == m[..RATE] && (m + p)[RATE..] == m[RATE..] + p;
  }

  lemma SamePadding(n: nat)
    requires n >= RATE
    ensures (n - RATE) % RATE == n % RATE && Padding(n) == Padding(n - RATE)
  {
  }

  // ---------------------------------------------------------------- squeezing a stream

  function Iterate(f: Permutation, s: State, k: nat): State {
    if k == 0 then s else f(Iterate(f, s, k - 1))
  }

  lemma {:induction false} IterateShift(f: Permutation, s: State, k: nat)
    ensures Iterate(f, f(s), k) == f(Iterate(f, s, k))
  {
    if k > 0 {
      IterateShift(f, s, k - 1);
    }
  }

  /** Byte i of the output stream. */
  function StreamByte(f: Permutation, s: State, i: nat): int {
    Iterate(f, s, i / RATE)[i % RATE]
  }

  /** The squeezed bytes are the first n bytes of the stream. */
  lemma {:induction false} SqueezeIsStream(f: Permutation, s: State, n: nat, i: nat)
    requires i < n
    ensures SqueezeBlocks(f, s, n)[i] == StreamByte(f, s, i)
    decreases n
  {
    if n > RATE && i >= RATE {
      SqueezeIsStream(f, f(s), n - RATE, i - RATE);
      IterateShift(f, s, (i - RATE) / RATE);
      assert i / RATE == (i - RATE) / RATE + 1 && i % RATE == (i - RATE) % RATE;
    } else {
      assert i / RATE == 0 && i % RATE == i;
    }
  }

  // ---------------------------------------------------------------- the padding, in bits

  /** Bits of an octet string, least significant bit first (section B.1 of FIPS 202). */
  function Bits(s: seq<int>): seq<bool>
    requires Digits(256, s)
  {
    if |s| == 0 then [] else OctetBits(s[0]) + Bits(s[1..])
  }

  function OctetBits(c: int): (b: seq<bool>)
    ensures |b| == 8
  {
    [c % 2 == 1, c / 2 % 2 == 1, c / 4 % 2 == 1, c / 8 % 2 == 1,
     c / 16 % 2 == 1, c / 32 % 2 == 1, c / 64 % 2 == 1, c / 128 % 2 == 1]
  }

  /** pad10*1(x, m): section 5.1 of FIPS 202. */
  function Pad101(x: int, m: int): seq<bool>
    requires x > 0
  {
    [true] + seq((-m - 2) % x, _ => false) + [true]
  }

  lemma {:induction false} BitsAppend(s: seq<int>, t: seq<int>)
    requires Digits(256, s) && Digits(256, t)
    ensures Bits(s + t) == Bits(s) + Bits(t)
  {
    if |s| == 0 {
      assert s + t == t;
    } else {
      assert (s + t)[1..] == s[1..] + t;
      BitsAppend(s[1..], t);
    }
  }

  lemma {:induction false} ZeroBits(n: nat)
    ensures Bits(seq(n, _ => 0)) == seq(8 * n, _ => false)
  {
    if n > 0 {
      var z: seq<int> := seq(n, _ => 0);
      var y: seq<int> := seq(n - 1, _ => 0);
      assert z[1..] == y;
      ZeroBits(n - 1);
      assert OctetBits(0) == seq(8, _ => false);
    }
  }

  lemma OneOctet(c: int)
    requires 0 <= c < 256
    ensures Bits([c]) == OctetBits(c)
  {
    assert [c][1..] == [];
  }

  lemma MiddleBits(k: nat)
    ensures Bits([0x1f] + seq(k, _ => 0) + [0x80]) == OctetBits(0x1f) + seq(8 * k, _ => false) + OctetBits(0x80)
  {
    var zeros: seq<int> := seq(k, _ => 0);
    BitsAppend([0x1f], zeros);
    BitsAppend([0x1f] + zeros, [0x80]);
    ZeroBits(k);
    OneOctet(0x1f);
    OneOctet(0x80);
  }

  /** The padded message is, bit for bit, M || 1111 || pad10*1(1088, |M| + 4). */
  lemma PaddingBits(m: Octets)
    ensures Bits(Padding(|m|)) == [true, true, true, true] + Pad101(8 * RATE, 8 * |m| + 4)
  {
    PadCount(|m|);
    var q := RATE - |m| % RATE;
    if q == 1 {
      LastOctetBits();
    } else {
      MiddleBits(q - 2);
      PadShape(q - 2);
    }
  }

  lemma LastOctetBits()
    ensures Bits([0x9f]) == [true, true, true, true] + ([true] + seq(2, _ => false) + [true])
  {
    OneOctet(0x9f);
  }

  lemma PadCount(n: nat)
    ensures (-(8 * n + 4) - 2) % (8 * RATE) == 8 * (RATE - n % RATE) - 6
  {
    assert n == RATE * (n / RATE) + n % RATE;
  }

  lemma PadShape(k: nat)
    ensures OctetBits(0x1f) + seq(8 * k, _ => false) + OctetBits(0x80)
         == [true, true, true, true] + ([true] + seq(8 * k + 10, _ => false) + [true])
  {
  }
}
