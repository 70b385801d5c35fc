/** SHAKE256 as the C code computes it: 25 lanes of 64 bits, one byte at a time in both
    directions. It delivers the same bytes as the sponge on the 200-byte state. */
module NativeShake {
  import opened Arith
  import opened Radix
  import opened Words
  import opened Sponge
  import Shake256

  const LANE: int := 0x1_0000_0000_0000_0000

  type Lanes = l: seq<int> | |l| == 25 && Digits(LANE, l) witness seq(25, _ => 0)
  type LanePermutation = Lanes -> Lanes

  lemma LanePower()
    ensures Pow(256, 8) == LANE
  {
    assert Pow(256, 4) == 0x1_0000_0000;
  }

  function LaneOctets(x: int): (s: Octets)
    ensures |s| == 8
  {
    ToDigits(256, x, 8)
  }

  /** The 200 bytes the lanes hold, least significant byte of each lane first. */
  function StateBytes(l: Lanes): State {
    seq(200, i requires 0 <= i < 200 => LaneOctets(l[i / 8])[i % 8])
  }

  ghost predicate AgreesAt(f: Permutation, g: LanePermutation, l: Lanes) {
    StateBytes(g(l)) == f(StateBytes(l))
  }

  /** g permutes the lanes the way f permutes the bytes. */
  ghost predicate Agrees(f: Permutation, g: LanePermutation) {
    forall l: Lanes :: AgreesAt(f, g, l)
  }

  /** `(x >> 8 t) & 0xff` is octet t of the lane. */
  lemma {:induction false} ShiftedOctet(x: nat, t: nat, n: nat)
    requires t < n
    ensures Pow(256, t) > 0 && x / Pow(256, t) % 256 == ToDigits(256, x, n)[t]
    decreases t
  {
    PowPositive(256, t);
    if t > 0 {
      PowPositive(256, t - 1);
      ShiftedOctet(x / 256, t - 1, n - 1);
      DivideTwice(x, 256, Pow(256, t - 1));
    }
  }

  function ShiftedIn(c: int, t: nat): Octets
    requires 0 <= c < 256 && t < 8
  {
    seq(8, i requires 0 <= i < 8 => if i == t then c else 0)
  }

  lemma ShiftedInValue(c: int, t: nat)
    requires 0 <= c < 256 && t < 8
    ensures Val(256, ShiftedIn(c, t)) == c * Pow(256, t)
  {
    var z := ShiftedIn(0, t);
    ValZero(256, z);
    ValUpdate(256, z, t, c);
    assert z[t := c] == ShiftedIn(c, t);
  }

  /** Adding a shifted byte to a lane changes one of its octets. */
  lemma LaneAdded(x: int, c: int, t: nat)
    requires 0 <= x < LANE && 0 <= c < 256 && t < 8
    ensures 0 <= Lxor(x, c * Pow(256, t)) < LANE
    ensures LaneOctets(Lxor(x, c * Pow(256, t))) == LaneOctets(x)[t := XorByte(LaneOctets(x)[t], c)]
  {
    var s, b := LaneOctets(x), ShiftedIn(c, t);
    LanePower();
    ToDigitsValue(256, x, 8);
    ShiftedInValue(c, t);
    Shake256.XorOfWords(s, b);
    var y := Shake256.XorOctets(s, b);
    ValBounds(256, y);
    DigitsAreToDigits(256, y);
    forall i | 0 <= i < 8 ensures y[i] == s[t := XorByte(s[t], c)][i] {
      LxorZero(s[i]);
    }
    assert y == s[t := XorByte(s[t], c)];
  }

  lemma StateAdded(l: Lanes, p: nat, c: int)
    requires p < RATE && 0 <= c < 256
    ensures 0 <= Lxor(l[p / 8], c * Pow(256, p % 8)) < LANE
    ensures StateBytes(l[p / 8 := Lxor(l[p / 8], c * Pow(256, p % 8))]) == Added(StateBytes(l), p, c)
  {
    var k, t := p / 8, p % 8;
    LaneAdded(l[k], c, t);
    var m: Lanes := l[k := Lxor(l[k], c * Pow(256, t))];
    forall i | 0 <= i < 200 ensures StateBytes(m)[i] == Added(StateBytes(l), p, c)[i] {
      assert i == 8 * (i / 8) + i % 8 && p == 8 * k + t;
    }
  }

  class Context {
    const g: LanePermutation
    const st: array<int>
    var pos: nat
    ghost const f: Permutation
    ghost var message: Octets
    ghost var start: State
    ghost var blocks: nat

    ghost predicate Live()
      reads this, st
    {
      st.Length == 25 && Digits(LANE, st[..]) && Agrees(f, g)
    }

    ghost predicate Absorbing()
      reads this, st
    {
      Live() && pos == |message| % RATE && StateBytes(st[..]) == Feed(f, ZeroState(), message)
    }

    ghost predicate Squeezing()
      reads this, st
    {
      Live() && pos <= RATE && StateBytes(st[..]) == Iterate(f, start, blocks)
    }

    ghost function Produced(): nat
      reads this
    {
      RATE * blocks + pos
    }

    constructor (lanes: LanePermutation, ghost bytes: Permutation)
      requires Agrees(bytes, lanes)
      ensures Absorbing() && message == [] && g == lanes && f == bytes && fresh(st)
    {
      g := lanes;
      f := bytes;
      st := new int[25](_ => 0);
      pos := 0;
      message := [];
      new;
      XorNothing(ZeroState());
      ZeroLane();
      assert StateBytes(st[..]) == ZeroState();
    }

    method Permute()
      requires Live()
      modifies st
      ensures Live() && StateBytes(st[..]) == f(StateBytes(old(st[..])))
    {
      assert AgreesAt(f, g, st[..]);
      var next := g(st[..]);
      forall i | 0 <= i < 25 {
        st[i] := next[i];
      }
      assert st[..] == next;
    }

    /** `st[p / 8] ^= c << (8 (p % 8))` */
    method XorAt(p: nat, c: int)
      requires Live() && p < RATE && 0 <= c < 256
      modifies st
      ensures Live() && StateBytes(st[..]) == Added(StateBytes(old(st[..])), p, c)
    {
      ghost var before := st[..];
      StateAdded(before, p, c);
      st[p / 8] := Lxor(st[p / 8], c * Pow(256, p % 8));
      assert st[..] == before[p / 8 := st[p / 8]];
    }

    /** `if (++pos == RATE) { permute; pos = 0; }` */
    method Advance(ghost next: Octets)
      requires Live() && pos < RATE && |next| % RATE == (if pos == RATE - 1 then 0 else pos + 1)
      requires Feed(f, ZeroState(), next) == if pos == RATE - 1 then f(StateBytes(st[..])) else StateBytes(st[..])
      modifies this`pos, this`message, st
      ensures Absorbing() && message == next
    {
      message := next;
      pos := pos + 1;
      if pos == RATE {
        Permute();
        pos := 0;
      }
    }

    method AbsorbByte(c: int)
      requires Absorbing() && 0 <= c < 256
      modifies this`pos, this`message, st
      ensures Absorbing() && message == old(message) + [c]
    {
      Fed(f, message, c, pos, message + [c]);
      XorAt(pos, c);
      Advance(message + [c]);
    }

    method Absorb(s: Octets)
      requires Absorbing()
      modifies this`pos, this`message, st
      ensures Absorbing() && message == old(message) + s
    {
      for i := 0 to |s|
        invariant Absorbing() && message == old(message) + s[..i]
      {
        AbsorbByte(s[i]);
        assert s[..i + 1] == s[..i] + [s[i]];
      }
      assert s[..|s|] == s;
    }

    method Finalize()
      requires Absorbing()
      modifies this`pos, this`start, this`blocks, st
      ensures Squeezing() && Produced() == 0
      ensures start == AbsorbBlocks(f, ZeroState(), message + Padding(|message|))
    {
      XorAt(pos, 0x1f);
      XorAt(RATE - 1, 0x80);
      PaddedFeed(f, ZeroState(), message);
      Permute();
      pos := 0;
      blocks := 0;
      start := StateBytes(st[..]);
    }

    /** `(uint8_t)(st[p / 8] >> (8 (p % 8)))` */
    method ByteAt(p: nat) returns (c: int)
      requires Live() && p < 200
      ensures c == StateBytes(st[..])[p]
    {
      var lane, t := st[p / 8], p % 8;
      ShiftedOctet(lane, t, 8);
      c := lane / Pow(256, t) % 256;
    }

    /** Permutes once a block is used up. */
    method NextBlock()
      requires Squeezing()
      modifies this`pos, this`blocks, st
      ensures Squeezing() && pos < RATE && Produced() == old(Produced())
    {
      if pos == RATE {
        Permute();
        pos := 0;
        blocks := blocks + 1;
      }
    }

    method SqueezeByte() returns (c: int)
      requires Squeezing()
      modifies this`pos, this`blocks, st
      ensures Squeezing() && Produced() == old(Produced()) + 1
      ensures c == StreamByte(f, start, old(Produced()))
    {
      NextBlock();
      Shake256.StreamPosition(f, start, Produced(), blocks, pos);
      c := ByteAt(pos);
      pos := pos + 1;
    }

    /** The next n bytes of the stream. */
    method Squeeze(n: nat) returns (out: seq<int>)
      requires Squeezing()
      modifies this`pos, this`blocks, st
      ensures Squeezing() && Produced() == old(Produced()) + n && |out| == n
      ensures Shake256.IsStream(f, start, old(Produced()), out)
    {
      out := [];
      for i := 0 to n
        invariant Squeezing() && Produced() == old(Produced()) + i && |out| == i
        invariant Shake256.IsStream(f, start, old(Produced()), out)
      {
        var c := SqueezeByte();
        out := out + [c];
      }
    }
  }

  lemma ZeroLane()
    ensures LaneOctets(0) == [0, 0, 0, 0, 0, 0, 0, 0]
  {
    assert ToDigits(256, 0, 4) == [0, 0, 0, 0];
  }

  /** The C one-shot hash. */
  method Digest(g: LanePermutation, ghost f: Permutation, message: Octets, n: nat) returns (digest: seq<int>)
    requires Agrees(f, g)
    ensures digest == Sponge.Shake256(f, message, n)
  {
    var t := new Context(g, f);
    t.Absorb(message);
    assert t.message == message;
    t.Finalize();
    digest := SqueezeOnce(t, message, n);
  }

  method SqueezeOnce(t: Context, ghost message: Octets, n: nat) returns (digest: seq<int>)
    requires t.Squeezing() && t.Produced() == 0
    requires t.start == AbsorbBlocks(t.f, ZeroState(), message + Padding(|message|))
    modifies t`pos, t`blocks, t.st
    ensures digest == Sponge.Shake256(t.f, message, n)
  {
    digest := t.Squeeze(n);
    Shake256.StreamIsShake(t.f, message, t.start, digest);
  }

  // ---------------------------------------------------------------- any split into calls

  method AbsorbAll(t: Context, parts: seq<Octets>)
    requires t.Absorbing()
    modifies t`pos, t`message, t.st
    ensures t.Absorbing() && t.message == old(t.message) + Shake256.Flat(parts)
  {
    for i := 0 to |parts|
      invariant t.Absorbing() && t.message == old(t.message) + Shake256.Flat(parts[..i])
    {
      t.Absorb(parts[i]);
      Shake256.FlatSnoc(parts, i);
    }
    assert parts[..|parts|] == parts;
  }

  method SqueezeAll(t: Context, sizes: seq<nat>) returns (chunks: seq<seq<int>>, ghost all: seq<int>)
    requires t.Squeezing() && t.Produced() == 0
    modifies t`pos, t`blocks, t.st
    ensures Shake256.Sized(chunks, sizes) && all == Shake256.Joined(chunks) && |all| == Shake256.Total(sizes)
    ensures Shake256.IsStream(t.f, t.start, 0, all)
  {
    chunks, all := [], [];
    for i := 0 to |sizes|
      invariant t.Squeezing() && t.Produced() == Shake256.Total(sizes[..i]) == |all|
      invariant Shake256.Sized(chunks, sizes[..i]) && all == Shake256.Joined(chunks)
      invariant Shake256.IsStream(t.f, t.start, 0, all)
    {
      var chunk := t.Squeeze(sizes[i]);
      Shake256.TotalSnoc(sizes, i);
      Shake256.JoinedSnoc(chunks, chunk);
      Shake256.SizedSnoc(chunks, sizes, i, chunk);
      Shake256.StreamJoin(t.f, t.start, all, chunk);
      chunks := chunks + [chunk];
      all := all + chunk;
    }
    assert sizes[..|sizes|] == sizes;
  }

  /** As Shake256.Chunked, for the C code: both deliver the same chunks. */
  method Chunked(g: LanePermutation, ghost f: Permutation, parts: seq<Octets>, sizes: seq<nat>)
    returns (chunks: seq<seq<int>>)
    requires Agrees(f, g)
    ensures Shake256.Joined(chunks) == Sponge.Shake256(f, Shake256.Flat(parts), Shake256.Total(sizes))
    ensures Shake256.Sized(chunks, sizes)
  {
    var t := new Context(g, f);
    AbsorbAll(t, parts);
    assert [] + Shake256.Flat(parts) == Shake256.Flat(parts);
    t.Finalize();
    ghost var all;
    chunks, all := SqueezeAll(t, sizes);
    Shake256.StreamIsShake(f, Shake256.Flat(parts), t.start, all);
  }
}
