/** SHAKE256 as the OCaml code computes it: a 200-byte state changed in place, a whole-block path
    at block boundaries, and any number of absorb and squeeze calls. */
module Shake256 {
  import opened Arith
  import opened Radix
  import opened Words
  import opened Sponge

  /** Bytewise exclusive or of equally long strings. */
  function XorOctets(a: Octets, b: Octets): (r: Octets)
    requires |a| == |b|
    ensures |r| == |a|
  {
    seq(|a|, i requires 0 <= i < |a| => XorByte(a[i], b[i]))
  }

  /** The exclusive or of two little-endian words is the word of the bytewise exclusive or. */
  lemma {:induction false} XorOfWords(a: Octets, b: Octets)
    requires |a| == |b|
    ensures Lxor(Val(256, a), Val(256, b)) == Val(256, XorOctets(a, b))
  {
    if |a| == 0 {
      assert Lxor(0, 0) == 0;
    } else {
      var n := |a| - 1;
      XorOfWords(a[..n], b[..n]);
      assert XorOctets(a, b)[..n] == XorOctets(a[..n], b[..n]);
      ValBounds(256, a[..n]);
      ValBounds(256, b[..n]);
      BytePower(n);
      LxorSplit(Val(256, a[..n]), a[n], Val(256, b[..n]), b[n], 8 * n);
    }
  }

  lemma BytePower(n: nat)
    ensures Pow(2, 8 * n) == Pow(256, n)
  {
    assert Pow(2, 8) == 256;
    PowMul(2, 8, n);
  }

  /** A 64-bit load, exclusive or and store is a bytewise exclusive or. */
  lemma LaneXor(a: Octets, b: Octets)
    requires |a| == |b|
    ensures ToDigits(256, Lxor(Val(256, a), Val(256, b)), |a|) == XorOctets(a, b)
  {
    XorOfWords(a, b);
    DigitsAreToDigits(256, XorOctets(a, b));
  }

  class Shake {
    const f: Permutation
    const state: array<int>
    var pos: nat
    ghost var message: Octets
    ghost var start: State
    ghost var blocks: nat

    ghost predicate Live()
      reads this, state
    {
      state.Length == 200 && Digits(256, state[..])
    }

    /** The message so far has been fed into the state; pos is where the next byte goes. */
    ghost predicate Absorbing()
      reads this, state
    {
      Live() && pos == |message| % RATE && state[..] == Feed(f, ZeroState(), message)
    }

    /** The number of bytes squeezed so far. */
    ghost function Produced(): nat
      reads this
    {
      RATE * blocks + pos
    }

    /** The state is the start of the output permuted `blocks` times. */
    ghost predicate Squeezing()
      reads this, state
    {
      Live() && pos <= RATE && state[..] == Iterate(f, start, blocks)
    }

    constructor (permutation: Permutation)
      ensures Absorbing() && message == [] && f == permutation && fresh(state)
    {
      f := permutation;
      state := new int[200](_ => 0);
      pos := 0;
      message := [];
      new;
      XorNothing(ZeroState());
      assert state[..] == ZeroState();
    }

    /** `Keccak.permute`, as any permutation of the state. */
    method Permute()
      requires Live()
      modifies state
      ensures Live() && state[..] == f(old(state[..]))
    {
      var next := f(state[..]);
      forall i | 0 <= i < 200 {
        state[i] := next[i];
      }
      assert state[..] == next;
    }

    method XorAt(p: nat, c: int)
      requires Live() && p < RATE && 0 <= c < 256
      modifies state
      ensures Live() && state[..] == Added(old(state[..]), p, c)
    {
      ghost var before := state[..];
      state[p] := XorByte(state[p], c);
      assert state[..] == Added(before, p, c);
    }

    method AbsorbByte(c: int)
      requires Absorbing() && 0 <= c < 256
      modifies this`pos, this`message, state
      ensures Absorbing() && message == old(message) + [c]
    {
      Fed(f, message, c, pos, message + [c]);
      var p := pos;
      XorAt(p, c);
      if p == RATE - 1 {
        Permute();
        pos := 0;
      } else {
        pos := p + 1;
      }
      message := message + [c];
    }

    /** One 64-bit lane of a whole block. */
    method XorLane(o: nat, s: Octets, i: nat)
      requires Live() && o + 8 <= RATE && i + 8 <= |s|
      modifies state
      ensures Live() && forall k :: o <= k < o + 8 ==> state[k] == XorByte(old(state[k]), s[i + (k - o)])
      ensures forall k :: 0 <= k < 200 && !(o <= k < o + 8) ==> state[k] == old(state[k])
    {
      var a: seq<int>, b: seq<int> := state[o..o + 8], s[i..i + 8];
      LaneXor(a, b);
      var bytes := ToDigits(256, Lxor(Val(256, a), Val(256, b)), 8);
      StoreLane(o, bytes);
    }

    method StoreLane(o: nat, bytes: Octets)
      requires Live() && o + 8 <= RATE && |bytes| == 8
      modifies state
      ensures Live() && forall k :: o <= k < o + 8 ==> state[k] == bytes[k - o]
      ensures forall k :: 0 <= k < 200 && !(o <= k < o + 8) ==> state[k] == old(state[k])
    {
      forall k | o <= k < o + 8 {
        state[k] := bytes[k - o];
      }
    }

    /** The seventeen lanes of a whole block. */
    method XorLanes(s: Octets, i: nat)
      requires Live() && i + RATE <= |s|
      modifies state
      ensures Live() && state[..] == XorBlock(old(state[..]), s[i..i + RATE])
    {
      ghost var before, block := state[..], s[i..i + RATE];
      for lane := 0 to RATE / 8
        invariant Live()
        invariant forall k :: 0 <= k < 8 * lane ==> state[k] == XorByte(before[k], block[k])
        invariant forall k :: 8 * lane <= k < 200 ==> state[k] == before[k]
      {
        XorLane(8 * lane, s, i + 8 * lane);
      }
      assert state[..] == XorBlock(before, block);
    }

    /** A whole block at a block boundary, eight bytes at a time. */
    method AbsorbBlock(s: Octets, i: nat)
      requires Absorbing() && pos == 0 && i + RATE <= |s|
      modifies this`message, state
      ensures Absorbing() && message == old(message) + s[i..i + RATE]
    {
      FeedBlock(f, ZeroState(), message, s[i..i + RATE]);
      XorLanes(s, i);
      Permute();
      message := message + s[i..i + RATE];
    }

    /** `absorb_sub`: the bytes of s from off, len of them. */
    method AbsorbSub(s: Octets, off: nat, len: nat)
      requires Absorbing() && off + len <= |s|
      modifies this`pos, this`message, state
      ensures Absorbing() && message == old(message) + s[off..off + len]
    {
      var i, stop := off, off + len;
      while i < stop
        invariant off <= i <= stop && Absorbing() && message == old(message) + s[off..i]
      {
        if pos == 0 && stop - i >= RATE {
          AbsorbBlock(s, i);
          assert s[off..i + RATE] == s[off..i] + s[i..i + RATE];
          i := i + RATE;
        } else {
          AbsorbByte(s[i]);
          assert s[off..i + 1] == s[off..i] + [s[i]];
          i := i + 1;
        }
      }
    }

    method Absorb(s: Octets)
      requires Absorbing()
      modifies this`pos, this`message, state
      ensures Absorbing() && message == old(message) + s
    {
      AbsorbSub(s, 0, |s|);
      assert s[0..|s|] == s;
    }

    /** The suffix, the padding and the switch to squeezing. */
    method Finalize()
      requires Absorbing()
      modifies this`pos, this`start, this`blocks, state
      ensures Squeezing() && Produced() == 0
      ensures start == AbsorbBlocks(f, ZeroState(), message + Padding(|message|))
    {
      XorAt(pos, 0x1f);
      XorAt(RATE - 1, 0x80);
      PaddedFeed(f, ZeroState(), message);
      Permute();
      pos := 0;
      blocks := 0;
      start := state[..];
    }

    /** Permutes once a block is used up. */
    method NextBlock()
      requires Squeezing()
      modifies this`pos, this`blocks, state
      ensures Squeezing() && pos < RATE && Produced() == old(Produced())
    {
      if pos == RATE {
        Permute();
        pos := 0;
        blocks := blocks + 1;
      }
    }

    /** One byte of the stream, permuting first when a block is used up. */
    method SqueezeByte() returns (c: int)
      requires Squeezing()
      modifies this`pos, this`blocks, state
      ensures Squeezing() && Produced() == old(Produced()) + 1
      ensures c == StreamByte(f, start, old(Produced()))
    {
      NextBlock();
      StreamPosition(f, start, Produced(), blocks, pos);
      c := state[pos];
      pos := pos + 1;
    }

    /** The next len bytes of the stream. */
    method Squeeze(out: array<int>, off: nat, len: nat)
      requires Squeezing() && off + len <= out.Length && out != state
      modifies this`pos, this`blocks, state, out
      ensures Squeezing() && Produced() == old(Produced()) + len
      ensures forall k :: off <= k < off + len ==> out[k] == StreamByte(f, start, old(Produced()) + (k - off))
      ensures forall k :: 0 <= k < out.Length && !(off <= k < off + len) ==> out[k] == old(out[k])
    {
      for i := off to off + len
        invariant Squeezing() && Produced() == old(Produced()) + (i - off)
        invariant forall k :: off <= k < i ==> out[k] == StreamByte(f, start, old(Produced()) + (k - off))
        invariant forall k :: 0 <= k < out.Length && !(off <= k < i) ==> out[k] == old(out[k])
      {
        out[i] := SqueezeByte();
      }
    }
  }

  lemma StreamPosition(f: Permutation, s: State, i: nat, k: nat, p: nat)
    requires p < RATE && i == RATE * k + p
    ensures StreamByte(f, s, i) == Iterate(f, s, k)[p]
  {
    QuotientUnique(i, RATE, k, p);
  }

  lemma StreamIsBlocks(f: Permutation, start: State, out: seq<int>)
    requires forall k :: 0 <= k < |out| ==> out[k] == StreamByte(f, start, k)
    ensures out == SqueezeBlocks(f, start, |out|)
  {
    var z := SqueezeBlocks(f, start, |out|);
    forall k | 0 <= k < |out| ensures out[k] == z[k] {
      SqueezeIsStream(f, start, |out|, k);
    }
  }

  /** A stream that starts from the absorbed, padded message is SHAKE256. */
  lemma StreamIsShake(f: Permutation, message: Octets, start: State, out: seq<int>)
    requires start == AbsorbBlocks(f, ZeroState(), message + Padding(|message|))
    requires forall k :: 0 <= k < |out| ==> out[k] == StreamByte(f, start, k)
    ensures out == Shake256(f, message, |out|)
  {
    StreamIsBlocks(f, start, out);
  }

  /** `digest_into`: one absorb, one squeeze. */
  method Digest(f: Permutation, message: Octets, n: nat) returns (digest: seq<int>)
    ensures digest == Shake256(f, message, n)
  {
    var t := new Shake(f);
    t.Absorb(message);
    assert t.message == message;
    t.Finalize();
    digest := SqueezeOnce(t, message, n);
  }

  method SqueezeOnce(t: Shake, ghost message: Octets, n: nat) returns (digest: seq<int>)
    requires t.Squeezing() && t.Produced() == 0
    requires t.start == AbsorbBlocks(t.f, ZeroState(), message + Padding(|message|))
    modifies t`pos, t`blocks, t.state
    ensures digest == Shake256(t.f, message, n)
  {
    var out := new int[n];
    t.Squeeze(out, 0, n);
    digest := out[..];
    StreamIsShake(t.f, message, t.start, digest);
  }

  // ---------------------------------------------------------------- any split into calls

  function Flat(parts: seq<Octets>): Octets {
    if |parts| == 0 then [] else Flat(parts[..|parts| - 1]) + parts[|parts| - 1]
  }

  function Total(sizes: seq<nat>): nat {
    if |sizes| == 0 then 0 else Total(sizes[..|sizes| - 1]) + sizes[|sizes| - 1]
  }

  lemma FlatSnoc(parts: seq<Octets>, i: nat)
    requires i < |parts|
    ensures Flat(parts[..i + 1]) == Flat(parts[..i]) + parts[i]
  {
    assert parts[..i + 1][..i] == parts[..i];
  }

  lemma TotalSnoc(sizes: seq<nat>, i: nat)
    requires i < |sizes|
    ensures Total(sizes[..i + 1]) == Total(sizes[..i]) + sizes[i]
  {
    assert sizes[..i + 1][..i] == sizes[..i];
  }

  /** out is the stretch of the output stream that starts at position from. */
  ghost predicate IsStream(f: Permutation, start: State, from: nat, out: seq<int>) {
    forall k :: 0 <= k < |out| ==> out[k] == StreamByte(f, start, from + k)
  }

  lemma StreamJoin(f: Permutation, start: State, a: seq<int>, b: seq<int>)
    requires IsStream(f, start, 0, a) && IsStream(f, start, |a|, b)
    ensures IsStream(f, start, 0, a + b)
  {
    forall k | 0 <= k < |a + b| ensures (a + b)[k] == StreamByte(f, start, 0 + k) {
      if k >= |a| {
        assert b[k - |a|] == StreamByte(f, start, |a| + (k - |a|));
      }
    }
  }

  /** Each chunk has the size asked for. */
  predicate Sized(chunks: seq<seq<int>>, sizes: seq<nat>) {
    |chunks| == |sizes| && forall i :: 0 <= i < |sizes| ==> |chunks[i]| == sizes[i]
  }

  lemma SizedSnoc(chunks: seq<seq<int>>, sizes: seq<nat>, i: nat, chunk: seq<int>)
    requires i < |sizes| && Sized(chunks, sizes[..i]) && |chunk| == sizes[i]
    ensures Sized(chunks + [chunk], sizes[..i + 1])
  {
    assert sizes[..i + 1] == sizes[..i] + [sizes[i]];
  }

  method AbsorbAll(t: Shake, parts: seq<Octets>)
    requires t.Absorbing()
    modifies t`pos, t`message, t.state
    ensures t.Absorbing() && t.message == old(t.message) + Flat(parts)
  {
    for i := 0 to |parts|
      invariant t.Absorbing() && t.message == old(t.message) + Flat(parts[..i])
    {
      t.Absorb(parts[i]);
      FlatSnoc(parts, i);
    }
    assert parts[..|parts|] == parts;
  }

  /** Consecutive chunks of the given sizes; `all` is their concatenation. */
  method SqueezeAll(t: Shake, sizes: seq<nat>) returns (chunks: seq<seq<int>>, ghost all: seq<int>)
    requires t.Squeezing() && t.Produced() == 0
    modifies t`pos, t`blocks, t.state
    ensures Sized(chunks, sizes) && all == Joined(chunks) && |all| == Total(sizes)
    ensures IsStream(t.f, t.start, 0, all)
  {
    chunks, all := [], [];
    for i := 0 to |sizes|
      invariant t.Squeezing() && t.Produced() == Total(sizes[..i]) == |all|
      invariant Sized(chunks, sizes[..i]) && all == Joined(chunks)
      invariant IsStream(t.f, t.start, 0, all)
    {
      var chunk := SqueezeChunk(t, sizes[i]);
      TotalSnoc(sizes, i);
      JoinedSnoc(chunks, chunk);
      SizedSnoc(chunks, sizes, i, chunk);
      StreamJoin(t.f, t.start, all, chunk);
      chunks := chunks + [chunk];
      all := all + chunk;
    }
    assert sizes[..|sizes|] == sizes;
  }

  method SqueezeChunk(t: Shake, n: nat) returns (chunk: seq<int>)
    requires t.Squeezing()
    modifies t`pos, t`blocks, t.state
    ensures t.Squeezing() && t.Produced() == old(t.Produced()) + n && |chunk| == n
    ensures IsStream(t.f, t.start, old(t.Produced()), chunk)
  {
    var out := new int[n];
    t.Squeeze(out, 0, n);
    chunk := out[..];
  }

  lemma JoinedSnoc(chunks: seq<seq<int>>, chunk: seq<int>)
    ensures Joined(chunks + [chunk]) == Joined(chunks) + chunk
  {
    assert (chunks + [chunk])[..|chunks|] == chunks;
  }

  function Joined(chunks: seq<seq<int>>): seq<int> {
    if |chunks| == 0 then [] else Joined(chunks[..|chunks| - 1]) + chunks[|chunks| - 1]
  }

  /** Any split of the message into absorb calls and any split of the output into squeeze calls
      give the bytes of SHAKE256 on the concatenated message. */
  method Chunked(f: Permutation, parts: seq<Octets>, sizes: seq<nat>) returns (chunks: seq<seq<int>>)
    ensures Joined(chunks) == Shake256(f, Flat(parts), Total(sizes))
    ensures Sized(chunks, sizes)
  {
    var t := new Shake(f);
    AbsorbAll(t, parts);
    assert [] + Flat(parts) == Flat(parts);
    t.Finalize();
    ghost var all;
    chunks, all := SqueezeAll(t, sizes);
    StreamIsShake(f, Flat(parts), t.start, all);
  }
}
