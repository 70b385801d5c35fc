/** Every run of SHAKE256 spelled out: the padded octets, each state before and after the
    permutation, and where each output octet comes from. The rate is 136 octets, the other 64 of
    the state (the capacity of 512 bits) are neither added to nor output. */
module SpongeTrace {
  import opened Radix
  import opened Words
  import opened Sponge

  /** The states t[k] before and u[k] after block k of p is added. */
  ghost predicate Absorbs(f: Permutation, p: Octets, t: seq<State>, u: seq<State>) {
    && |t| == |u| + 1 && |p| == RATE * |u|
    && (forall k :: 0 <= k < |u| ==> Adds(t[k], p, k, u[k]))
    && (forall k :: 0 <= k < |u| ==> t[k + 1] == f(u[k]))
  }

  ghost predicate Adds(s: State, p: Octets, k: nat, v: State)
    requires RATE * k + RATE <= |p|
  {
    v == XorBlock(s, p[RATE * k..RATE * k + RATE])
  }

  lemma LaterBlock(s: State, p: Octets, rest: Octets, k: nat, v: State)
    requires k > 0 && RATE * k + RATE <= |p| && rest == p[RATE..] && Adds(s, rest, k - 1, v)
    ensures Adds(s, p, k, v)
  {
    assert rest[RATE * (k - 1)..RATE * (k - 1) + RATE] == p[RATE * k..RATE * k + RATE];
  }

  lemma Prepend(f: Permutation, s: State, p: Octets, v: State, rest: Octets, t: seq<State>, u: seq<State>)
    requires |p| >= RATE && rest == p[RATE..] && v == XorBlock(s, p[..RATE])
    requires Absorbs(f, rest, t, u) && t[0] == f(v)
    ensures Absorbs(f, p, [s] + t, [v] + u)
  {
    forall k | 0 <= k < |u| + 1 ensures Adds(([s] + t)[k], p, k, ([v] + u)[k]) {
      if k > 0 {
        assert Adds(t[k - 1], rest, k - 1, u[k - 1]);
        LaterBlock(t[k - 1], p, rest, k, u[k - 1]);
      }
    }
  }

  lemma {:induction false} AbsorbTrace(f: Permutation, s: State, p: Octets) returns (t: seq<State>, u: seq<State>)
    requires |p| % RATE == 0
    ensures Absorbs(f, p, t, u) && t[0] == s && t[|u|] == AbsorbBlocks(f, s, p)
    decreases |p|
  {
    if |p| < RATE {
      t, u := [s], [];
    } else {
      var v := XorBlock(s, p[..RATE]);
      t, u := AbsorbTrace(f, f(v), p[RATE..]);
      Prepend(f, s, p, v, p[RATE..], t, u);
      t, u := [s] + t, [v] + u;
    }
  }

  lemma AddedBit(a: int, b: int, z: nat)
    requires 0 <= a < 256 && 0 <= b < 256
    ensures Bit(XorByte(a, b), z) == (Bit(a, z) + Bit(b, z)) % 2
  {
    LxorBit(a, b, z);
  }

  lemma PaddingOctets(n: nat, i: nat)
    requires i < |Padding(n)|
    ensures Padding(n)[i] == (if i == 0 then 0x1f else 0) + (if i == |Padding(n)| - 1 then 0x80 else 0)
  {
  }

  /** The message with the SHAKE suffix and pad10*1, in octets. */
  lemma Padded(m: Octets) returns (p: Octets)
    ensures p == m + Padding(|m|) && |m| < |p| <= |m| + 136 && |p| % 136 == 0 && p[..|m|] == m
    ensures forall i :: |m| <= i < |p| ==> p[i] == (if i == |m| then 0x1f else 0) + (if i == |p| - 1 then 0x80 else 0)
  {
    p := m + Padding(|m|);
    forall i | |m| <= i < |p| ensures p[i] == (if i == |m| then 0x1f else 0) + (if i == |p| - 1 then 0x80 else 0) {
      PaddingOctets(|m|, i - |m|);
    }
  }

  /** Block k is added to the first 136 octets and to nothing else. */
  lemma BlockAdded(s: State, p: Octets, k: nat, v: State, j: nat, z: nat)
    requires 136 * k + 136 <= |p| && Adds(s, p, k, v) && j < 200
    ensures Bit(v[j], z) == if j < 136 then (Bit(s[j], z) + Bit(p[136 * k + j], z)) % 2 else Bit(s[j], z)
    ensures j >= 136 ==> v[j] == s[j]
  {
    if j < 136 {
      AddedBit(s[j], p[136 * k + j], z);
    }
  }

  lemma BlocksAdded(f: Permutation, p: Octets, t: seq<State>, u: seq<State>)
    requires Absorbs(f, p, t, u)
    ensures forall k, j, z: nat :: 0 <= k < |u| && 0 <= j < 136 ==>
      Bit(u[k][j], z) == (Bit(t[k][j], z) + Bit(p[136 * k + j], z)) % 2
    ensures forall k, j :: 0 <= k < |u| && 136 <= j < 200 ==> u[k][j] == t[k][j]
  {
    forall k, j, z: nat | 0 <= k < |u| && 0 <= j < 136
      ensures Bit(u[k][j], z) == (Bit(t[k][j], z) + Bit(p[136 * k + j], z)) % 2
    {
      BlockAdded(t[k], p, k, u[k], j, z);
    }
    forall k, j | 0 <= k < |u| && 136 <= j < 200 ensures u[k][j] == t[k][j] {
      BlockAdded(t[k], p, k, u[k], j, 0);
    }
  }

  /** Output octet i is octet i % 136 of the state permuted i / 136 times. */
  lemma SqueezeTrace(f: Permutation, start: State, n: nat) returns (o: seq<State>)
    ensures |o| == n / 136 + 1 && o[0] == start && forall k :: 0 <= k < n / 136 ==> o[k + 1] == f(o[k])
    ensures forall i :: 0 <= i < n ==> SqueezeBlocks(f, start, n)[i] == o[i / 136][i % 136]
  {
    o := seq(n / 136 + 1, k requires 0 <= k <= n / 136 => Iterate(f, start, k));
    forall i | 0 <= i < n ensures SqueezeBlocks(f, start, n)[i] == o[i / 136][i % 136] {
      SqueezeIsStream(f, start, n, i);
    }
  }

  /** SHAKE256(m, n), step by step. */
  lemma ShakeTrace(f: Permutation, m: Octets, n: nat)
    returns (p: Octets, t: seq<State>, u: seq<State>, o: seq<State>)
    ensures |m| < |p| <= |m| + 136 && |p| == 136 * |u| && p[..|m|] == m
    ensures forall i :: |m| <= i < |p| ==> p[i] == (if i == |m| then 0x1f else 0) + (if i == |p| - 1 then 0x80 else 0)
    ensures |t| == |u| + 1 && t[0] == seq(200, _ => 0)
    ensures forall k, j, z: nat :: 0 <= k < |u| && 0 <= j < 136 ==>
      Bit(u[k][j], z) == (Bit(t[k][j], z) + Bit(p[136 * k + j], z)) % 2
    ensures forall k, j :: 0 <= k < |u| && 136 <= j < 200 ==> u[k][j] == t[k][j]
    ensures forall k :: 0 <= k < |u| ==> t[k + 1] == f(u[k])
    ensures |o| == n / 136 + 1 && o[0] == t[|u|] && forall k :: 0 <= k < n / 136 ==> o[k + 1] == f(o[k])
    ensures |Sponge.Shake256(f, m, n)| == n
    ensures forall i :: 0 <= i < n ==> Sponge.Shake256(f, m, n)[i] == o[i / 136][i % 136]
  {
    p := Padded(m);
    t, u := AbsorbTrace(f, ZeroState(), p);
    BlocksAdded(f, p, t, u);
    o := SqueezeTrace(f, t[|u|], n);
  }
}
