/** The two scalar multiplications: a fixed-base comb of 112 table additions and 28 doublings,
    and a variable-base multiplication in 112 signed windows. Both compute a P, the value the
    reference double-and-add computes bit by bit. */
module GeScalar {
  import opened Radix
  import opened FieldOps
  import opened Curve
  import opened Group
  import opened Extended
  import opened Ge448
  import opened GeSelect
  import opened Order
  import Comb
  import Recode
  import Sc448

  lemma AddMultiples(m: int, n: int, p: Point)
    requires GroupFacts() && OnCurve(p)
    ensures Curve.Add(SMul(m, p), SMul(n, p)) == SMul(m + n, p)
    ensures OnCurve(SMul(m, p))
  {
    SMulAdd(m, n, p);
    SMulOnCurve(m, p);
  }

  lemma TwiceMultiple(m: int, p: Point)
    requires GroupFacts() && OnCurve(p)
    ensures Twice(SMul(m, p)) == SMul(2 * m, p)
  {
    SMulAdd(m, m, p);
  }

  lemma SixteenMultiples(m: int, p: Point)
    requires GroupFacts() && OnCurve(p)
    ensures SixteenTimes(SMul(m, p)) == SMul(16 * m, p)
  {
    TwiceMultiple(m, p);
    TwiceMultiple(2 * m, p);
    TwiceMultiple(4 * m, p);
    TwiceMultiple(8 * m, p);
  }

  /** h <- 16 h, skipped while h is still the identity. */
  method Shift(h: Ge, first: bool, ghost total: int, ghost p: Point)
    requires GroupFacts() && OnCurve(p) && h.Is(SMul(total, p)) && (first ==> total == 0)
    modifies h
    ensures h.Is(SMul(16 * total, p))
  {
    if !first {
      ForgetT(V(h.x), V(h.y), V(h.z), V(h.t), SMul(total, p));
      h.Mul16(SMul(total, p));
      SixteenMultiples(total, p);
    }
  }

  /** h += digit 2^(32 j) B */
  method AddDigit(h: Ge, q: Ge, tbl: seq<int>, j: nat, digit: int, ghost acc: int, ghost n: int, ghost b: Point)
    requires GroupFacts() && OnCurve(b) && BaseTable(tbl, b) && h != q && j < 14 && -8 <= digit <= 8
    requires h.Is(SMul(acc, b)) && n == digit * Pow(16, 8 * j)
    modifies h, q
    ensures h.Is(SMul(acc + n, b))
  {
    SelectBase(q, tbl, j, digit, b);
    AddMultiples(acc, n, b);
    h.AddAffine(h, q, SMul(acc, b), SMul(n, b));
  }

  /** One row of the comb: fourteen mixed additions. */
  method AddRow(h: Ge, q: Ge, tbl: seq<int>, e: seq<int>, r: nat, ghost acc: int, ghost b: Point)
    requires GroupFacts() && OnCurve(b) && BaseTable(tbl, b) && h != q
    requires Recode.SignedDigits(e) && r < 8 && h.Is(SMul(acc, b))
    modifies h, q
    ensures h.Is(SMul(acc + Comb.Row(e, 14, r), b))
  {
    ghost var total := acc;
    for j := 0 to 14
      invariant total == acc + Comb.Row(e, j, r) && h.Is(SMul(total, b))
    {
      var digit := e[8 * j + r];
      ghost var n := digit * Pow(16, 8 * j);
      AddDigit(h, q, tbl, j, digit, total, n, b);
      total := total + n;
    }
  }

  /** `scalarmult_base`: h <- a B for any scalar a below 2^446. */
  method ScalarmultBase(h: Ge, a: array<int>, tbl: seq<int>, ghost b: Point)
    requires GroupFacts() && OnCurve(b) && BaseTable(tbl, b)
    requires a.Length == 16 && Sc448.Reduced(a[..]) && Val(0x1000_0000, a[..]) < TWO_446
    modifies h
    ensures h.Is(SMul(Val(0x1000_0000, a[..]), b))
  {
    var q := new Ge();
    var e := new int[112];
    Recode.FromLimbs(e, a[..]);
    ghost var digits := e[..];
    assert SMul(0, b) == Identity;
    h.SetIdentity();
    var r := 8;
    while r > 0
      invariant 0 <= r <= 8 && h.Is(SMul(Comb.Rows(digits, 14, r), b))
      invariant e[..] == digits && fresh(q) && fresh(e)
    {
      r := r - 1;
      ghost var total := Comb.Rows(digits, 14, r + 1);
      Shift(h, r == 7, total, b);
      AddRow(h, q, tbl, e[..], r, 16 * total, b);
    }
    Comb.RowsAreValue(digits, 14);
    assert digits[..112] == digits;
  }

  method DoubleInto(m: Ge, src: Ge, ghost n: int, ghost a: Point)
    requires GroupFacts() && OnCurve(a) && src.Is(SMul(n, a))
    modifies m
    ensures m.Is(SMul(2 * n, a))
  {
    ForgetT(V(src.x), V(src.y), V(src.z), V(src.t), SMul(n, a));
    TwiceMultiple(n, a);
    m.Double(src, true, SMul(n, a));
  }

  method AddP(m: Ge, src: Ge, cached: Ge, ghost n: int, ghost a: Point)
    requires GroupFacts() && OnCurve(a) && src.Is(SMul(n, a)) && cached.IsCached(a)
    modifies m
    ensures m.Is(SMul(n + 1, a))
  {
    SMulSucc(n, a);
    m.AddCached(src, cached, SMul(n, a), a);
  }

  /** P, 2P, 3P and 4P, and P in cached form. */
  method LowMultiples(ms: seq<Ge>, p: Ge, cached: Ge, ghost a: Point)
    requires GroupFacts() && p.Is(a) && p != cached
    requires |ms| == 8 && p !in ms && cached !in ms && forall i, j :: 0 <= i < j < 8 ==> ms[i] != ms[j]
    modifies ms[0], ms[1], ms[2], ms[3], cached
    ensures cached.IsCached(a) && forall k :: 0 <= k < 4 ==> ms[k].Is(SMul(k + 1, a))
  {
    assert forall k :: 0 <= k < 8 ==> ms[k] in ms;
    DoubleIsTwice(a);
    ms[0].Copy(p);
    cached.ToCached(p, a);
    DoubleInto(ms[1], ms[0], 1, a);
    AddP(ms[2], ms[1], cached, 2, a);
    DoubleInto(ms[3], ms[1], 2, a);
  }

  /** 5P, 6P, 7P and 8P. */
  method HighMultiples(ms: seq<Ge>, cached: Ge, ghost a: Point)
    requires GroupFacts() && OnCurve(a) && cached.IsCached(a)
    requires |ms| == 8 && cached !in ms && forall i, j :: 0 <= i < j < 8 ==> ms[i] != ms[j]
    requires forall k :: 0 <= k < 4 ==> ms[k].Is(SMul(k + 1, a))
    modifies ms[4], ms[5], ms[6], ms[7]
    ensures forall k :: 4 <= k < 8 ==> ms[k].Is(SMul(k + 1, a))
  {
    assert forall k :: 0 <= k < 8 ==> ms[k] in ms;
    AddP(ms[4], ms[3], cached, 4, a);
    DoubleInto(ms[5], ms[2], 3, a);
    AddP(ms[6], ms[5], cached, 6, a);
    DoubleInto(ms[7], ms[3], 4, a);
  }

  /** The multiples P, 2P, ..., 8P, each by one doubling or one addition of P. */
  method Multiples(p: Ge, cached: Ge, ghost a: Point) returns (ms: seq<Ge>)
    requires GroupFacts() && p.Is(a) && p != cached
    modifies cached
    ensures |ms| == 8 && fresh(ms) && forall k :: 0 <= k < 8 ==> ms[k].Is(SMul(k + 1, a))
  {
    ms := NewPoints(8);
    LowMultiples(ms, p, cached, a);
    HighMultiples(ms, cached, a);
  }

  method NewPoints(n: nat) returns (ms: seq<Ge>)
    ensures |ms| == n && fresh(ms) && forall i, j :: 0 <= i < j < n ==> ms[i] != ms[j]
  {
    ms := [];
    for i := 0 to n
      invariant |ms| == i && fresh(ms) && forall j, k :: 0 <= j < k < i ==> ms[j] != ms[k]
    {
      var m := new Ge();
      ms := ms + [m];
    }
  }

  /** Sixteen limbs of each coordinate go into the entry at o. */
  method FillEntry(tbl: array<int>, o: nat, x: seq<int>, y: seq<int>, z: seq<int>, t: seq<int>)
    requires o + 64 <= tbl.Length && |x| == |y| == |z| == |t| == 16
    modifies tbl
    ensures tbl[o..o + 16] == x && tbl[o + 16..o + 32] == y && tbl[o + 32..o + 48] == z && tbl[o + 48..o + 64] == t
    ensures tbl[..o] == old(tbl[..o])
  {
    for k := 0 to 16
      invariant forall n :: 0 <= n < o ==> tbl[n] == old(tbl[n])
      invariant forall n :: o <= n < o + k ==> tbl[n] == x[n - o]
      invariant forall n :: o + 16 <= n < o + 16 + k ==> tbl[n] == y[n - o - 16]
      invariant forall n :: o + 32 <= n < o + 32 + k ==> tbl[n] == z[n - o - 32]
      invariant forall n :: o + 48 <= n < o + 48 + k ==> tbl[n] == t[n - o - 48]
    {
      tbl[o + k] := x[k];
      tbl[o + 16 + k] := y[k];
      tbl[o + 32 + k] := z[k];
      tbl[o + 48 + k] := t[k];
    }
  }

  lemma SliceKept(s: seq<int>, t: seq<int>, i: nat, j: nat, n: nat)
    requires i <= j <= n <= |s| == |t| && s[..n] == t[..n]
    ensures s[i..j] == t[i..j]
  {
    forall k | i <= k < j ensures s[k] == t[k] {
      assert s[k] == s[..n][k] && t[k] == t[..n][k];
    }
  }

  lemma EntryKept(s: seq<int>, t: seq<int>, o: nat, n: nat, p: Point)
    requires CachedAt(s, o, p) && o + 64 <= n <= |s| == |t| && s[..n] == t[..n]
    ensures CachedAt(t, o, p)
  {
    SliceKept(s, t, o, o + 16, n);
    SliceKept(s, t, o + 16, o + 32, n);
    SliceKept(s, t, o + 32, o + 48, n);
    SliceKept(s, t, o + 48, o + 64, n);
  }

  lemma EntriesKept(s: seq<int>, t: seq<int>, i: nat, p: Point)
    requires i <= 8 && 64 * i <= |s| == |t| && s[..64 * i] == t[..64 * i]
    requires forall k :: 0 <= k < i ==> MultipleEntry(s, p, k)
    ensures forall k :: 0 <= k < i ==> MultipleEntry(t, p, k)
  {
    forall k | 0 <= k < i ensures MultipleEntry(t, p, k) {
      assert MultipleEntry(s, p, k);
      EntryKept(s, t, 64 * k, 64 * i, SMul(k + 1, p));
    }
  }

  /** Entry i of the table. */
  method BuildEntry(tbl: array<int>, i: nat, m: Ge, cached: Ge, ghost p: Point)
    requires tbl.Length == 512 && i < 8 && m != cached && m.Is(SMul(i + 1, p))
    modifies tbl, cached
    ensures MultipleEntry(tbl[..], p, i) && tbl[..64 * i] == old(tbl[..64 * i])
  {
    cached.ToCached(m, SMul(i + 1, p));
    FillEntry(tbl, 64 * i, cached.x, cached.y, cached.z, cached.t);
    ghost var s, o := tbl[..], 64 * i;
    assert s[o..o + 16] == tbl[o..o + 16] && s[o + 16..o + 32] == tbl[o + 16..o + 32];
    assert s[o + 32..o + 48] == tbl[o + 32..o + 48] && s[o + 48..o + 64] == tbl[o + 48..o + 64];
  }

  /** The table of cached multiples, 64 limbs each. */
  method BuildTable(ms: seq<Ge>, cached: Ge, ghost p: Point) returns (tbl: array<int>)
    requires |ms| == 8 && cached !in ms && forall k :: 0 <= k < 8 ==> ms[k].Is(SMul(k + 1, p))
    modifies cached
    ensures fresh(tbl) && MultiplesTable(tbl[..], p)
  {
    tbl := new int[512];
    for i := 0 to 8
      invariant fresh(tbl) && forall k :: 0 <= k < 8 ==> ms[k].Is(SMul(k + 1, p))
      invariant forall k :: 0 <= k < i ==> MultipleEntry(tbl[..], p, k)
    {
      assert ms[i] in ms;
      ghost var before := tbl[..];
      BuildEntry(tbl, i, ms[i], cached, p);
      assert before[..64 * i] == tbl[..][..64 * i];
      EntriesKept(before, tbl[..], i, p);
    }
  }

  /** h <- 16 h + digit P */
  method WindowStep(h: Ge, cached: Ge, tbl: seq<int>, first: bool, digit: int, ghost total: int, ghost p: Point)
    requires GroupFacts() && OnCurve(p) && MultiplesTable(tbl, p) && h != cached && -8 <= digit <= 8
    requires h.Is(SMul(total, p)) && (first ==> total == 0)
    modifies h, cached
    ensures h.Is(SMul(16 * total + digit, p))
  {
    Shift(h, first, total, p);
    SelectCached(cached, tbl, digit, p);
    ghost var n := 16 * total;
    AddMultiples(n, digit, p);
    h.AddCached(h, cached, SMul(n, p), SMul(digit, p));
  }

  /** The window loop: four doublings and one addition of a selected multiple per digit. */
  method Windows(h: Ge, cached: Ge, tbl: seq<int>, e: seq<int>, ghost p: Point)
    requires GroupFacts() && OnCurve(p) && MultiplesTable(tbl, p) && h != cached && Recode.SignedDigits(e)
    modifies h, cached
    ensures h.Is(SMul(Val(16, e), p))
  {
    assert SMul(0, p) == Identity;
    h.SetIdentity();
    var i := 112;
    ghost var total := 0;
    while i > 0
      invariant 0 <= i <= 112 && total == Val(16, e[i..]) && h.Is(SMul(total, p))
    {
      i := i - 1;
      WindowStep(h, cached, tbl, i == 111, e[i], total, p);
      Comb.Window(e, i);
      assert e[112..] == [];
      total := 16 * total + e[i];
    }
    assert e[0..] == e;
  }

  /** `scalarmult`: h <- a P for any scalar a below 2^446 and any curve point P. */
  method Scalarmult(h: Ge, a: array<int>, p: Ge, ghost b: Point)
    requires GroupFacts() && p.Is(b)
    requires a.Length == 16 && Sc448.Reduced(a[..]) && Val(0x1000_0000, a[..]) < TWO_446
    modifies h
    ensures h.Is(SMul(Val(0x1000_0000, a[..]), b))
  {
    var cached := new Ge();
    var multiples := Multiples(p, cached, b);
    var tbl := BuildTable(multiples, cached, b);
    var e := new int[112];
    Recode.FromLimbs(e, a[..]);
    Windows(h, cached, tbl[..], e[..], b);
  }
}
