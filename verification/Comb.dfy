/** The integer identity behind the fixed-base comb: with 112 digits e, eight rows of fourteen
    digits each, combined by Horner's rule in 16, add up to the number the digits spell. */
module Comb {
  import opened Radix

  /** Row r over the first m columns: sum of e[8 j + r] 2^(32 j). */
  function Row(e: seq<int>, m: nat, r: nat): int
    requires |e| == 112 && m <= 14 && r < 8
  {
    if m == 0 then 0 else Row(e, m - 1, r) + e[8 * (m - 1) + r] * Pow(16, 8 * (m - 1))
  }

  /** What the loop holds after rows 7 down to r. */
  function Rows(e: seq<int>, m: nat, r: nat): int
    requires |e| == 112 && m <= 14 && r <= 8
    decreases 8 - r
  {
    if r == 8 then 0 else 16 * Rows(e, m, r + 1) + Row(e, m, r)
  }

  /** Digits r to 7 of column m. */
  function Column(e: seq<int>, m: nat, r: nat): int
    requires |e| == 112 && m < 14 && r <= 8
    decreases 8 - r
  {
    if r == 8 then 0 else e[8 * m + r] + 16 * Column(e, m, r + 1)
  }

  lemma {:induction false} NextColumn(e: seq<int>, m: nat, r: nat)
    requires |e| == 112 && m < 14 && r <= 8
    ensures Rows(e, m + 1, r) == Rows(e, m, r) + Pow(16, 8 * m) * Column(e, m, r)
    decreases 8 - r
  {
    if r < 8 {
      NextColumn(e, m, r + 1);
      Horner(e[8 * m + r], Column(e, m, r + 1), Pow(16, 8 * m));
    }
  }

  lemma Horner(d: int, c: int, w: int)
    ensures w * (d + 16 * c) == 16 * (w * c) + d * w
  {
  }

  lemma {:induction false} ColumnValue(e: seq<int>, m: nat, r: nat)
    requires |e| == 112 && m < 14 && r <= 8
    ensures Column(e, m, r) == Val(16, e[8 * m + r..8 * m + 8])
    decreases 8 - r
  {
    if r < 8 {
      ColumnValue(e, m, r + 1);
      assert e[8 * m + r..8 * m + 8] == [e[8 * m + r]] + e[8 * m + r + 1..8 * m + 8];
      ValCons(16, e[8 * m + r], e[8 * m + r + 1..8 * m + 8]);
    }
  }

  lemma JoinColumn(e: seq<int>, b: int, n: nat, m: nat)
    requires n <= m <= |e|
    ensures Val(b, e[..m]) == Val(b, e[..n]) + Pow(b, n) * Val(b, e[n..m])
  {
    assert e[..m] == e[..n] + e[n..m];
    ValAppend(b, e[..n], e[n..m]);
  }

  lemma {:induction false} NoColumns(e: seq<int>, r: nat)
    requires |e| == 112 && r <= 8
    ensures Rows(e, 0, r) == 0
    decreases 8 - r
  {
    if r < 8 {
      NoColumns(e, r + 1);
    }
  }

  /** All the rows together are the number. */
  lemma {:induction false} RowsAreValue(e: seq<int>, m: nat)
    requires |e| == 112 && m <= 14
    ensures Rows(e, m, 0) == Val(16, e[..8 * m])
  {
    if m == 0 {
      NoColumns(e, 0);
    } else {
      RowsAreValue(e, m - 1);
      NextColumn(e, m - 1, 0);
      ColumnValue(e, m - 1, 0);
      JoinColumn(e, 16, 8 * (m - 1), 8 * m);
    }
  }

  /** One window: the digits from i on, by Horner's rule. */
  lemma Window(e: seq<int>, i: nat)
    requires i < |e|
    ensures Val(16, e[i..]) == 16 * Val(16, e[i + 1..]) + e[i]
  {
    assert e[i..] == [e[i]] + e[i + 1..];
    ValCons(16, e[i], e[i + 1..]);
  }
}
