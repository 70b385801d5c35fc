/** The generator's variable names: a prefix of letters and a decimal number. */
module KernelNames {
  function Digit(d: nat): (c: char)
    requires d < 10
    ensures IsDigit(c) && c as int == 48 + d
  {
    (48 + d) as char
  }

  predicate IsDigit(c: char) {
    '0' <= c <= '9'
  }

  function Decimal(i: nat): (s: string)
    requires i < 100
    ensures 1 <= |s| <= 2 && forall k :: 0 <= k < |s| ==> IsDigit(s[k])
  {
    if i < 10 then [Digit(i)] else [Digit(i / 10), Digit(i % 10)]
  }

  predicate Letters(p: string) {
    forall k :: 0 <= k < |p| ==> !IsDigit(p[k])
  }

  function Id(p: string, i: nat): (s: string)
    requires i < 100
  {
    p + Decimal(i)
  }

  lemma DecimalInjective(i: nat, j: nat)
    requires i < 100 && j < 100 && Decimal(i) == Decimal(j)
    ensures i == j
  {
    var s := Decimal(i);
    if |s| == 2 {
      assert s[0] as int == 48 + i / 10 == 48 + j / 10 && s[1] as int == 48 + i % 10 == 48 + j % 10;
    } else {
      assert s[0] as int == 48 + i == 48 + j;
    }
  }

  /** Where the number starts tells the prefix. */
  lemma PrefixLength(p: string, i: nat, q: string, j: nat)
    requires Letters(p) && Letters(q) && i < 100 && j < 100 && Id(p, i) == Id(q, j)
    ensures |p| >= |q|
  {
    var s := Id(p, i);
    assert s[|p|] == Decimal(i)[0];
    assert forall k :: 0 <= k < |q| ==> s[k] == q[k];
  }

  lemma IdInjective(p: string, i: nat, q: string, j: nat)
    requires Letters(p) && Letters(q) && i < 100 && j < 100
    ensures Id(p, i) == Id(q, j) <==> p == q && i == j
  {
    if Id(p, i) == Id(q, j) {
      PrefixLength(p, i, q, j);
      PrefixLength(q, j, p, i);
      assert p == Id(p, i)[..|p|] == Id(q, j)[..|q|] == q;
      assert Decimal(i) == Id(p, i)[|p|..] == Id(q, j)[|q|..] == Decimal(j);
      DecimalInjective(i, j);
    }
  }

  predicate EndsInDigit(w: string) {
    |w| > 0 && IsDigit(w[|w| - 1])
  }

  /** A numbered name is no word that ends in a letter. */
  lemma IdEnds(p: string, i: nat)
    requires i < 100
    ensures EndsInDigit(Id(p, i))
  {
    var s := Id(p, i);
    assert s[|s| - 1] == Decimal(i)[|Decimal(i)| - 1];
  }

  /** p0, p1, and so on. */
  function Family(p: string, n: nat): (s: seq<string>)
    requires n <= 100
    ensures |s| == n && forall i :: 0 <= i < n ==> s[i] == Id(p, i)
  {
    seq(n, i requires 0 <= i < n => Id(p, i))
  }

  predicate Apart(a: seq<string>, b: seq<string>) {
    forall i, j :: 0 <= i < |a| && 0 <= j < |b| ==> a[i] != b[j]
  }

  predicate Different(a: seq<string>) {
    forall i, j :: 0 <= i < j < |a| ==> a[i] != a[j]
  }

  lemma FamiliesApart(p: string, m: nat, q: string, n: nat)
    requires Letters(p) && Letters(q) && p != q && m <= 100 && n <= 100
    ensures Apart(Family(p, m), Family(q, n)) && Apart(Family(q, n), Family(p, m))
  {
    forall i, j | 0 <= i < m && 0 <= j < n ensures Id(p, i) != Id(q, j) {
      IdInjective(p, i, q, j);
    }
  }

  lemma FamilyDifferent(p: string, n: nat)
    requires Letters(p) && n <= 100
    ensures Different(Family(p, n))
  {
    forall i, j | 0 <= i < j < n ensures Id(p, i) != Id(p, j) {
      IdInjective(p, i, p, j);
    }
  }

  lemma NotInFamily(q: string, n: nat, p: string, m: nat)
    requires Letters(p) && Letters(q) && p != q && n < 100 && m <= 100
    ensures Id(q, n) !in Family(p, m)
  {
    forall i | 0 <= i < m ensures Id(p, i) != Id(q, n) {
      IdInjective(p, i, q, n);
    }
  }

  lemma LongerPrefix(p: string, q: string, i: nat)
    requires i < 100
    ensures p + Id(q, i) == Id(p + q, i)
  {
  }
}
