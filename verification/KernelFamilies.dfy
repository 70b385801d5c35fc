/** Families of numbered names in a state of a program run: distinct, and valued as wholes. */
module KernelFamilies {
  import opened KernelNames
  import opened KernelExec

  /** x names the limbs q_lo, q_(lo+1), and so on. */
  predicate Numbered(x: seq<string>, q: string, lo: nat) {
    lo + |x| <= 100 && Letters(q) && forall i :: 0 <= i < |x| ==> x[i] == Id(q, lo + i)
  }

  lemma NumberedApart(x: seq<string>, q: string, lo: nat, y: seq<string>, r: string, l: nat)
    requires Numbered(x, q, lo) && Numbered(y, r, l) && q != r
    ensures Apart(x, y) && Apart(y, x)
  {
    forall i, j | 0 <= i < |x| && 0 <= j < |y| ensures x[i] != y[j] {
      IdInjective(q, lo + i, r, l + j);
    }
  }

  lemma NumberedDifferent(x: seq<string>, q: string, lo: nat)
    requires Numbered(x, q, lo)
    ensures Different(x)
  {
    forall i, j | 0 <= i < j < |x| ensures x[i] != x[j] {
      IdInjective(q, lo + i, q, lo + j);
    }
  }

  /** The names hold the values, within b. */
  predicate Valued(s: Full, names: seq<string>, b: nat, vals: seq<int>) {
    NamesCapped(s.bounds, names, b) && Read(s.env, names) == vals
  }

  lemma ValuedKept(s: Full, t: Full, names: seq<string>, b: nat, vals: seq<int>)
    requires Valued(s, names, b, vals) && forall i :: 0 <= i < |names| ==> Kept(s, t, names[i])
    ensures Valued(t, names, b, vals)
  {
    forall i | 0 <= i < |names| ensures CappedAt(t.bounds, names[i], b) && ValueOf(t.env, names[i]) == vals[i] {
      assert CappedAt(s.bounds, names[i], b) && Kept(s, t, names[i]);
      assert vals[i] == Read(s.env, names)[i];
    }
  }

  lemma FamilyNumbered(p: string, n: nat)
    requires Letters(p) && n <= 100
    ensures Numbered(Family(p, n), p, 0)
  {
  }

  lemma FamilyKeeps(s: Full, t: Full, p: string, n: nat, q: string, m: nat, b: nat, vals: seq<int>)
    requires Letters(p) && Letters(q) && p != q && n <= 100 && m <= 100
    requires Valued(s, Family(q, m), b, vals) && forall v :: v !in Family(p, n) ==> Kept(s, t, v)
    ensures Valued(t, Family(q, m), b, vals)
  {
    FamiliesApart(p, n, q, m);
    forall i | 0 <= i < m ensures Kept(s, t, Family(q, m)[i]) {
      assert Family(q, m)[i] !in Family(p, n);
    }
    ValuedKept(s, t, Family(q, m), b, vals);
  }
}
