/** The search for an unused name: a base, then the base with a number behind it. */
module Names {
  import opened Text

  function Numbered(base: string, separator: string, n: nat): string {
    base + separator + DecText(n)
  }

  lemma NumberedInjective(base: string, separator: string, m: nat, n: nat)
    requires Numbered(base, separator, m) == Numbered(base, separator, n)
    ensures m == n
  {
    var k := |base + separator|;
    assert Numbered(base, separator, m)[k..] == DecText(m);
    assert Numbered(base, separator, n)[k..] == DecText(n);
    DecimalInjective(m, n);
  }

  /** Numbers tried in vain are as many different used names. */
  lemma {:induction false} TriedAreUsed(base: string, separator: string, used: set<string>, n: nat)
    requires n >= 2 && forall m | 2 <= m < n :: Numbered(base, separator, m) in used
    ensures n - 2 <= |used|
    decreases n
  {
    if n > 2 {
      var last := Numbered(base, separator, n - 1);
      forall m | 2 <= m < n - 1
        ensures Numbered(base, separator, m) in used - {last}
      {
        if Numbered(base, separator, m) == last {
          NumberedInjective(base, separator, m, n - 1);
        }
      }
      TriedAreUsed(base, separator, used - {last}, n - 1);
    }
  }

  /** The first number whose name is free; it exists, within the count of used names. */
  method FirstFree(base: string, separator: string, used: set<string>) returns (n: nat)
    ensures 2 <= n <= |used| + 2
    ensures Numbered(base, separator, n) !in used
    ensures forall m | 2 <= m < n :: Numbered(base, separator, m) in used
  {
    n := 2;
    while Numbered(base, separator, n) in used
      invariant n >= 2 && forall m | 2 <= m < n :: Numbered(base, separator, m) in used
      decreases |used| + 2 - n
    {
      TriedAreUsed(base, separator, used, n + 1);
      n := n + 1;
    }
    TriedAreUsed(base, separator, used, n);
  }
}
