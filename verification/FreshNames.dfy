/** Naming a new definition so that it clashes with none in use. */
module FreshNames {

  /** The decimal text of a number, as an f-string formats it. */
  function Decimal(n: nat): (s: string)
    ensures s != []
  {
    var digit := ["0123456789"[n % 10]];
    if n < 10 then digit else Decimal(n / 10) + digit
  }

  lemma {:induction false} DecimalInjective(m: nat, n: nat)
    requires Decimal(m) == Decimal(n)
    ensures m == n
    decreases m
  {
    var a, b := Decimal(m), Decimal(n);
    assert a[|a| - 1] == "0123456789"[m % 10] && b[|b| - 1] == "0123456789"[n % 10];
    assert m % 10 == n % 10;
    if m < 10 {
      assert |a| == 1 && n < 10;
    } else {
      assert |Decimal(m / 10)| > 0;
      assert n >= 10;
      assert a[..|a| - 1] == Decimal(m / 10) && b[..|b| - 1] == Decimal(n / 10);
      DecimalInjective(m / 10, n / 10);
    }
  }

  /** The number that a text of digits stands for. */
  function Number(s: string): int {
    if s == [] then 0 else 10 * Number(s[..|s| - 1]) + (s[|s| - 1] as int - '0' as int)
  }

  /** The text of a number reads back as that number, and does not begin with a zero unless it is one. */
  lemma {:induction false} DecimalReads(n: nat)
    ensures Number(Decimal(n)) == n && (n > 0 ==> Decimal(n)[0] != '0')
    ensures forall i | 0 <= i < |Decimal(n)| :: '0' <= Decimal(n)[i] <= '9'
  {
    var s := Decimal(n);
    assert "0123456789"[n % 10] as int == '0' as int + n % 10;
    if n < 10 {
      assert s[..0] == [];
    } else {
      DecimalReads(n / 10);
      assert s[..|s| - 1] == Decimal(n / 10);
    }
  }

  /** The candidate tried for a suffix. */
  function Suffixed(preferred: string, suffix: nat): string {
    preferred + "__" + Decimal(suffix)
  }

  lemma SuffixedInjective(preferred: string, j: nat, k: nat)
    requires Suffixed(preferred, j) == Suffixed(preferred, k)
    ensures j == k
  {
    var n := |preferred + "__"|;
    assert Suffixed(preferred, j)[n..] == Decimal(j) && Suffixed(preferred, k)[n..] == Decimal(k);
    DecimalInjective(j, k);
  }

  ghost function Tried(preferred: string, suffix: nat): set<string> {
    set j | 2 <= j < suffix :: Suffixed(preferred, j)
  }

  /** A taken candidate was not tried before, so fewer names in use are left to run into. */
  lemma TriedGrows(preferred: string, used: set<string>, suffix: nat)
    requires suffix >= 2 && Suffixed(preferred, suffix) in used
    ensures |used - Tried(preferred, suffix + 1)| < |used - Tried(preferred, suffix)|
  {
    var s := Suffixed(preferred, suffix);
    if s in Tried(preferred, suffix) {
      var j :| 2 <= j < suffix && Suffixed(preferred, j) == s;
      SuffixedInjective(preferred, j, suffix);
      assert false;
    }
    var fewer, more := used - Tried(preferred, suffix + 1), used - Tried(preferred, suffix);
    assert s in Tried(preferred, suffix + 1);
    assert Tried(preferred, suffix) <= Tried(preferred, suffix + 1);
    assert fewer <= more - {s};
    Subset(fewer, more - {s});
  }

  lemma Subset<T>(a: set<T>, b: set<T>)
    requires a <= b
    ensures |a| <= |b|
  {
    assert b == a + (b - a);
  }

  /** `suffix` is the first one that gives a free name. */
  ghost predicate FirstFree(preferred: string, used: set<string>, suffix: nat) {
    suffix >= 2 && Suffixed(preferred, suffix) !in used
    && forall j: nat | 2 <= j < suffix :: Suffixed(preferred, j) in used
  }

  /** The name the search settles on: the preferred one if free, else the first free candidate. */
  ghost predicate Settles(preferred: string, used: set<string>, name: string) {
    if preferred !in used then name == preferred
    else exists k: nat :: FirstFree(preferred, used, k) && name == Suffixed(preferred, k)
  }

  function UniqueName(preferred: string, used: set<string>): (name: string)
    ensures name !in used
  {
    if preferred !in used then preferred else UniqueFrom(preferred, used, 2)
  }

  function UniqueFrom(preferred: string, used: set<string>, suffix: nat): (name: string)
    requires suffix >= 2
    ensures name !in used
    decreases |used - Tried(preferred, suffix)|
  {
    if Suffixed(preferred, suffix) !in used then Suffixed(preferred, suffix)
    else
      TriedGrows(preferred, used, suffix);
      UniqueFrom(preferred, used, suffix + 1)
  }

  lemma UniqueNameSettles(preferred: string, used: set<string>)
    ensures Settles(preferred, used, UniqueName(preferred, used))
  {
    if preferred in used {
      UniqueFromSettles(preferred, used, 2);
    }
  }

  lemma {:induction false} UniqueFromSettles(preferred: string, used: set<string>, suffix: nat)
    requires suffix >= 2 && preferred in used
    requires forall j: nat | 2 <= j < suffix :: Suffixed(preferred, j) in used
    ensures Settles(preferred, used, UniqueFrom(preferred, used, suffix))
    decreases |used - Tried(preferred, suffix)|
  {
    if Suffixed(preferred, suffix) in used {
      TriedGrows(preferred, used, suffix);
      UniqueFromSettles(preferred, used, suffix + 1);
    } else {
      assert FirstFree(preferred, used, suffix);
    }
  }

  /** The search has one possible answer. */
  lemma SettlesOnce(preferred: string, used: set<string>, a: string, b: string)
    requires Settles(preferred, used, a) && Settles(preferred, used, b)
    ensures a == b
  {
    if preferred in used {
      var j: nat :| FirstFree(preferred, used, j) && a == Suffixed(preferred, j);
      var k: nat :| FirstFree(preferred, used, k) && b == Suffixed(preferred, k);
      assert j == k;
    }
  }
}
