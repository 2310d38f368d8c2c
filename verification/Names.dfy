/** Generated step ids such as "when_3": a prefix, an underscore and a decimal counter. */
module Names {

  function Digit(d: nat): char
    requires d < 10
  {
    "0123456789"[d]
  }

  function Decimal(n: nat): string {
    if n < 10 then [Digit(n)] else Decimal(n / 10) + [Digit(n % 10)]
  }

  function Name(prefix: string, n: nat): string {
    prefix + "_" + Decimal(n)
  }

  lemma {:induction false} DecimalInjective(m: nat, n: nat)
    requires Decimal(m) == Decimal(n)
    ensures m == n
  {
    var dm, dn := Decimal(m), Decimal(n);
    assert dm[|dm| - 1] == Digit(m % 10) && dn[|dn| - 1] == Digit(n % 10);
    assert m % 10 == n % 10;
    if m >= 10 && n >= 10 {
      assert dm[..|dm| - 1] == Decimal(m / 10) && dn[..|dn| - 1] == Decimal(n / 10);
      DecimalInjective(m / 10, n / 10);
    }
  }

  /** Different counters give different ids. */
  lemma NameInjective(prefix: string, m: nat, n: nat)
    requires Name(prefix, m) == Name(prefix, n)
    ensures m == n
  {
    assert Name(prefix, m)[|prefix| + 1..] == Decimal(m);
    assert Name(prefix, n)[|prefix| + 1..] == Decimal(n);
    DecimalInjective(m, n);
  }

  /** The least counter from `n` on whose id is not taken. */
  function FreshCounter(prefix: string, used: set<string>, n: nat): (r: nat)
    decreases |used|
  {
    if Name(prefix, n) in used then FreshCounter(prefix, used - {Name(prefix, n)}, n + 1) else n
  }

  lemma {:induction false} FreshCounterIsLeast(prefix: string, used: set<string>, n: nat)
    ensures n <= FreshCounter(prefix, used, n)
    ensures Name(prefix, FreshCounter(prefix, used, n)) !in used
    ensures forall m :: n <= m < FreshCounter(prefix, used, n) ==> Name(prefix, m) in used
    decreases |used|
  {
    if Name(prefix, n) in used {
      FreshCounterIsLeast(prefix, used - {Name(prefix, n)}, n + 1);
      var r := FreshCounter(prefix, used, n);
      if Name(prefix, r) == Name(prefix, n) { NameInjective(prefix, r, n); }
    }
  }

  lemma FreshCounterIsUnique(prefix: string, used: set<string>, n: nat, r: nat)
    requires n <= r && Name(prefix, r) !in used
    requires forall m :: n <= m < r ==> Name(prefix, m) in used
    ensures r == FreshCounter(prefix, used, n)
  {
    FreshCounterIsLeast(prefix, used, n);
  }
}
