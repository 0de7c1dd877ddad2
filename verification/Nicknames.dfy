/**
 Nicknames of spawned agents (agent/registry.go): after the pool has been used up `n`
 times, names carry the ordinal suffix of generation n. The suffix is unambiguous.
 */
module Nicknames {
  import opened Common

  function Digit(d: nat): char
    requires d < 10
  {
    ('0' as int + d) as char
  }

  function Decimal(n: nat): string {
    if n < 10 then [Digit(n)] else Decimal(n / 10) + [Digit(n % 10)]
  }

  function OrdinalSuffix(value: nat): string {
    if value % 100 < 11 || value % 100 > 13 then
      if value % 10 == 1 then "st" else if value % 10 == 2 then "nd" else if value % 10 == 3 then "rd" else "th"
    else "th"
  }

  function Ordinal(value: nat): string {
    Decimal(value) + OrdinalSuffix(value)
  }

  /** `formatAgentNickname`. */
  function Format(name: string, resets: nat): string {
    if resets == 0 then name else name + " the " + Ordinal(resets + 1)
  }

  /** No name of the pool is another one with an ordinal suffix. */
  ghost predicate Unambiguous(pool: set<string>) {
    forall a, b, k: nat | a in pool && b in pool && k >= 1 :: a != Format(b, k)
  }

  predicate IsDigit(c: char) {
    '0' <= c <= '9'
  }

  /** The number that decimal digits denote. */
  function Value(digits: string): int {
    if digits == [] then 0
    else 10 * Value(digits[..|digits| - 1]) + (digits[|digits| - 1] as int - '0' as int)
  }

  /** A number is written in decimal digits that denote it, without leading zeros. */
  lemma {:induction false} DecimalDenotes(n: nat)
    ensures var s := Decimal(n);
      s != [] && (forall i :: 0 <= i < |s| ==> IsDigit(s[i])) && Value(s) == n && (n > 0 ==> s[0] != '0')
  {
    if n >= 10 {
      DecimalDenotes(n / 10);
      assert Decimal(n)[..|Decimal(n)| - 1] == Decimal(n / 10);
    }
  }

  /** The first use of a name is bare; later ones carry the English ordinal of the generation. */
  lemma OrdinalsInEnglish(name: string)
    ensures Format(name, 0) == name
    ensures Format(name, 1) == name + " the 2nd" && Format(name, 2) == name + " the 3rd" && Format(name, 3) == name + " the 4th"
    ensures Format(name, 10) == name + " the 11th" && Format(name, 11) == name + " the 12th" && Format(name, 12) == name + " the 13th"
    ensures Format(name, 20) == name + " the 21st" && Format(name, 21) == name + " the 22nd" && Format(name, 22) == name + " the 23rd"
    ensures forall k: nat | k >= 1 :: (k + 1) % 100 in {11, 12, 13} || (k + 1) % 10 !in {1, 2, 3} ==>
      Format(name, k) == name + " the " + Decimal(k + 1) + "th"
  {
    assert forall m: nat | 10 <= m < 100 :: Decimal(m) == [Digit(m / 10)] + [Digit(m % 10)];
  }

  lemma {:induction false} DecimalInjective(m: nat, n: nat)
    requires Decimal(m) == Decimal(n)
    ensures m == n
  {
    var s := Decimal(m);
    assert s[|s| - 1] == Digit(m % 10) == Digit(n % 10);
    if m >= 10 && n >= 10 {
      assert Decimal(m / 10) == s[..|s| - 1] == Decimal(n / 10);
      DecimalInjective(m / 10, n / 10);
    } else if m >= 10 {
      DecimalNonEmpty(m / 10);
    } else if n >= 10 {
      DecimalNonEmpty(n / 10);
    }
  }

  lemma {:induction false} DecimalNonEmpty(n: nat)
    ensures Decimal(n) != [] && ' ' !in Decimal(n)
  {
    if n >= 10 { DecimalNonEmpty(n / 10); }
  }

  lemma OrdinalInjective(m: nat, n: nat)
    ensures ' ' !in Ordinal(m)
    ensures Ordinal(m) == Ordinal(n) ==> m == n
  {
    DecimalNonEmpty(m);
    var s, t := Ordinal(m), Ordinal(n);
    assert s[..|s| - 2] == Decimal(m) && t[..|t| - 2] == Decimal(n);
    if s == t { DecimalInjective(m, n); }
  }

  /** The text after the last space, and the text before it, are determined. */
  lemma LastSpace(a: string, t: string, b: string, u: string)
    requires ' ' !in t && ' ' !in u && a + " " + t == b + " " + u
    ensures a == b && t == u
  {
    var s := a + " " + t;
    assert s[|a|] == ' ' && s[|b|] == (b + " " + u)[|b|] == ' ';
    assert forall i :: |a| < i < |s| ==> s[i] == t[i - |a| - 1];
    assert forall i :: |b| < i < |s| ==> s[i] == (b + " " + u)[i] == u[i - |b| - 1];
    assert |a| == |b|;
    assert a == s[..|a|] && b == (b + " " + u)[..|b|];
    assert t == s[|a| + 1..] && u == (b + " " + u)[|b| + 1..];
  }

  lemma SuffixInjective(a: string, j: nat, b: string, k: nat)
    requires j >= 1 && k >= 1 && Format(a, j) == Format(b, k)
    ensures a == b && j == k
  {
    OrdinalInjective(j + 1, k + 1);
    OrdinalInjective(k + 1, j + 1);
    assert a + " the " + Ordinal(j + 1) == (a + " the") + " " + Ordinal(j + 1);
    assert b + " the " + Ordinal(k + 1) == (b + " the") + " " + Ordinal(k + 1);
    LastSpace(a + " the", Ordinal(j + 1), b + " the", Ordinal(k + 1));
    assert a == (a + " the")[..|a|] && b == (b + " the")[..|b|];
  }

  /**
   Names of different pool entries or generations never coincide exactly when the pool
   is unambiguous.
   */
  lemma FormatInjectiveIff(pool: set<string>)
    ensures Unambiguous(pool) <==>
      forall a, j: nat, b, k: nat | a in pool && b in pool && Format(a, j) == Format(b, k) :: a == b && j == k
  {
    if Unambiguous(pool) {
      forall a, j: nat, b, k: nat | a in pool && b in pool && Format(a, j) == Format(b, k) ensures a == b && j == k {
        if j >= 1 && k >= 1 { SuffixInjective(a, j, b, k); }
      }
    }
    if forall a, j: nat, b, k: nat | a in pool && b in pool && Format(a, j) == Format(b, k) :: a == b && j == k {
      forall a, b, k: nat | a in pool && b in pool && k >= 1 ensures a != Format(b, k) {
        assert Format(a, 0) == a;
      }
    }
  }
}
