/** The collision-free name of a duplicated prompt. */
module CopyNames {
  import opened Numerals

  const MAX_NAME := 100

  function Suffix(number: nat): string {
    if number == 1 then " (copy)" else " (copy " + Decimal(number) + ")"
  }

  /** `s[:end]`, where a negative end counts from the back. */
  function Slice(s: string, end: int): (r: string)
    ensures r <= s
  {
    if 0 <= end then (if end <= |s| then s[..end] else s)
    else if -end <= |s| then s[..|s| + end] else ""
  }

  function CopyName(base: string, number: nat): string {
    Slice(base, MAX_NAME - |Suffix(number)|) + Suffix(number)
  }

  /** The opening parenthesis is where a suffix starts, and nowhere else in it. */
  lemma SuffixShape(number: nat)
    ensures |Suffix(number)| >= 7 && Suffix(number)[0] == ' ' && Suffix(number)[1] == '('
    ensures forall i :: 1 < i < |Suffix(number)| ==> Suffix(number)[i] != '('
  {
    var d := Decimal(number);
    if number != 1 {
      assert Suffix(number) == " (copy " + d + ")";
      forall i | 1 < i < |Suffix(number)|
        ensures Suffix(number)[i] != '('
      {
        if 7 <= i < 7 + |d| {
          assert Suffix(number)[i] == d[i - 7];
        }
      }
    }
  }

  lemma SuffixInjective(m: nat, n: nat)
    requires Suffix(m) == Suffix(n)
    ensures m == n
  {
    if m != 1 && n != 1 {
      assert Suffix(m)[7..|Suffix(m)| - 1] == Decimal(m);
      assert Suffix(n)[7..|Suffix(n)| - 1] == Decimal(n);
      DecimalInjective(m, n);
    }
  }

  /** However much of the base is cut away, different numbers give different names. */
  lemma CopyNameInjective(base: string, m: nat, n: nat)
    requires CopyName(base, m) == CopyName(base, n)
    ensures m == n
  {
    SuffixShape(m);
    SuffixShape(n);
    var name, a, b := CopyName(base, m), Suffix(m), Suffix(n);
    assert forall i :: 0 <= i < |a| ==> name[|name| - |a| + i] == a[i];
    assert forall i :: 0 <= i < |b| ==> name[|name| - |b| + i] == b[i];
    assert name[|name| - |a| + 1] == '(' && name[|name| - |b| + 1] == '(';
    assert |a| == |b|;
    assert a == b;
    SuffixInjective(m, n);
  }

  /**
   The first unused candidate, found within one more try than there are names, and at most 100
   characters long (with fewer names than it takes for a number to have 92 digits).
   */
  method FreshCopyName(base: string, existing: set<string>) returns (name: string, number: nat)
    ensures name !in existing && name == CopyName(base, number)
    ensures 1 <= number <= |existing| + 1
    ensures forall k :: 1 <= k < number ==> CopyName(base, k) in existing
    ensures |existing| + 1 < Pow10(91) ==> |name| <= MAX_NAME
  {
    number := 1;
    while CopyName(base, number) in existing
      invariant 1 <= number <= |existing| + 1
      invariant forall k :: 1 <= k < number ==> CopyName(base, k) in existing
      decreases |existing| + 1 - number
    {
      TakenSoFar(base, number, existing);
      number := number + 1;
    }
    name := CopyName(base, number);
    if |existing| + 1 < Pow10(91) {
      DecimalLength(number, 91);
    }
  }

  lemma TakenSoFar(base: string, number: nat, existing: set<string>)
    requires forall k :: 1 <= k <= number ==> CopyName(base, k) in existing
    ensures number <= |existing|
  {
    var f := (i: nat) => CopyName(base, i + 1);
    forall i, j | 0 <= i < j < number
      ensures f(i) != f(j)
    {
      if f(i) == f(j) {
        CopyNameInjective(base, i + 1, j + 1);
      }
    }
    Pigeonhole(f, number, existing);
  }

  /** " (copy)", or " (copy n)" with the number in decimal. */
  ghost predicate IsSuffix(suffix: string, number: nat) {
    if number == 1 then suffix == " (copy)"
    else exists digits: string ::
           (forall i :: 0 <= i < |digits| ==> IsDigit(digits[i])) && Value(digits) == number
           && suffix == " (copy " + digits + ")"
  }

  /** A copy's name is as much of the base as 100 characters leave room for, and then the suffix. */
  lemma CopyNameExactly(base: string, number: nat)
    requires |Suffix(number)| <= 100
    ensures exists start, suffix ::
              && CopyName(base, number) == start + suffix && IsSuffix(suffix, number)
              && start <= base
              && (if |base| + |suffix| <= 100 then start == base else |start| + |suffix| == 100)
  {
    DecimalStandsFor(number);
    var start, suffix := Slice(base, MAX_NAME - |Suffix(number)|), Suffix(number);
    assert IsSuffix(suffix, number);
    assert CopyName(base, number) == start + suffix;
  }
}
