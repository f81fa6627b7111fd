/**
 File and directory names, and the numeric suffixes that keep them apart: the first of
 name, name_2, name_3, ... that nobody has taken yet.
 */
module Naming {

  /** The decimal numeral of `n`, as Python's str() writes it. */
  function Decimal(n: nat): string {
    if n < 10 then [Digit(n)] else Decimal(n / 10) + [Digit(n % 10)]
  }

  function Digit(d: nat): char
    requires d < 10
  {
    '0' + d as char
  }

  /** Reads a numeral back. */
  function Numeral(s: string): int {
    if s == [] then 0 else 10 * Numeral(s[..|s| - 1]) + (s[|s| - 1] as int - '0' as int)
  }

  lemma {:induction false} DecimalRoundTrip(n: nat)
    ensures Numeral(Decimal(n)) == n
  {
    var s := Decimal(n);
    if n < 10 {
      assert s[..|s| - 1] == [];
    } else {
      DecimalRoundTrip(n / 10);
      assert s[..|s| - 1] == Decimal(n / 10);
    }
  }

  ghost predicate IsDigits(s: string) {
    forall i :: 0 <= i < |s| ==> '0' <= s[i] <= '9'
  }

  /** Numerals are digits, without a zero in front. */
  lemma {:induction false} DecimalIsDigits(n: nat)
    ensures IsDigits(Decimal(n)) && |Decimal(n)| >= 1
    ensures n > 0 ==> Decimal(n)[0] != '0'
  {
    if n >= 10 {
      DecimalIsDigits(n / 10);
    }
  }

  lemma {:induction false} NumeralNonNegative(s: string)
    requires IsDigits(s)
    ensures Numeral(s) >= 0
    ensures s != "" && s[0] != '0' ==> Numeral(s) > 0
  {
    if s != "" {
      NumeralNonNegative(s[..|s| - 1]);
    }
  }

  /** Every string of digits without a zero in front is the numeral of the number it reads as. */
  lemma {:induction false} NumeralRoundTrip(s: string)
    requires IsDigits(s) && s != "" && (|s| > 1 ==> s[0] != '0')
    ensures Numeral(s) >= 0 && Decimal(Numeral(s)) == s
  {
    var front, last := s[..|s| - 1], s[|s| - 1];
    NumeralNonNegative(s);
    if front == "" {
      assert Numeral(front) == 0;
      assert s == [last];
    } else {
      NumeralNonNegative(front);
      NumeralRoundTrip(front);
      var n := Numeral(s);
      assert n / 10 == Numeral(front) && n % 10 == last as int - '0' as int;
      assert s == front + [last];
    }
  }

  /** stem_c followed by the extension. */
  function Suffixed(stem: string, c: nat, suffix: string): string {
    stem + "_" + Decimal(c) + suffix
  }

  lemma SuffixedInjective(stem: string, a: nat, b: nat, suffix: string)
    requires Suffixed(stem, a, suffix) == Suffixed(stem, b, suffix)
    ensures a == b
  {
    var s, t := Suffixed(stem, a, suffix), Suffixed(stem, b, suffix);
    assert Decimal(a) == s[|stem| + 1..|s| - |suffix|];
    assert Decimal(b) == t[|stem| + 1..|t| - |suffix|];
    DecimalRoundTrip(a);
    DecimalRoundTrip(b);
  }

  /** Pigeonhole: every taken suffix uses up a name of its own. */
  lemma {:induction false} TakenSuffixesBounded(stem: string, suffix: string, used: set<string>, c: nat)
    requires 2 <= c && forall k :: 2 <= k < c ==> Suffixed(stem, k, suffix) in used
    ensures c <= |used| + 2
  {
    if c > 2 {
      var top := Suffixed(stem, c - 1, suffix);
      var rest := used - {top};
      forall k | 2 <= k < c - 1
        ensures Suffixed(stem, k, suffix) in rest
      {
        if Suffixed(stem, k, suffix) == top {
          SuffixedInjective(stem, k, c - 1, suffix);
        }
      }
      TakenSuffixesBounded(stem, suffix, rest, c - 1);
    }
  }

  /** `name` is stem+suffix itself if free, and otherwise carries the least free counter from 2 upward. */
  ghost predicate IsLeastFree(name: string, stem: string, suffix: string, used: set<string>) {
    && name !in used
    && (if stem + suffix !in used then name == stem + suffix
        else exists c :: 2 <= c <= |used| + 2 && name == Suffixed(stem, c, suffix)
                         && forall k :: 2 <= k < c ==> Suffixed(stem, k, suffix) in used)
  }

  function FirstFree(stem: string, suffix: string, used: set<string>, c: nat): (r: nat)
    requires 2 <= c && forall k :: 2 <= k < c ==> Suffixed(stem, k, suffix) in used
    ensures c <= r <= |used| + 2
    ensures Suffixed(stem, r, suffix) !in used
    ensures forall k :: 2 <= k < r ==> Suffixed(stem, k, suffix) in used
    decreases |used| + 2 - c
  {
    TakenSuffixesBounded(stem, suffix, used, c);
    if Suffixed(stem, c, suffix) !in used then c
    else
      TakenSuffixesBounded(stem, suffix, used, c + 1);
      FirstFree(stem, suffix, used, c + 1)
  }

  function FreshName(stem: string, suffix: string, used: set<string>): (name: string)
    ensures IsLeastFree(name, stem, suffix, used)
  {
    if stem + suffix !in used then stem + suffix
    else Suffixed(stem, FirstFree(stem, suffix, used, 2), suffix)
  }

  /** Least freedom leaves no choice, so FreshName is the only answer. */
  lemma LeastFreeIsUnique(name: string, stem: string, suffix: string, used: set<string>)
    requires IsLeastFree(name, stem, suffix, used)
    ensures name == FreshName(stem, suffix, used)
  {
    if stem + suffix in used {
      var r := FirstFree(stem, suffix, used, 2);
      var c :| 2 <= c && name == Suffixed(stem, c, suffix)
               && forall k :: 2 <= k < c ==> Suffixed(stem, k, suffix) in used;
      assert !(c < r) && !(r < c);
    }
  }

  /** Sibling directory names: the suffix goes at the end of the whole name. */
  method DeduplicateName(name: string, existing: set<string>) returns (r: string)
    ensures IsLeastFree(r, name, "", existing)
  {
    assert name + "" == name;
    if name !in existing {
      return name;
    }
    var i := 2;
    while name + "_" + Decimal(i) in existing
      invariant 2 <= i && forall k :: 2 <= k < i ==> Suffixed(name, k, "") in existing
      decreases |existing| + 3 - i
    {
      assert Suffixed(name, i, "") == name + "_" + Decimal(i);
      i := i + 1;
      TakenSuffixesBounded(name, "", existing, i);
    }
    assert Suffixed(name, i, "") == name + "_" + Decimal(i);
    TakenSuffixesBounded(name, "", existing, i);
    return name + "_" + Decimal(i);
  }

  // File names split at their last dot, unless that dot is the first or the last character.

  function LastDot(name: string): (i: int)
    ensures -1 <= i < |name|
    ensures i >= 0 ==> name[i] == '.'
  {
    if name == [] then -1
    else if name[|name| - 1] == '.' then |name| - 1
    else LastDot(name[..|name| - 1])
  }

  lemma {:induction false} LastDotIsLast(name: string, k: nat)
    requires LastDot(name) < k < |name|
    ensures name[k] != '.'
  {
    if k < |name| - 1 {
      LastDotIsLast(name[..|name| - 1], k);
    }
  }

  function Stem(name: string): string {
    var i := LastDot(name);
    if 0 < i < |name| - 1 then name[..i] else name
  }

  function Suffix(name: string): string {
    var i := LastDot(name);
    if 0 < i < |name| - 1 then name[i..] else ""
  }

  lemma StemAndSuffix(name: string)
    ensures Stem(name) + Suffix(name) == name
  {
    var i := LastDot(name);
    if 0 < i < |name| - 1 {
      assert name[..i] + name[i..] == name;
    }
  }

  /** There is an extension exactly if the last dot is inside the name, and then it starts there. */
  lemma SuffixExactly(name: string, k: nat)
    requires 0 < k < |name| - 1 && name[k] == '.' && forall j :: k < j < |name| ==> name[j] != '.'
    ensures Stem(name) == name[..k] && Suffix(name) == name[k..]
  {
    if LastDot(name) < k {
      LastDotIsLast(name, k);
    }
  }

  lemma NoSuffixExactly(name: string)
    requires forall k :: 0 < k < |name| - 1 && name[k] == '.' ==> exists j :: k < j < |name| && name[j] == '.'
    ensures Stem(name) == name && Suffix(name) == ""
  {
    var k := LastDot(name);
    if 0 < k < |name| - 1 {
      var j :| k < j < |name| && name[j] == '.';
      LastDotIsLast(name, j);
    }
  }

  lemma LastDotAt(name: string, k: nat)
    requires k < |name| && name[k] == '.' && forall j :: k < j < |name| ==> name[j] != '.'
    ensures LastDot(name) == k
  {
    if LastDot(name) < k {
      LastDotIsLast(name, k);
    }
  }

  lemma NoDotInNumber(c: nat, k: nat)
    requires k < |Decimal(c)|
    ensures Decimal(c)[k] != '.'
  {
    DecimalIsDigits(c);
  }

  /** The counter goes before the extension, which stays what it was; only a name that ends in a dot gets a new one. */
  lemma ExtensionKeptExactly(name: string, c: nat)
    ensures var renamed := Suffixed(Stem(name), c, Suffix(name));
            && |renamed| == |name| + 1 + |Decimal(c)|
            && renamed[|renamed| - |Suffix(name)|..] == Suffix(name)
            && (Suffix(renamed) == Suffix(name) <==> |name| <= 1 || name[|name| - 1] != '.')
  {
    var stem, suffix, number := Stem(name), Suffix(name), Decimal(c);
    var renamed := Suffixed(stem, c, suffix);
    StemAndSuffix(name);
    DecimalIsDigits(c);
    var i := LastDot(name);
    if suffix != "" {
      assert suffix[0] == '.' && renamed[|renamed| - |suffix|..] == suffix;
      forall j | |renamed| - |suffix| < j < |renamed|
        ensures renamed[j] != '.'
      {
        LastDotIsLast(name, j - 1 - |number|);
      }
      LastDotAt(renamed, |renamed| - |suffix|);
    } else if i >= 0 {
      assert stem == name && renamed == name + "_" + number + "";
      forall j | i < j < |renamed|
        ensures renamed[j] != '.'
      {
        if j < |name| {
          LastDotIsLast(name, j);
        } else if j > |name| {
          NoDotInNumber(c, j - |name| - 1);
        }
      }
      assert renamed[i] == '.';
      LastDotAt(renamed, i);
    } else {
      NoDots(name, renamed, c);
    }
  }

  lemma NoDots(name: string, renamed: string, c: nat)
    requires LastDot(name) < 0 && renamed == name + "_" + Decimal(c)
    ensures Suffix(renamed) == "" && (name != "" ==> name[|name| - 1] != '.')
  {
    forall j | 0 <= j < |renamed|
      ensures renamed[j] != '.'
    {
      if j < |name| {
        LastDotIsLast(name, j);
      } else if j > |name| {
        NoDotInNumber(c, j - |name| - 1);
      }
    }
    if name != "" {
      LastDotIsLast(name, |name| - 1);
    }
    NoSuffixExactly(renamed);
  }

  /** The first two that find a name taken get 2 and 3. */
  lemma TwoThenThree(stem: string, suffix: string, used: set<string>)
    requires stem + suffix in used
    ensures stem + "_2" + suffix !in used ==> FreshName(stem, suffix, used) == stem + "_2" + suffix
    ensures stem + "_2" + suffix in used && stem + "_3" + suffix !in used ==>
              FreshName(stem, suffix, used) == stem + "_3" + suffix
  {
    assert Decimal(2) == "2" && Decimal(3) == "3";
    assert Suffixed(stem, 2, suffix) == stem + "_2" + suffix;
    assert Suffixed(stem, 3, suffix) == stem + "_3" + suffix;
  }

  /** A file keeps its own name while nobody else has it. */
  lemma FreshNameKept(name: string, used: set<string>)
    requires name !in used
    ensures FreshName(Stem(name), Suffix(name), used) == name
  {
    StemAndSuffix(name);
  }
}
