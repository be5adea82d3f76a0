/** The parts of the JavaScript string runtime that the report generator
    relies on: `String.prototype.includes`, the decimal text of a number
    placed in a template literal, and an ordering of date strings. */
module Strings {

  /** `t` is a prefix of `s`. */
  predicate IsPrefix(t: string, s: string) {
    |t| <= |s| && s[..|t|] == t
  }

  /** `s.includes(t)`, read as a scan over the start positions of `s`. */
  predicate Includes(s: string, t: string)
    decreases |s|
  {
    IsPrefix(t, s) || (|s| > 0 && Includes(s[1..], t))
  }

  /** `t` occurs in `s` starting at index `i`. */
  ghost predicate OccursAt(s: string, t: string, i: int) {
    0 <= i && i + |t| <= |s| && s[i..i + |t|] == t
  }

  /** The scan agrees with the positional meaning of "contains". */
  lemma {:induction false} IncludesIffOccurs(s: string, t: string)
    ensures Includes(s, t) <==> exists i :: OccursAt(s, t, i)
    decreases |s|
  {
    if IsPrefix(t, s) {
      assert OccursAt(s, t, 0);
    } else if |s| > 0 {
      IncludesIffOccurs(s[1..], t);
      if Includes(s[1..], t) {
        var j :| OccursAt(s[1..], t, j);
        assert s[1..][j..j + |t|] == s[j + 1..j + 1 + |t|];
        assert OccursAt(s, t, j + 1);
      }
      if exists i :: OccursAt(s, t, i) {
        var i :| OccursAt(s, t, i);
        assert i != 0;
        assert s[1..][i - 1..i - 1 + |t|] == s[i..i + |t|];
        assert OccursAt(s[1..], t, i - 1);
      }
    }
  }

  /** Whatever occurs at a position is included. */
  lemma OccursAtIncludes(s: string, t: string, i: int)
    requires OccursAt(s, t, i)
    ensures Includes(s, t)
  {
    IncludesIffOccurs(s, t);
  }

  /** A string is included in any string built around it. */
  lemma IncludesMiddle(a: string, b: string, c: string)
    ensures Includes(a + b + c, b)
  {
    assert (a + b + c)[|a|..|a| + |b|] == b;
    OccursAtIncludes(a + b + c, b, |a|);
  }

  /** Inclusion survives putting text around the including string. */
  lemma {:induction false} IncludesWiden(a: string, s: string, c: string, t: string)
    requires Includes(s, t)
    ensures Includes(a + s + c, t)
  {
    IncludesIffOccurs(s, t);
    var i :| OccursAt(s, t, i);
    assert (a + s + c)[|a| + i..|a| + i + |t|] == s[i..i + |t|];
    OccursAtIncludes(a + s + c, t, |a| + i);
  }

  lemma IncludesInPrefix(s: string, x: string, y: string, t: string)
    requires s == x + y && Includes(x, t)
    ensures Includes(s, t)
  {
    IncludesWiden([], x, y, t);
    assert [] + x + y == s;
  }

  lemma IncludesInSuffix(s: string, x: string, y: string, t: string)
    requires s == x + y && Includes(y, t)
    ensures Includes(s, t)
  {
    IncludesWiden(x, y, [], t);
    assert x + y + [] == s;
  }

  /** Regrouping of a concatenation, stated as a lemma only so that a caller
      can apply it to large terms without the solver searching for it; it
      keeps those proofs within the resource limit. */
  lemma AppendAssociative(a: string, b: string, c: string)
    ensures (a + b) + c == a + (b + c)
  {
  }

  /** The middle part of a concatenation occurs where the parts before it end. */
  lemma OccursInConcat(s: string, x: string, p: string, m: string, q: string, y: string, k: int)
    requires s == x + (p + m + q) + y && k == |x| + |p|
    ensures OccursAt(s, m, k)
  {
    assert s[k..k + |m|] == m;
  }

  /** Where the fields of a template `a f1 b f2 c g e f3 d` end up. */
  lemma TemplateFields(s: string, a: string, f1: string, b: string, f2: string,
                       c: string, g: string, e: string, f3: string, d: string)
    requires s == a + f1 + b + f2 + c + g + e + f3 + d
    ensures OccursAt(s, f1, |a|)
    ensures OccursAt(s, f2, |a| + |f1| + |b|)
    ensures OccursAt(s, f3, |s| - |d| - |f3|)
  {
    assert s[|a|..|a| + |f1|] == f1;
    assert s[|a| + |f1| + |b|..|a| + |f1| + |b| + |f2|] == f2;
    assert s[|s| - |d| - |f3|..|s| - |d|] == f3;
  }

  /** The opening, the middle field and the closing of the same template. */
  lemma TemplateFrame(s: string, a: string, f1: string, b: string, f2: string,
                      c: string, g: string, e: string, f3: string, d: string)
    requires s == a + f1 + b + f2 + c + g + e + f3 + d
    ensures IsPrefix(a, s)
    ensures OccursAt(s, g, |a| + |f1| + |b| + |f2| + |c|)
    ensures s[|s| - |d|..] == d
  {
    assert s[..|a|] == a;
    assert s[|a| + |f1| + |b| + |f2| + |c|..|a| + |f1| + |b| + |f2| + |c| + |g|] == g;
  }

  /** Where the fields of a template `a f1 b f2 c` end up. */
  lemma LineFields(s: string, a: string, f1: string, b: string, f2: string, c: string)
    requires s == a + f1 + b + f2 + c
    ensures IsPrefix(a, s) && s[|s| - |c|..] == c
    ensures OccursAt(s, f1, |a|)
    ensures OccursAt(s, f2, |a| + |f1| + |b|)
  {
    assert s[..|a|] == a;
    assert s[|a|..|a| + |f1|] == f1;
    assert s[|a| + |f1| + |b|..|a| + |f1| + |b| + |f2|] == f2;
  }

  /** The same, for a string split in three. */
  lemma OccursBetween(s: string, x: string, m: string, y: string, k: int)
    requires s == x + (m + y) && k == |x|
    ensures OccursAt(s, m, k)
  {
    assert s[k..k + |m|] == m;
  }

  /** A string whose first character never appears in `s` is not included in `s`. */
  lemma NotIncludedWithoutFirstChar(s: string, t: string)
    requires |t| > 0 && t[0] !in s
    ensures !Includes(s, t)
  {
    forall i | 0 <= i && i + |t| <= |s|
      ensures !OccursAt(s, t, i)
    {
      assert s[i..i + |t|][0] == s[i] && s[i] in s;
    }
    IncludesIffOccurs(s, t);
  }

  predicate IsDigits(s: string) {
    forall i :: 0 <= i < |s| ==> '0' <= s[i] <= '9'
  }

  function DigitChar(d: nat): (c: char)
    requires d < 10
    ensures '0' <= c <= '9' && c as int - '0' as int == d
  {
    ('0' as int + d) as char
  }

  /** The text a non-negative integer takes inside a template literal. */
  function DecimalString(n: nat): (s: string)
    ensures |s| > 0 && IsDigits(s)
    ensures s[0] == '0' ==> n == 0
    decreases n
  {
    if n < 10 then [DigitChar(n)] else DecimalString(n / 10) + [DigitChar(n % 10)]
  }

  /** The number a string of decimal digits denotes. */
  function DecimalValue(s: string): nat
    requires IsDigits(s)
    decreases |s|
  {
    if |s| == 0 then 0
    else 10 * DecimalValue(s[..|s| - 1]) + (s[|s| - 1] as int - '0' as int)
  }

  /** Reading back the decimal text gives the number again. */
  lemma {:induction false} DecimalRoundTrip(n: nat)
    ensures DecimalValue(DecimalString(n)) == n
    decreases n
  {
    var s := DecimalString(n);
    if n >= 10 {
      DecimalRoundTrip(n / 10);
      assert s[..|s| - 1] == DecimalString(n / 10);
    }
  }

  /** Strict lexicographic order by code point; for ISO-8601 calendar dates
      ("YYYY-MM-DD") it is the chronological order. */
  predicate LexLess(a: string, b: string)
    decreases |a|
  {
    |b| > 0 && (|a| == 0 || a[0] < b[0] || (a[0] == b[0] && LexLess(a[1..], b[1..])))
  }

  lemma {:induction false} LexLessIrreflexive(a: string)
    ensures !LexLess(a, a)
    decreases |a|
  {
    if |a| > 0 {
      LexLessIrreflexive(a[1..]);
    }
  }

  lemma {:induction false} LexLessTransitive(a: string, b: string, c: string)
    requires LexLess(a, b) && LexLess(b, c)
    ensures LexLess(a, c)
    decreases |a|
  {
    if |a| > 0 && a[0] == b[0] && b[0] == c[0] {
      LexLessTransitive(a[1..], b[1..], c[1..]);
    }
  }

  lemma {:induction false} LexLessTrichotomy(a: string, b: string)
    ensures LexLess(a, b) || a == b || LexLess(b, a)
    decreases |a|
  {
    if |a| > 0 && |b| > 0 && a[0] == b[0] {
      LexLessTrichotomy(a[1..], b[1..]);
      if a[1..] == b[1..] {
        assert a == [a[0]] + a[1..] && b == [b[0]] + b[1..];
      }
    }
  }

  /** "Not later than" is transitive, so a sequence ordered pair by pair by it is ordered. */
  lemma NotLexLessTransitive(a: string, b: string, c: string)
    requires !LexLess(b, a) && !LexLess(c, b)
    ensures !LexLess(c, a)
  {
    LexLessTrichotomy(a, b);
    LexLessTrichotomy(b, c);
    if a == b && b == c {
      LexLessIrreflexive(a);
    } else {
      if a == b {
        assert LexLess(a, c);
      } else if b == c {
        assert LexLess(a, c);
      } else {
        LexLessTransitive(a, b, c);
      }
      LexLessAsymmetric(a, c);
    }
  }

  /** The strict order is asymmetric. */
  lemma LexLessAsymmetric(a: string, b: string)
    requires LexLess(a, b)
    ensures !LexLess(b, a)
  {
    if LexLess(b, a) {
      LexLessTransitive(a, b, a);
      LexLessIrreflexive(a);
    }
  }
}
