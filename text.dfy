/**
 * String utilities shared by the pipeline stages: decimal digits, fixed-width
 * and unpadded decimal rendering, prefix/suffix/substring tests, ASCII lower
 * casing, left-to-right replacement, the last path segment of a key, and the
 * code-point order on strings.
 */
module Text {

  predicate IsDigit(c: char) { '0' <= c <= '9' }

  predicate AllDigits(s: string) { forall i :: 0 <= i < |s| ==> IsDigit(s[i]) }

  function DigitChar(n: nat): (c: char)
    requires n < 10
    ensures IsDigit(c)
  {
    ('0' as int + n) as char
  }

  function DigitValue(c: char): (n: nat)
    requires IsDigit(c)
    ensures n < 10 && DigitChar(n) == c
  {
    c as int - '0' as int
  }

  function Pow10(w: nat): (p: nat)
    ensures p >= 1
  {
    if w == 0 then 1 else 10 * Pow10(w - 1)
  }

  /** The value of a string of decimal digits, most significant first. */
  function ValueOf(s: string): (v: nat)
    requires AllDigits(s)
    ensures v < Pow10(|s|)
  {
    if s == [] then 0 else 10 * ValueOf(s[..|s| - 1]) + DigitValue(s[|s| - 1])
  }

  /** n written with exactly `width` digits, zero-padded on the left (strftime's %m, %d, %Y). */
  function Padded(n: nat, width: nat): (s: string)
    requires n < Pow10(width)
    ensures |s| == width && AllDigits(s)
  {
    if width == 0 then "" else Padded(n / 10, width - 1) + [DigitChar(n % 10)]
  }

  /** n written in decimal without padding (Python's str(n) for n >= 0). */
  function Decimal(n: nat): (s: string)
    ensures |s| >= 1 && AllDigits(s)
  {
    if n < 10 then [DigitChar(n)] else Decimal(n / 10) + [DigitChar(n % 10)]
  }

  lemma {:induction false} ValueOfPadded(n: nat, width: nat)
    requires n < Pow10(width)
    ensures ValueOf(Padded(n, width)) == n
  {
    if width > 0 {
      var s := Padded(n, width);
      assert s[..|s| - 1] == Padded(n / 10, width - 1);
      ValueOfPadded(n / 10, width - 1);
    }
  }

  lemma {:induction false} PaddedValueOf(s: string)
    requires AllDigits(s)
    ensures Padded(ValueOf(s), |s|) == s
  {
    if s != [] {
      var init, last := s[..|s| - 1], s[|s| - 1];
      PaddedValueOf(init);
      var x, d := ValueOf(init), DigitValue(last);
      LastDigit(x, d);
      assert Padded(ValueOf(s), |s|) == Padded(x, |init|) + [DigitChar(d)];
      assert s == init + [last];
    }
  }

  /** Appending digit d to x: dividing by ten gives x back and the remainder is d. */
  lemma LastDigit(x: nat, d: nat)
    requires d < 10
    ensures (10 * x + d) / 10 == x && (10 * x + d) % 10 == d
  {
  }

  lemma {:induction false} ValueOfDecimal(n: nat)
    ensures ValueOf(Decimal(n)) == n
  {
    if n >= 10 {
      var s := Decimal(n);
      assert s[..|s| - 1] == Decimal(n / 10);
      ValueOfDecimal(n / 10);
    }
  }

  /** Distinct numbers have distinct decimal renderings. */
  lemma DecimalInjective(a: nat, b: nat)
    requires Decimal(a) == Decimal(b)
    ensures a == b
  {
    ValueOfDecimal(a);
    ValueOfDecimal(b);
  }

  predicate StartsWith(s: string, prefix: string)
  {
    |prefix| <= |s| && s[..|prefix|] == prefix
  }

  predicate EndsWith(s: string, suffix: string)
  {
    |suffix| <= |s| && s[|s| - |suffix|..] == suffix
  }

  /** w occurs in s starting at index i. */
  predicate OccursAt(s: string, w: string, i: int)
  {
    0 <= i && i + |w| <= |s| && s[i..i + |w|] == w
  }

  /** Python's `w in s`: w occurs somewhere in s. */
  predicate Contains(s: string, w: string)
  {
    exists i | 0 <= i <= |s| - |w| :: OccursAt(s, w, i)
  }

  /** A word holding a character that s lacks does not occur in s. */
  lemma MissingCharNotContained(s: string, w: string, c: char)
    requires c in w && c !in s
    ensures !Contains(s, w)
  {
    var k :| 0 <= k < |w| && w[k] == c;
    forall i | 0 <= i && i + |w| <= |s|
      ensures !OccursAt(s, w, i)
    {
      assert s[i..i + |w|][k] == s[i + k] != c;
    }
  }

  function LowerChar(c: char): char
  {
    if 'A' <= c <= 'Z' then (c as int + 32) as char else c
  }

  /** str.lower() on ASCII letters; every other character is kept. */
  function ToLower(s: string): (r: string)
    ensures |r| == |s| && forall i :: 0 <= i < |s| ==> r[i] == LowerChar(s[i])
  {
    seq(|s|, i requires 0 <= i < |s| => LowerChar(s[i]))
  }

  /**
   * str.replace(pattern, replacement): scans left to right and replaces every
   * non-overlapping occurrence of the (non-empty) pattern.
   */
  function ReplaceAll(s: string, pattern: string, replacement: string): string
    requires |pattern| > 0
    decreases |s|
  {
    if |s| < |pattern| then s
    else if s[..|pattern|] == pattern then replacement + ReplaceAll(s[|pattern|..], pattern, replacement)
    else [s[0]] + ReplaceAll(s[1..], pattern, replacement)
  }

  /** Where the pattern does not occur, nothing is replaced. */
  lemma {:induction false} ReplaceAllAbsent(s: string, pattern: string, replacement: string)
    requires |pattern| > 0 && !Contains(s, pattern)
    ensures ReplaceAll(s, pattern, replacement) == s
  {
    if |s| >= |pattern| {
      assert !OccursAt(s, pattern, 0);
      forall i | 0 <= i && i + |pattern| <= |s[1..]|
        ensures !OccursAt(s[1..], pattern, i)
      {
        assert s[1..][i..i + |pattern|] == s[i + 1..i + 1 + |pattern|];
        assert !OccursAt(s, pattern, i + 1);
      }
      ReplaceAllAbsent(s[1..], pattern, replacement);
    }
  }

  /**
   * A pattern whose first character does not occur in `before` is replaced
   * exactly once in `before + pattern`: at the end.
   */
  lemma {:induction false} ReplaceAllAtEnd(before: string, pattern: string, replacement: string)
    requires |pattern| > 0 && pattern[0] !in before
    ensures ReplaceAll(before + pattern, pattern, replacement) == before + replacement
    decreases |before|
  {
    var s := before + pattern;
    if before == [] {
      assert s == pattern;
      assert ReplaceAll(s, pattern, replacement) == replacement + ReplaceAll([], pattern, replacement);
    } else {
      assert s[..|pattern|] != pattern by {
        assert s[..|pattern|][0] == before[0];
      }
      assert ReplaceAll(s, pattern, replacement) == [s[0]] + ReplaceAll(s[1..], pattern, replacement);
      assert s[1..] == before[1..] + pattern;
      assert pattern[0] !in before[1..] by {
        assert forall i | 0 <= i < |before| - 1 :: before[1..][i] == before[i + 1];
      }
      ReplaceAllAtEnd(before[1..], pattern, replacement);
      assert before == [before[0]] + before[1..];
    }
  }

  /**
   * A prefix of the output free of the replacement's first character was not
   * touched by a replacement: it is the same prefix of the input.
   */
  lemma {:induction false} ReplaceAllPrefixKept(s: string, pattern: string, replacement: string, k: int)
    requires |pattern| > 0 && |replacement| > 0
    requires 0 <= k <= |ReplaceAll(s, pattern, replacement)|
    requires forall j | 0 <= j < k :: ReplaceAll(s, pattern, replacement)[j] != replacement[0]
    ensures k <= |s| && s[..k] == ReplaceAll(s, pattern, replacement)[..k]
    decreases |s|
  {
    var out := ReplaceAll(s, pattern, replacement);
    if |s| >= |pattern| && k > 0 {
      assert out[0] != replacement[0];
      var rest := ReplaceAll(s[1..], pattern, replacement);
      assert out == [s[0]] + rest;
      assert forall j | 0 <= j < k - 1 :: rest[j] == out[j + 1];
      ReplaceAllPrefixKept(s[1..], pattern, replacement, k - 1);
      assert s[..k] == [s[0]] + s[1..][..k - 1];
    }
  }

  /**
   * Every occurrence is replaced: when the pattern and the replacement do not
   * start with a character of each other, the output holds no occurrence.
   */
  lemma {:induction false} ReplaceAllRemovesAll(s: string, pattern: string, replacement: string)
    requires |pattern| > 0 && |replacement| > 0
    requires pattern[0] !in replacement && replacement[0] !in pattern
    ensures !Contains(ReplaceAll(s, pattern, replacement), pattern)
    decreases |s|
  {
    var out := ReplaceAll(s, pattern, replacement);
    if |s| >= |pattern| {
      if s[..|pattern|] == pattern {
        var rest := ReplaceAll(s[|pattern|..], pattern, replacement);
        ReplaceAllRemovesAll(s[|pattern|..], pattern, replacement);
        assert out == replacement + rest;
        forall i | 0 <= i <= |out| - |pattern|
          ensures !OccursAt(out, pattern, i)
        {
          if i < |replacement| {
            assert out[i] == replacement[i];
          } else {
            assert out[i..i + |pattern|] == rest[i - |replacement|..i - |replacement| + |pattern|];
            assert !OccursAt(rest, pattern, i - |replacement|);
          }
        }
      } else {
        var rest := ReplaceAll(s[1..], pattern, replacement);
        ReplaceAllRemovesAll(s[1..], pattern, replacement);
        assert out == [s[0]] + rest;
        forall i | 0 <= i <= |out| - |pattern|
          ensures !OccursAt(out, pattern, i)
        {
          if i == 0 {
            var tail := pattern[1..];
            if |tail| <= |rest| && rest[..|tail|] == tail {
              assert forall j | 0 <= j < |tail| :: rest[j] == tail[j] != replacement[0];
              ReplaceAllPrefixKept(s[1..], pattern, replacement, |tail|);
              assert s[..|pattern|] == [s[0]] + tail;
              assert s[0] != pattern[0];
            } else {
              assert out[1..|pattern|] == rest[..|tail|];
            }
          } else {
            assert out[i..i + |pattern|] == rest[i - 1..i - 1 + |pattern|];
            assert !OccursAt(rest, pattern, i - 1);
          }
        }
      }
    }
  }

  /** The segment after the last '/', i.e. Python's key.split('/')[-1]. */
  function Basename(s: string): (r: string)
    ensures '/' !in r
    ensures |r| <= |s| && s[|s| - |r|..] == r
    ensures |r| < |s| ==> s[|s| - |r| - 1] == '/'
  {
    if s == [] then []
    else if s[|s| - 1] == '/' then []
    else Basename(s[..|s| - 1]) + [s[|s| - 1]]
  }

  /** The basename of `dir + "/" + name` is `name` whenever name has no '/'. */
  lemma {:induction false} BasenameAfterSlash(dir: string, name: string)
    requires '/' !in name
    ensures Basename(dir + "/" + name) == name
  {
    var s := dir + "/" + name;
    if name != [] {
      var init := name[..|name| - 1];
      assert s[..|s| - 1] == dir + "/" + init;
      assert s[|s| - 1] == name[|name| - 1];
      BasenameAfterSlash(dir, init);
      assert name == init + [name[|name| - 1]];
    }
  }

  /** Code-point (lexicographic) order on strings, as a SQL engine orders varchar. */
  predicate StrLe(a: string, b: string)
    decreases |a|
  {
    |a| == 0 || (|b| > 0 && (a[0] < b[0] || (a[0] == b[0] && StrLe(a[1..], b[1..]))))
  }

  lemma {:induction false} StrLeReflexive(a: string)
    ensures StrLe(a, a)
  {
    if |a| > 0 { StrLeReflexive(a[1..]); }
  }

  lemma {:induction false} StrLeTotal(a: string, b: string)
    ensures StrLe(a, b) || StrLe(b, a)
  {
    if |a| > 0 && |b| > 0 && a[0] == b[0] { StrLeTotal(a[1..], b[1..]); }
  }

  lemma {:induction false} StrLeTransitive(a: string, b: string, c: string)
    requires StrLe(a, b) && StrLe(b, c)
    ensures StrLe(a, c)
  {
    if |a| > 0 && a[0] == b[0] && b[0] == c[0] { StrLeTransitive(a[1..], b[1..], c[1..]); }
  }
  /** Comparing two concatenations whose heads have equal length: the heads decide unless they are equal. */
  lemma {:induction false} StrLeConcat(a: string, b: string, s: string, t: string)
    requires |a| == |b|
    ensures StrLe(a + s, b + t) == if a == b then StrLe(s, t) else StrLe(a, b)
    decreases |a|
  {
    if |a| > 0 {
      assert (a + s)[0] == a[0] && (b + t)[0] == b[0];
      assert (a + s)[1..] == a[1..] + s && (b + t)[1..] == b[1..] + t;
      StrLeConcat(a[1..], b[1..], s, t);
      if a[0] == b[0] && a[1..] == b[1..] {
        assert a == [a[0]] + a[1..] && b == [b[0]] + b[1..];
      }
    } else {
      assert a + s == s && b + t == t;
    }
  }

  /** Zero-padded numbers of one width compare as strings exactly as they compare as numbers. */
  lemma {:induction false} PaddedOrder(x: nat, y: nat, width: nat)
    requires x < Pow10(width) && y < Pow10(width)
    ensures StrLe(Padded(x, width), Padded(y, width)) <==> x <= y
    ensures Padded(x, width) == Padded(y, width) <==> x == y
  {
    if width > 0 {
      var hx, hy := Padded(x / 10, width - 1), Padded(y / 10, width - 1);
      var dx, dy := DigitChar(x % 10), DigitChar(y % 10);
      PaddedOrder(x / 10, y / 10, width - 1);
      StrLeConcat(hx, hy, [dx], [dy]);
      assert StrLe([dx], [dy]) <==> x % 10 <= y % 10;
      LastDigitOrder(x, y);
      if Padded(x, width) == Padded(y, width) {
        ValueOfPadded(x, width);
        ValueOfPadded(y, width);
      }
    }
  }

  /** Numbers compare by everything but the last digit first, then by the last digit. */
  lemma LastDigitOrder(x: nat, y: nat)
    ensures x <= y <==> if x / 10 != y / 10 then x / 10 <= y / 10 else x % 10 <= y % 10
  {
  }

  /** Three fixed-width fields joined by '-' compare field by field, the first difference deciding. */
  lemma DashedOrder(a1: string, b1: string, c1: string, a2: string, b2: string, c2: string)
    requires |a1| == |a2| && |b1| == |b2|
    ensures var s1, s2 := a1 + "-" + b1 + "-" + c1, a2 + "-" + b2 + "-" + c2;
      && (StrLe(s1, s2) == if a1 != a2 then StrLe(a1, a2) else if b1 != b2 then StrLe(b1, b2) else StrLe(c1, c2))
      && (s1 == s2 <==> a1 == a2 && b1 == b2 && c1 == c2)
  {
    var s1, s2 := a1 + "-" + b1 + "-" + c1, a2 + "-" + b2 + "-" + c2;
    var t1, t2 := "-" + b1 + "-" + c1, "-" + b2 + "-" + c2;
    assert s1 == a1 + t1 && s2 == a2 + t2;
    StrLeConcat(a1, a2, t1, t2);
    DashedTail(b1, c1, b2, c2);
    if s1 == s2 {
      DashedFields(a1, b1, c1);
      DashedFields(a2, b2, c2);
    }
  }

  /** The part after the first field: a dash, a field of fixed width, a dash, and the last field. */
  lemma DashedTail(b1: string, c1: string, b2: string, c2: string)
    requires |b1| == |b2|
    ensures StrLe("-" + b1 + "-" + c1, "-" + b2 + "-" + c2) == if b1 != b2 then StrLe(b1, b2) else StrLe(c1, c2)
  {
    var t1, t2 := "-" + b1 + "-" + c1, "-" + b2 + "-" + c2;
    assert t1[0] == t2[0] == '-';
    assert t1[1..] == b1 + ("-" + c1) && t2[1..] == b2 + ("-" + c2);
    StrLeConcat(b1, b2, "-" + c1, "-" + c2);
    var u1, u2 := "-" + c1, "-" + c2;
    assert u1[0] == u2[0] && u1[1..] == c1 && u2[1..] == c2;
  }

  lemma DashedFields(a: string, b: string, c: string)
    ensures var s := a + "-" + b + "-" + c;
      s[..|a|] == a && s[|a| + 1..|a| + 1 + |b|] == b && s[|a| + |b| + 2..] == c
  {
  }
}
