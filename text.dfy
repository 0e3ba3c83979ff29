/** Strings as the PHP code uses them: a total order for sorting, and the
    decimal rendering of integers that string concatenation performs. */
module Text {

  /** Lexicographic order on strings, character by character; a proper
      prefix comes first. It agrees with strcmp's byte order on strings whose
      bytes are valid UTF-8. */
  predicate LessEq(a: string, b: string)
  {
    |a| == 0 || (|b| > 0 && (a[0] < b[0] || (a[0] == b[0] && LessEq(a[1..], b[1..]))))
  }

  lemma {:induction false} LessEqReflexive(a: string)
    ensures LessEq(a, a)
  {
    if |a| > 0 {
      LessEqReflexive(a[1..]);
    }
  }

  lemma {:induction false} LessEqAntisymmetric(a: string, b: string)
    requires LessEq(a, b) && LessEq(b, a)
    ensures a == b
  {
    if |a| > 0 && |b| > 0 {
      LessEqAntisymmetric(a[1..], b[1..]);
      assert a == [a[0]] + a[1..] && b == [b[0]] + b[1..];
    }
  }

  lemma {:induction false} LessEqTransitive(a: string, b: string, c: string)
    requires LessEq(a, b) && LessEq(b, c)
    ensures LessEq(a, c)
  {
    if |a| > 0 && |b| > 0 && |c| > 0 && a[0] == b[0] == c[0] {
      LessEqTransitive(a[1..], b[1..], c[1..]);
    }
  }

  lemma {:induction false} LessEqTotal(a: string, b: string)
    ensures LessEq(a, b) || LessEq(b, a)
  {
    if |a| > 0 && |b| > 0 && a[0] == b[0] {
      LessEqTotal(a[1..], b[1..]);
    }
  }

  /** The character of a decimal digit. */
  function Digit(d: nat): (c: char)
    requires d < 10
    ensures '0' <= c <= '9'
  {
    (('0' as int) + d) as char
  }

  /** Decimal rendering of a natural number, without leading zeros. */
  function NatToString(n: nat): (s: string)
    ensures |s| >= 1
    ensures forall i :: 0 <= i < |s| ==> '0' <= s[i] <= '9'
  {
    if n < 10 then [Digit(n)] else NatToString(n / 10) + [Digit(n % 10)]
  }

  /** PHP's conversion of an int to a string (`$s . $n`, `sprintf('%d')`). */
  function IntToString(n: int): (s: string)
    ensures |s| >= 1 && (s[0] == '-' <==> n < 0)
    ensures forall i :: 0 <= i < |s| ==> s[i] == '-' || '0' <= s[i] <= '9'
  {
    if n < 0 then "-" + NatToString(-n) else NatToString(n)
  }

  /** Different numbers have different decimal renderings. */
  lemma {:induction false} NatToStringInjective(a: nat, b: nat)
    requires NatToString(a) == NatToString(b)
    ensures a == b
  {
    var sa, sb := NatToString(a), NatToString(b);
    SingleDigitIffShort(a);
    SingleDigitIffShort(b);
    assert Digit(a % 10) == sa[|sa| - 1] == sb[|sb| - 1] == Digit(b % 10);
    DigitInjective(a % 10, b % 10);
    if a >= 10 {
      assert NatToString(a / 10) == sa[..|sa| - 1] == sb[..|sb| - 1] == NatToString(b / 10);
      NatToStringInjective(a / 10, b / 10);
      SameQuotientAndRemainder(a, b);
    }
  }

  lemma SingleDigitIffShort(n: nat)
    ensures n < 10 <==> |NatToString(n)| == 1
  {
    if n >= 10 {
      assert |NatToString(n)| == |NatToString(n / 10)| + 1;
    }
  }

  lemma DigitInjective(x: nat, y: nat)
    requires x < 10 && y < 10 && Digit(x) == Digit(y)
    ensures x == y
  {
  }

  lemma SameQuotientAndRemainder(a: nat, b: nat)
    requires a / 10 == b / 10 && a % 10 == b % 10
    ensures a == b
  {
    assert a == 10 * (a / 10) + a % 10;
    assert b == 10 * (b / 10) + b % 10;
  }

  lemma IntToStringInjective(a: int, b: int)
    requires IntToString(a) == IntToString(b)
    ensures a == b
  {
    var sa, sb := IntToString(a), IntToString(b);
    if a < 0 && b < 0 {
      assert NatToString(-a) == sa[1..] == sb[1..] == NatToString(-b);
      NatToStringInjective(-a, -b);
    } else if a >= 0 && b >= 0 {
      NatToStringInjective(a, b);
    }
  }

  /** PHP's implode: the parts joined with the separator between them. */
  function Implode(separator: string, parts: seq<string>): (s: string)
    ensures |parts| == 0 ==> s == ""
    ensures |parts| == 1 ==> s == parts[0]
  {
    if |parts| == 0 then ""
    else if |parts| == 1 then parts[0]
    else Implode(separator, parts[..|parts| - 1]) + separator + parts[|parts| - 1]
  }

  /** The line-feed character that PHP_EOL stands for on the systems modelled. */
  const LineFeed: char := '\n'

  /** The lines of a string: the pieces between line feeds. The PHP code
      never splits a body; this is how the layout of a body is stated and
      proved (IssueModel.BodyLayout). */
  function Lines(s: string): (r: seq<string>)
    ensures |r| >= 1
  {
    if |s| == 0 then [""]
    else if s[|s| - 1] == LineFeed then Lines(s[..|s| - 1]) + [""]
    else
      var prev := Lines(s[..|s| - 1]);
      prev[..|prev| - 1] + [prev[|prev| - 1] + [s[|s| - 1]]]
  }

  /** Strings joined by a separator that the right-hand parts never contain
      come apart again: the split is at the last separator. */
  lemma SplitAtLastSeparator(a: string, b: string, c: string, d: string, sep: char)
    requires sep !in b && sep !in d
    requires a + [sep] + b == c + [sep] + d
    ensures a == c && b == d
  {
    var s := a + [sep] + b;
    OnlySeparatorAfter(a, b, sep);
    OnlySeparatorAfter(c, d, sep);
    assert |a| == |c|;
    assert a == s[..|a|] && c == s[..|c|];
    assert b == s[|a| + 1..] && d == s[|c| + 1..];
  }

  /** Strings joined by a separator that the left-hand parts never contain
      come apart again: the split is at the first separator. */
  lemma SplitAtFirstSeparator(a: string, b: string, c: string, d: string, sep: char)
    requires sep !in a && sep !in c
    requires a + [sep] + b == c + [sep] + d
    ensures a == c && b == d
  {
    var s := a + [sep] + b;
    OnlySeparatorBefore(a, b, sep);
    OnlySeparatorBefore(c, d, sep);
    assert |a| == |c|;
    assert a == s[..|a|] && c == s[..|c|];
    assert b == s[|a| + 1..] && d == s[|c| + 1..];
  }

  lemma OnlySeparatorAfter(a: string, b: string, sep: char)
    requires sep !in b
    ensures (a + [sep] + b)[|a|] == sep
    ensures forall k :: |a| < k < |a| + 1 + |b| ==> (a + [sep] + b)[k] != sep
  {
    forall k | |a| < k < |a| + 1 + |b| ensures (a + [sep] + b)[k] != sep {
      assert (a + [sep] + b)[k] == b[k - |a| - 1];
    }
  }

  lemma OnlySeparatorBefore(a: string, b: string, sep: char)
    requires sep !in a
    ensures (a + [sep] + b)[|a|] == sep
    ensures forall k :: 0 <= k < |a| ==> (a + [sep] + b)[k] != sep
  {
    forall k | 0 <= k < |a| ensures (a + [sep] + b)[k] != sep {
      assert (a + [sep] + b)[k] == a[k];
    }
  }

  lemma {:induction false} LinesWithoutBreak(s: string)
    requires LineFeed !in s
    ensures Lines(s) == [s]
  {
    if |s| > 0 {
      var init := s[..|s| - 1];
      assert LineFeed !in init by {
        forall k | 0 <= k < |init| ensures init[k] != LineFeed {
          assert init[k] == s[k];
        }
      }
      LinesWithoutBreak(init);
      assert s[|s| - 1] != LineFeed by { assert s[|s| - 1] in s; }
      assert Lines(s) == [init + [s[|s| - 1]]];
      assert s == init + [s[|s| - 1]];
    }
  }

  /** Lines after one more character: a line feed starts a new, empty line;
      any other character extends the last line. */
  lemma LinesSnoc(s: string, c: char)
    ensures c == LineFeed ==> Lines(s + [c]) == Lines(s) + [""]
    ensures c != LineFeed ==> Lines(s + [c]) == ExtendLast(Lines(s), c)
  {
    assert (s + [c])[..|s|] == s;
  }

  function ExtendLast(ls: seq<string>, c: char): seq<string>
    requires |ls| >= 1
  {
    ls[..|ls| - 1] + [ls[|ls| - 1] + [c]]
  }

  /** A line feed ends one line and starts the next. */
  lemma {:induction false} LinesAcrossBreak(a: string, b: string)
    ensures Lines(a + [LineFeed] + b) == Lines(a) + Lines(b)
  {
    if |b| == 0 {
      assert a + [LineFeed] + b == a + [LineFeed];
      LinesSnoc(a, LineFeed);
    } else {
      var init, c := b[..|b| - 1], b[|b| - 1];
      assert b == init + [c];
      assert a + [LineFeed] + b == (a + [LineFeed] + init) + [c];
      LinesAcrossBreak(a, init);
      LinesAcrossBreakStep(Lines(a), Lines(init), Lines(a + [LineFeed] + init), a + [LineFeed] + init, init, c);
    }
  }

  lemma LinesAcrossBreakStep(la: seq<string>, li: seq<string>, lp: seq<string>, p: string, init: string, c: char)
    requires li == Lines(init) && lp == Lines(p) && lp == la + li
    ensures Lines(p + [c]) == la + Lines(init + [c])
  {
    LinesSnoc(p, c);
    LinesSnoc(init, c);
    if c != LineFeed {
      ExtendLastConcat(la, li, c);
    }
  }

  lemma ExtendLastConcat(la: seq<string>, li: seq<string>, c: char)
    requires |li| >= 1
    ensures ExtendLast(la + li, c) == la + ExtendLast(li, c)
  {
    assert (la + li)[..|la + li| - 1] == la + li[..|li| - 1];
  }
}
