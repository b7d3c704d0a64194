/**
 * The ECMAScript string operations the mesh builder relies on:
 * `String.prototype.trim`, `split(',')` and `split(/\r\n|\r|\n/)`.
 * Strings are modelled as `seq<char>`, sequences of Unicode scalar values
 * rather than UTF-16 code units: a lone surrogate cannot be written and a
 * supplementary-plane character is one `char`. No whitespace, comma or line
 * break code point lies outside the Basic Multilingual Plane, so trimming and
 * splitting treat every such character as ECMAScript does.
 */
module Text {

  /** A character `trim` removes: ECMAScript WhiteSpace (including every Zs space) or LineTerminator. */
  predicate IsWhitespace(c: char) {
    var n := c as int;
    n == 0x09 || n == 0x0A || n == 0x0B || n == 0x0C || n == 0x0D || n == 0x20 ||
    n == 0xA0 || n == 0x1680 || (0x2000 <= n <= 0x200A) || n == 0x2028 || n == 0x2029 ||
    n == 0x202F || n == 0x205F || n == 0x3000 || n == 0xFEFF
  }

  predicate AllWhitespace(s: string) {
    forall k :: 0 <= k < |s| ==> IsWhitespace(s[k])
  }

  /** Drops the leading whitespace: a suffix of `s`, all of whose removed characters are whitespace. */
  function TrimStart(s: string): (r: string)
    ensures |r| <= |s| && r == s[|s| - |r|..]
    ensures AllWhitespace(s[..|s| - |r|])
    ensures r == [] || !IsWhitespace(r[0])
  {
    if |s| > 0 && IsWhitespace(s[0]) then
      var r := TrimStart(s[1..]);
      assert s[..|s| - |r|] == [s[0]] + s[1..][..|s| - 1 - |r|];
      r
    else s
  }

  /** Drops the trailing whitespace: a prefix of `s`, all of whose removed characters are whitespace. */
  function TrimEnd(s: string): (r: string)
    ensures |r| <= |s| && r == s[..|r|]
    ensures AllWhitespace(s[|r|..])
    ensures r == [] || !IsWhitespace(r[|r| - 1])
  {
    if |s| > 0 && IsWhitespace(s[|s| - 1]) then
      var r := TrimEnd(s[..|s| - 1]);
      assert s[|r|..] == s[..|s| - 1][|r|..] + [s[|s| - 1]];
      r
    else s
  }

  /** The number of whitespace characters at the start of `s`. */
  function LeadingWhitespace(s: string): nat {
    |s| - |TrimStart(s)|
  }

  /**
   * `trim()`: the slice of `s` that remains once the leading and trailing
   * whitespace is removed; it neither starts nor ends with whitespace.
   */
  function Trim(s: string): (r: string)
    ensures LeadingWhitespace(s) + |r| <= |s|
    ensures r == s[LeadingWhitespace(s)..LeadingWhitespace(s) + |r|]
    ensures AllWhitespace(s[..LeadingWhitespace(s)]) && AllWhitespace(s[LeadingWhitespace(s) + |r|..])
    ensures r == [] || (!IsWhitespace(r[0]) && !IsWhitespace(r[|r| - 1]))
  {
    var t := TrimStart(s);
    var r := TrimEnd(t);
    var i := |s| - |t|;
    assert r == s[i..i + |r|];
    assert s[i + |r|..] == t[|r|..];
    r
  }

  /** Trimming is idempotent. */
  lemma {:induction false} TrimIdempotent(s: string)
    ensures Trim(Trim(s)) == Trim(s)
  {
    var r := Trim(s);
    assert TrimStart(r) == r;
    assert TrimEnd(r) == r;
  }

  /** The number of occurrences of `c` in `s`. */
  function Count(s: string, c: char): nat {
    if |s| == 0 then 0 else (if s[0] == c then 1 else 0) + Count(s[1..], c)
  }

  /** `s.split(sep)` for a one-character separator. */
  function SplitOn(s: string, sep: char): (r: seq<string>)
    ensures |r| == Count(s, sep) + 1
    ensures forall k :: 0 <= k < |r| ==> sep !in r[k]
  {
    if |s| == 0 then [""]
    else
      var rest := SplitOn(s[1..], sep);
      if s[0] == sep then [""] + rest
      else [[s[0]] + rest[0]] + rest[1..]
  }

  /** `parts.join(sep)`, the inverse of `SplitOn`. */
  function Join(parts: seq<string>, sep: char): string
    requires |parts| >= 1
  {
    if |parts| == 1 then parts[0] else parts[0] + [sep] + Join(parts[1..], sep)
  }

  /** Splitting and joining again gives back the text. */
  lemma {:induction false} JoinSplitOn(s: string, sep: char)
    ensures Join(SplitOn(s, sep), sep) == s
  {
    if |s| > 0 {
      JoinSplitOn(s[1..], sep);
      var rest := SplitOn(s[1..], sep);
      if s[0] == sep {
        assert s == [sep] + s[1..];
      } else if |rest| == 1 {
        assert s == [s[0]] + s[1..];
      } else {
        assert Join(rest, sep) == rest[0] + [sep] + Join(rest[1..], sep);
        assert s == [s[0]] + s[1..];
      }
    }
  }

  /** A head without the separator splits off as the first part. */
  lemma {:induction false} SplitOnCons(a: string, sep: char, b: string)
    requires sep !in a
    ensures SplitOn(a + [sep] + b, sep) == [a] + SplitOn(b, sep)
  {
    if |a| > 0 {
      assert (a + [sep] + b)[1..] == a[1..] + [sep] + b;
      SplitOnCons(a[1..], sep, b);
      assert [a[0]] + a[1..] == a;
    } else {
      assert a + [sep] + b == [sep] + b;
    }
  }

  /** A text that does not contain the separator is a single part. */
  lemma {:induction false} SplitOnNone(a: string, sep: char)
    requires sep !in a
    ensures SplitOn(a, sep) == [a]
  {
    if |a| > 0 {
      SplitOnNone(a[1..], sep);
      assert [a[0]] + a[1..] == a;
    }
  }

  predicate IsLineBreak(c: char) {
    c == '\r' || c == '\n'
  }

  /** The length of the line separator at the start of `s`, or 0 when it starts with another character. */
  function SeparatorLength(s: string): (k: nat)
    requires |s| > 0
    ensures k <= |s| && (k > 0 <==> IsLineBreak(s[0]))
  {
    if s[0] == '\n' then 1
    else if s[0] == '\r' then (if |s| >= 2 && s[1] == '\n' then 2 else 1)
    else 0
  }

  /**
   * `s.split(/\r\n|\r|\n/)`: the alternatives are tried left to right, so
   * a CR directly followed by LF is one separator.
   */
  function SplitLines(s: string): (r: seq<string>)
    ensures |r| >= 1
  {
    if |s| == 0 then [""]
    else
      var k := SeparatorLength(s);
      if k > 0 then [""] + SplitLines(s[k..])
      else
        var rest := SplitLines(s[1..]);
        [[s[0]] + rest[0]] + rest[1..]
  }

  /** No line contains a line-break character. */
  lemma {:induction false} SplitLinesNoBreaks(s: string)
    ensures forall k :: 0 <= k < |SplitLines(s)| ==> '\r' !in SplitLines(s)[k] && '\n' !in SplitLines(s)[k]
  {
    if |s| > 0 {
      var k := SeparatorLength(s);
      if k > 0 {
        SplitLinesNoBreaks(s[k..]);
      } else {
        SplitLinesNoBreaks(s[1..]);
      }
    }
  }

  /** A text without line breaks is a single line. */
  lemma {:induction false} SplitLinesSingle(s: string)
    requires '\r' !in s && '\n' !in s
    ensures SplitLines(s) == [s]
  {
    if |s| > 0 {
      SplitLinesSingle(s[1..]);
      assert [s[0]] + s[1..] == s;
    }
  }

  /** The lines of `a + b`: the last line of `a` fused with the first line of `b`. */
  predicate FusedSplit(a: string, b: string) {
    var sa, sb := SplitLines(a), SplitLines(b);
    SplitLines(a + b) == sa[..|sa| - 1] + [sa[|sa| - 1] + sb[0]] + sb[1..]
  }

  /**
   * Splitting a concatenation fuses the last line of `a` with the first line
   * of `b`, unless `a` ends in CR and `b` starts with LF (they would then form
   * one separator).
   */
  lemma {:induction false} SplitLinesAppend(a: string, b: string)
    requires !(|a| > 0 && a[|a| - 1] == '\r' && |b| > 0 && b[0] == '\n')
    ensures FusedSplit(a, b)
  {
    if |a| == 0 {
      var sb := SplitLines(b);
      assert a + b == b;
      assert SplitLines(a) == [""];
      assert "" + sb[0] == sb[0];
      assert [sb[0]] + sb[1..] == sb;
    } else {
      var k := SeparatorLength(a);
      if k > 0 {
        assert SeparatorLength(a + b) == k;
        assert (a + b)[k..] == a[k..] + b;
        SplitLinesAppend(a[k..], b);
        FusedAfterBreak(a, b, k);
      } else {
        assert (a + b)[1..] == a[1..] + b;
        SplitLinesAppend(a[1..], b);
        FusedAfterCode(a, b);
      }
    }
  }

  lemma FusedAfterBreak(a: string, b: string, k: nat)
    requires |a| > 0 && k == SeparatorLength(a) > 0 && SeparatorLength(a + b) == k
    requires FusedSplit(a[k..], b)
    ensures FusedSplit(a, b)
  {
    assert (a + b)[k..] == a[k..] + b;
    assert SplitLines(a + b) == [""] + SplitLines(a[k..] + b);
    assert SplitLines(a) == [""] + SplitLines(a[k..]);
    var sb := SplitLines(b);
    FuseAfterPrefix([""], SplitLines(a[k..]), sb[0], sb[1..]);
  }

  lemma FusedAfterCode(a: string, b: string)
    requires |a| > 0 && SeparatorLength(a) == 0
    requires FusedSplit(a[1..], b)
    ensures FusedSplit(a, b)
  {
    assert (a + b)[1..] == a[1..] + b;
    assert SeparatorLength(a + b) == 0;
    var r := SplitLines(a[1..] + b);
    assert SplitLines(a + b) == [[a[0]] + r[0]] + r[1..];
    assert SplitLines(a) == [[a[0]] + SplitLines(a[1..])[0]] + SplitLines(a[1..])[1..];
    var sb := SplitLines(b);
    FuseAfterCons(a[0], SplitLines(a[1..]), sb[0], sb[1..]);
  }

  /** Lines in front of the fused ones stay in front. */
  lemma FuseAfterPrefix(pre: seq<string>, xs: seq<string>, y: string, zs: seq<string>)
    requires |xs| >= 1
    ensures var ps := pre + xs;
            pre + (xs[..|xs| - 1] + [xs[|xs| - 1] + y] + zs) == ps[..|ps| - 1] + [ps[|ps| - 1] + y] + zs
  {
    var ps := pre + xs;
    assert ps[..|ps| - 1] == pre + xs[..|xs| - 1];
  }

  /** Prepending a character to the first line commutes with fusing the last line. */
  lemma FuseAfterCons(c: char, xs: seq<string>, y: string, zs: seq<string>)
    requires |xs| >= 1
    ensures var r := xs[..|xs| - 1] + [xs[|xs| - 1] + y] + zs;
            var xs' := [[c] + xs[0]] + xs[1..];
            [[c] + r[0]] + r[1..] == xs'[..|xs'| - 1] + [xs'[|xs'| - 1] + y] + zs
  {
    var r := xs[..|xs| - 1] + [xs[|xs| - 1] + y] + zs;
    var xs' := [[c] + xs[0]] + xs[1..];
    if |xs| == 1 {
      assert r[0] == xs[0] + y && r[1..] == zs;
      assert [c] + (xs[0] + y) == ([c] + xs[0]) + y;
    } else {
      assert r[0] == xs[0] && r[1..] == xs[1..|xs| - 1] + [xs[|xs| - 1] + y] + zs;
      assert xs'[..|xs'| - 1] == [[c] + xs[0]] + xs[1..|xs| - 1];
    }
  }
}
