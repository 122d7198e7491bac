/** Sequence and string operations of the .NET base library that the client
    relies on (LINQ `Where`, `string.Join`, `string.Replace`, `Contains`,
    `ToLowerInvariant` on ASCII text, `char.IsWhiteSpace`, decimal formatting
    of integers), each defined once with the facts the rest of the model uses. */
module Text {
  import opened Common

  // ---------------------------------------------------------------------------
  // Filtering (LINQ `Where`): keeps the elements that satisfy `p`, in order.

  function Filter<T>(p: T -> bool, s: seq<T>): (r: seq<T>)
    ensures |r| <= |s|
    ensures forall i :: 0 <= i < |r| ==> p(r[i])
  {
    if |s| == 0 then [] else
    Filter(p, s[..|s| - 1]) + (if p(s[|s| - 1]) then [s[|s| - 1]] else [])
  }

  /** Filtering distributes over concatenation, so it keeps relative order. */
  lemma {:induction false} FilterConcat<T>(p: T -> bool, a: seq<T>, b: seq<T>)
    ensures Filter(p, a + b) == Filter(p, a) + Filter(p, b)
  {
    if |b| == 0 {
      assert a + b == a;
    } else {
      var b' := b[..|b| - 1];
      assert (a + b)[..|a + b| - 1] == a + b';
      assert (a + b)[|a + b| - 1] == b[|b| - 1];
      FilterConcat(p, a, b');
    }
  }

  /** Filtering keeps every occurrence of an element satisfying `p` and drops
      every occurrence of the others. */
  lemma {:induction false} FilterMultiset<T>(p: T -> bool, s: seq<T>, x: T)
    ensures multiset(Filter(p, s))[x] == if p(x) then multiset(s)[x] else 0
  {
    if |s| > 0 {
      var s' := s[..|s| - 1];
      assert s == s' + [s[|s| - 1]];
      FilterMultiset(p, s', x);
    }
  }

  /** A sequence all of whose elements satisfy `p` is left unchanged. */
  lemma {:induction false} FilterAll<T>(p: T -> bool, s: seq<T>)
    requires forall i :: 0 <= i < |s| ==> p(s[i])
    ensures Filter(p, s) == s
  {
    if |s| > 0 {
      FilterAll(p, s[..|s| - 1]);
      assert s[..|s| - 1] + [s[|s| - 1]] == s;
    }
  }

  // ---------------------------------------------------------------------------
  // Joining and splitting on a one-character separator (`string.Join`).

  function Join(sep: char, parts: seq<string>): string
  {
    if |parts| == 0 then ""
    else if |parts| == 1 then parts[0]
    else parts[0] + [sep] + Join(sep, parts[1..])
  }

  /** The pieces of `s` between occurrences of `sep`; the inverse of `Join`. */
  function Split(s: string, sep: char): (r: seq<string>)
    ensures |r| > 0
  {
    if |s| == 0 then [""]
    else
      var rest := Split(s[1..], sep);
      if s[0] == sep then [""] + rest else [[s[0]] + rest[0]] + rest[1..]
  }

  lemma {:induction false} SplitNoSeparator(s: string, sep: char)
    requires sep !in s
    ensures Split(s, sep) == [s]
  {
    if |s| > 0 {
      SplitNoSeparator(s[1..], sep);
      assert [s[0]] + s[1..] == s;
    }
  }

  /** A separator between two strings separates their pieces. */
  lemma {:induction false} SplitConcat(a: string, b: string, sep: char)
    ensures Split(a + [sep] + b, sep) == Split(a, sep) + Split(b, sep)
  {
    if |a| == 0 {
      assert a + [sep] + b == [sep] + b;
      assert ([sep] + b)[1..] == b;
    } else {
      assert (a + [sep] + b)[1..] == a[1..] + [sep] + b;
      SplitConcat(a[1..], b, sep);
    }
  }

  /** Splitting a join recovers the parts when no part holds the separator. */
  lemma {:induction false} SplitJoin(sep: char, parts: seq<string>)
    requires |parts| > 0
    requires forall i :: 0 <= i < |parts| ==> sep !in parts[i]
    ensures Split(Join(sep, parts), sep) == parts
  {
    if |parts| == 1 {
      SplitNoSeparator(parts[0], sep);
    } else {
      SplitJoin(sep, parts[1..]);
      SplitConcat(parts[0], Join(sep, parts[1..]), sep);
      SplitNoSeparator(parts[0], sep);
      assert [parts[0]] + parts[1..] == parts;
    }
  }

  /** A separator occurs in a join only between parts or inside a part. */
  lemma {:induction false} JoinAvoids(sep: char, parts: seq<string>, c: char)
    requires c != sep
    requires forall i :: 0 <= i < |parts| ==> c !in parts[i]
    ensures c !in Join(sep, parts)
  {
    if |parts| > 1 {
      JoinAvoids(sep, parts[1..], c);
    }
  }

  // ---------------------------------------------------------------------------
  // Substrings and ordinal replacement (`string.Contains`, `string.Replace`).

  predicate StartsWith(s: string, prefix: string)
  {
    |prefix| <= |s| && s[..|prefix|] == prefix
  }

  /** `pat` occurs in `s` at some position. */
  predicate Contains(s: string, pat: string)
    decreases |s|
  {
    StartsWith(s, pat) || (|s| > 0 && Contains(s[1..], pat))
  }

  /** Every leftmost, non-overlapping occurrence of `pat` replaced by `rep`,
      scanning left to right, as `string.Replace` does. */
  function ReplaceAll(s: string, pat: string, rep: string): string
    requires |pat| > 0
    decreases |s|
  {
    if StartsWith(s, pat) then rep + ReplaceAll(s[|pat|..], pat, rep)
    else if |s| == 0 then ""
    else [s[0]] + ReplaceAll(s[1..], pat, rep)
  }

  lemma {:induction false} ReplaceAbsent(s: string, pat: string, rep: string)
    requires |pat| > 0 && !Contains(s, pat)
    ensures ReplaceAll(s, pat, rep) == s
  {
    if |s| > 0 {
      ReplaceAbsent(s[1..], pat, rep);
      assert [s[0]] + s[1..] == s;
    }
  }

  /** One character that does not start an occurrence is copied. */
  lemma ReplaceStep(c: char, t: string, pat: string, rep: string)
    requires |pat| > 0 && !StartsWith([c] + t, pat)
    ensures ReplaceAll([c] + t, pat, rep) == [c] + ReplaceAll(t, pat, rep)
  {
    assert ([c] + t)[1..] == t;
  }

  /** A prefix that holds no occurrence and ends with a character foreign to
      `pat` is copied unchanged: no occurrence can start in it. */
  lemma {:induction false} ReplaceAfterClean(a: string, b: string, pat: string, rep: string)
    requires |pat| > 0 && |a| > 0 && a[|a| - 1] !in pat && !Contains(a, pat)
    ensures ReplaceAll(a + b, pat, rep) == a + ReplaceAll(b, pat, rep)
    decreases |a|
  {
    var t := a[1..] + b;
    assert a + b == [a[0]] + t;
    if |pat| <= |a| {
      assert (a + b)[..|pat|] == a[..|pat|];
    } else {
      assert (a + b)[|a| - 1] == a[|a| - 1];
    }
    ReplaceStep(a[0], t, pat, rep);
    if |a| > 1 {
      ReplaceAfterClean(a[1..], b, pat, rep);
      assert [a[0]] + a[1..] == a;
    } else {
      assert t == b;
    }
  }

  /** A prefix without the first character of `pat` is copied unchanged. */
  lemma {:induction false} ReplaceAfterForeign(a: string, b: string, pat: string, rep: string)
    requires |pat| > 0 && pat[0] !in a
    ensures ReplaceAll(a + b, pat, rep) == a + ReplaceAll(b, pat, rep)
    decreases |a|
  {
    if |a| > 0 {
      var t := a[1..] + b;
      assert a + b == [a[0]] + t;
      ReplaceStep(a[0], t, pat, rep);
      ReplaceAfterForeign(a[1..], b, pat, rep);
      assert [a[0]] + a[1..] == a;
    } else {
      assert a + b == b;
    }
  }

  /** An occurrence in a prefix is an occurrence in the whole. */
  lemma {:induction false} ContainsPrefix(a: string, b: string, pat: string)
    requires Contains(a, pat)
    ensures Contains(a + b, pat)
    decreases |a|
  {
    if StartsWith(a, pat) {
      assert (a + b)[..|pat|] == a[..|pat|];
    } else {
      assert (a + b)[1..] == a[1..] + b;
      ContainsPrefix(a[1..], b, pat);
    }
  }

  lemma NotContainsPrefix(a: string, b: string, pat: string)
    requires !Contains(a + b, pat)
    ensures !Contains(a, pat)
  {
    if Contains(a, pat) {
      ContainsPrefix(a, b, pat);
    }
  }

  /** `pat` occurs in any text that holds it between two others. */
  lemma {:induction false} ContainsMiddle(a: string, pat: string, c: string)
    ensures Contains(a + pat + c, pat)
    decreases |a|
  {
    if |a| == 0 {
      assert (a + pat + c)[..|pat|] == pat;
    } else {
      assert (a + pat + c)[1..] == a[1..] + pat + c;
      ContainsMiddle(a[1..], pat, c);
    }
  }

  /** No occurrence of such a `pat` starts inside `x` and runs into `z`. */
  lemma NoStartAcross(x: string, z: string, pat: string)
    requires |pat| > 0 && pat[0] !in pat[1..]
    requires |z| > 0 && z[0] == pat[0]
    requires 0 < |x| < |pat|
    ensures !StartsWith(x + z, pat)
  {
    assert pat[1..][|x| - 1] == pat[|x|];
    assert (x + z)[|x|] == z[0] != pat[|x|];
  }

  /** When `pat` starts with a character that occurs nowhere else in it, no
      occurrence can run across the start of a text beginning with that
      character: the replacement works on both sides separately. */
  lemma {:induction false} ReplaceAtStart(x: string, z: string, pat: string, rep: string)
    requires |pat| > 0 && pat[0] !in pat[1..]
    requires |z| > 0 && z[0] == pat[0]
    ensures ReplaceAll(x + z, pat, rep) == ReplaceAll(x, pat, rep) + ReplaceAll(z, pat, rep)
    decreases |x|
  {
    if |x| == 0 {
      assert x + z == z;
    } else if StartsWith(x + z, pat) {
      if |x| < |pat| {
        NoStartAcross(x, z, pat);
      }
      assert (x + z)[..|pat|] == x[..|pat|];
      assert (x + z)[|pat|..] == x[|pat|..] + z;
      ReplaceAtStart(x[|pat|..], z, pat, rep);
    } else {
      if |pat| <= |x| {
        assert (x + z)[..|pat|] == x[..|pat|];
      }
      assert (x + z)[1..] == x[1..] + z;
      ReplaceAtStart(x[1..], z, pat, rep);
    }
  }

  /** A piece `t` after a separator that starts `pat` is copied, and an
      occurrence of `pat` right after it replaced, when `t` cannot be the rest
      of an occurrence and holds no separator. */
  lemma ReplaceAfterPiece(x: string, t: string, tail: string, pat: string, rep: string)
    requires |pat| > 1 && pat[0] !in pat[1..]
    requires |t| > 0 && t[0] != pat[1] && pat[0] !in t
    ensures ReplaceAll(x + ([pat[0]] + t + pat + tail), pat, rep)
         == ReplaceAll(x, pat, rep) + ([pat[0]] + t + rep) + ReplaceAll(tail, pat, rep)
  {
    var z := [pat[0]] + t + pat + tail;
    ReplaceAtStart(x, z, pat, rep);
    assert z == [pat[0]] + (t + (pat + tail));
    assert ([pat[0]] + (t + (pat + tail)))[1] == t[0];
    ReplaceStep(pat[0], t + (pat + tail), pat, rep);
    ReplaceAfterForeign(t, pat + tail, pat, rep);
    assert (pat + tail)[..|pat|] == pat && (pat + tail)[|pat|..] == tail;
  }

  // ---------------------------------------------------------------------------
  // Case and white space.

  /** `ToLowerInvariant` on one character, exact on ASCII. */
  function LowerChar(c: char): char
  {
    if 'A' <= c <= 'Z' then (c as int + 32) as char else c
  }

  function ToLower(s: string): string
  {
    seq(|s|, i requires 0 <= i < |s| => LowerChar(s[i]))
  }

  lemma ToLowerConcat(a: string, b: string)
    ensures ToLower(a + b) == ToLower(a) + ToLower(b)
  {
    assert forall i :: 0 <= i < |a + b| ==> ToLower(a + b)[i] == (ToLower(a) + ToLower(b))[i];
  }

  /** `char.IsWhiteSpace`: the Unicode space, line and paragraph separators
      and the controls U+0009 to U+000D and U+0085. */
  predicate IsWhiteSpace(c: char)
  {
    || c == ' ' || ('\t' <= c <= '\r') || c == '\U{85}' || c == '\U{A0}'
    || c == '\U{1680}' || ('\U{2000}' <= c <= '\U{200A}') || c == '\U{2028}' || c == '\U{2029}'
    || c == '\U{202F}' || c == '\U{205F}' || c == '\U{3000}'
  }

  /** `string.IsNullOrWhiteSpace`, with `None` for a null string. */
  predicate IsNullOrWhiteSpace(s: Option<string>)
  {
    s.None? || forall i :: 0 <= i < |s.value| ==> IsWhiteSpace(s.value[i])
  }

  // ---------------------------------------------------------------------------
  // Decimal formatting of integers, as string concatenation prints an `int`.

  predicate IsDigit(c: char)
  {
    '0' <= c <= '9'
  }

  function DigitChar(d: nat): (c: char)
    requires d < 10
    ensures IsDigit(c) && c as int - '0' as int == d
  {
    (d + '0' as int) as char
  }

  /** The decimal digits of `n`, most significant first, with no leading zero. */
  function NatToString(n: nat): (r: string)
    ensures 0 < |r| && forall i :: 0 <= i < |r| ==> IsDigit(r[i])
    ensures n >= 10 <==> |r| >= 2
    decreases n
  {
    if n < 10 then [DigitChar(n)] else NatToString(n / 10) + [DigitChar(n % 10)]
  }

  /** `int.ToString()`: a minus sign before the digits of a negative number. */
  function IntToString(i: int): (r: string)
    ensures 0 < |r| && (r[0] == '-' <==> i < 0)
    ensures forall k :: 0 <= k < |r| ==> IsDigit(r[k]) || (k == 0 && r[k] == '-')
  {
    if i < 0 then "-" + NatToString(-i) else NatToString(i)
  }

  /** Distinct numbers print differently. */
  lemma {:induction false} NatToStringInjective(n: nat, m: nat)
    requires NatToString(n) == NatToString(m)
    ensures n == m
    decreases n
  {
    var r := NatToString(n);
    if n >= 10 {
      assert NatToString(n / 10) == r[..|r| - 1] == NatToString(m / 10);
      NatToStringInjective(n / 10, m / 10);
      assert DigitChar(n % 10) == r[|r| - 1] == DigitChar(m % 10);
    } else {
      assert DigitChar(n) == r[0] == DigitChar(m);
    }
  }

  lemma IntToStringInjective(i: int, j: int)
    requires IntToString(i) == IntToString(j)
    ensures i == j
  {
    var r := IntToString(i);
    if i < 0 {
      assert NatToString(-i) == r[1..] == NatToString(-j);
      NatToStringInjective(-i, -j);
    } else {
      NatToStringInjective(i, j);
    }
  }
}
