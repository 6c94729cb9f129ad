/** Character classes and string operations of Ruby's core library that the
    Curly front end relies on: the regex classes `\s` and `\w`, `String#strip`,
    `String#count`, `String#gsub` with a literal pattern, `Array#join` and the
    decimal rendering of an integer in string interpolation. */
module Strings {

  /** Ruby's `\s`: space, tab, line feed, vertical tab, form feed, carriage return. */
  predicate IsSpace(c: char)
  {
    c == ' ' || c == '\t' || c == '\n' || c as int == 11 || c as int == 12 || c == '\r'
  }

  /** Ruby's `\w` (ASCII): letters, digits and the underscore. */
  predicate IsWordChar(c: char)
  {
    ('a' <= c <= 'z') || ('A' <= c <= 'Z') || ('0' <= c <= '9') || c == '_'
  }

  /** Every character is white space. */
  predicate AllSpace(s: string)
  {
    forall k :: 0 <= k < |s| ==> IsSpace(s[k])
  }

  /** No character is white space. */
  predicate NoSpace(s: string)
  {
    forall k :: 0 <= k < |s| ==> !IsSpace(s[k])
  }

  predicate NotSpace(c: char)
  {
    !IsSpace(c)
  }

  /** The characters `String#strip` removes: `\s` and the null character. */
  predicate IsStripSpace(c: char)
  {
    IsSpace(c) || c as int == 0
  }

  predicate IsDigit(c: char)
  {
    '0' <= c <= '9'
  }

  /** `s[i..]` starts with `pat`. */
  predicate StartsAt(s: string, i: nat, pat: string)
  {
    i + |pat| <= |s| && s[i..i + |pat|] == pat
  }

  /** A match inside a slice is a match in the whole string. */
  lemma StartsAtSlice(s: string, a: nat, b: nat, k: nat, pat: string)
    requires a <= b <= |s|
    ensures StartsAt(s[a..b], k, pat) <==> a + k + |pat| <= b && StartsAt(s, a + k, pat)
  {
    if a + k + |pat| <= b {
      var x, y := s[a..b][k..k + |pat|], s[a + k..a + k + |pat|];
      forall i | 0 <= i < |pat| ensures x[i] == y[i] {
        assert s[a..b][k + i] == s[a + k + i];
      }
      assert x == y;
    }
  }

  /** `pat` occurs nowhere in `s`. */
  predicate Free(s: string, pat: string)
  {
    forall i :: 0 <= i <= |s| ==> !StartsAt(s, i, pat)
  }

  /** Length of the longest run of characters satisfying `p` that starts at
      `s[i]`: what a greedy `p+` or `p*` consumes at position `i`. */
  function Span(s: string, i: nat, p: char -> bool): (n: nat)
    requires i <= |s|
    ensures i + n <= |s|
    decreases |s| - i
  {
    if i == |s| || !p(s[i]) then 0 else 1 + Span(s, i + 1, p)
  }

  /** The run `Span` measures stops at the end or at a character outside the
      class. */
  lemma {:induction false} SpanStop(s: string, i: nat, p: char -> bool)
    requires i <= |s|
    ensures i + Span(s, i, p) == |s| || !p(s[i + Span(s, i, p)])
    decreases |s| - i
  {
    if i < |s| && p(s[i]) {
      SpanStop(s, i + 1, p);
    }
  }

  /** Every character `Span` counts is in the class. */
  lemma {:induction false} SpanRun(s: string, i: nat, p: char -> bool)
    requires i <= |s|
    ensures forall k :: i <= k < i + Span(s, i, p) ==> p(s[k])
    decreases |s| - i
  {
    if i < |s| && p(s[i]) {
      SpanRun(s, i + 1, p);
    }
  }

  /** A run that is followed by a character outside the class, or by the end,
      is the one `Span` measures. */
  lemma {:induction false} SpanUnique(s: string, i: nat, p: char -> bool, n: nat)
    requires i + n <= |s|
    requires forall k :: i <= k < i + n ==> p(s[k])
    requires i + n == |s| || !p(s[i + n])
    ensures Span(s, i, p) == n
    decreases n
  {
    if n > 0 {
      SpanUnique(s, i + 1, p, n - 1);
    }
  }

  /** Concatenation regrouped, stated on plain strings so that callers need
      not reason about the parts. */
  lemma Assoc(a: string, b: string, c: string)
    ensures a + b + c == a + (b + c)
  {
  }

  /** `String#count` for a single character. */
  function CountChar(s: string, c: char): (n: nat)
    ensures n <= |s|
    ensures n == 0 <==> forall k :: 0 <= k < |s| ==> s[k] != c
  {
    if s == [] then 0 else (if s[0] == c then 1 else 0) + CountChar(s[1..], c)
  }

  lemma {:induction false} CountCharAppend(a: string, b: string, c: char)
    ensures CountChar(a + b, c) == CountChar(a, c) + CountChar(b, c)
  {
    if a != [] {
      assert (a + b)[1..] == a[1..] + b;
      CountCharAppend(a[1..], b, c);
    } else {
      assert a + b == b;
    }
  }

  /** Number of characters `String#lstrip` removes. */
  function LeadingSpace(s: string): (n: nat)
    ensures n <= |s|
    ensures forall k :: 0 <= k < n ==> IsStripSpace(s[k])
    ensures n == |s| || !IsStripSpace(s[n])
  {
    SpanRun(s, 0, IsStripSpace);
    SpanStop(s, 0, IsStripSpace);
    Span(s, 0, IsStripSpace)
  }

  /** Number of characters `String#rstrip` removes. */
  function TrailingSpace(s: string): (n: nat)
    ensures n <= |s|
    ensures forall k :: |s| - n <= k < |s| ==> IsStripSpace(s[k])
    ensures n == |s| || !IsStripSpace(s[|s| - n - 1])
  {
    if s == [] || !IsStripSpace(s[|s| - 1]) then 0 else 1 + TrailingSpace(s[..|s| - 1])
  }

  /** `String#strip`: the middle part of `s`, without leading and trailing
      white space. */
  function Strip(s: string): (r: string)
    ensures |r| <= |s|
    ensures r == [] || (!IsStripSpace(r[0]) && !IsStripSpace(r[|r| - 1]))
    ensures LeadingSpace(s) + |r| <= |s| && r == s[LeadingSpace(s)..LeadingSpace(s) + |r|]
    ensures forall k :: LeadingSpace(s) + |r| <= k < |s| ==> IsStripSpace(s[k])
  {
    var a := LeadingSpace(s);
    var t := s[a..];
    var b := TrailingSpace(t);
    assert t[..|t| - b] == s[a..a + (|t| - b)];
    t[..|t| - b]
  }

  /** `Array#join(sep)`. */
  function Join(parts: seq<string>, sep: string): (r: string)
    ensures parts == [] ==> r == []
    ensures |parts| == 1 ==> r == parts[0]
  {
    if parts == [] then []
    else if |parts| == 1 then parts[0]
    else parts[0] + sep + Join(parts[1..], sep)
  }

  /** `String#gsub` with a literal, non-empty pattern: every leftmost
      non-overlapping occurrence of `pat` is replaced by `rep`. */
  function ReplaceAll(s: string, pat: string, rep: string): (r: string)
    requires pat != []
    ensures Free(s, pat) ==> r == s
    decreases |s|
  {
    if |s| < |pat| then s
    else if s[..|pat|] == pat then
      assert StartsAt(s, 0, pat);
      rep + ReplaceAll(s[|pat|..], pat, rep)
    else
      assert Free(s, pat) ==> Free(s[1..], pat) by {
        if Free(s, pat) {
          forall i | 0 <= i <= |s[1..]| ensures !StartsAt(s[1..], i, pat) {
            assert !StartsAt(s, i + 1, pat);
          }
        }
      }
      [s[0]] + ReplaceAll(s[1..], pat, rep)
  }

  /** Decimal rendering of a natural number, as string interpolation prints
      an Integer. */
  function NatToString(n: nat): (r: string)
    ensures |r| >= 1
    ensures forall k :: 0 <= k < |r| ==> IsDigit(r[k])
    ensures n < 10 ==> r == [('0' as int + n) as char]
  {
    if n < 10 then [('0' as int + n) as char]
    else NatToString(n / 10) + [('0' as int + n % 10) as char]
  }
}
