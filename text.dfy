/** ASCII string helpers standing in for the JavaScript string methods the quiz
    uses: toLowerCase/toUpperCase, includes, startsWith/endsWith, the
    one-occurrence regular expression, replace with a string pattern, join and
    the decimal rendering of a number. */
module Text {

  predicate IsUpper(c: char) { 'A' <= c <= 'Z' }
  predicate IsLower(c: char) { 'a' <= c <= 'z' }
  predicate IsDigit(c: char) { '0' <= c <= '9' }

  /** toLowerCase on one character, restricted to ASCII letters. */
  function LowerChar(c: char): (r: char)
    ensures !IsUpper(r)
    ensures IsUpper(c) ==> IsLower(r) && r as int == c as int + 32
    ensures !IsUpper(c) ==> r == c
  {
    if IsUpper(c) then (c as int + 32) as char else c
  }

  /** toUpperCase on one character, restricted to ASCII letters. */
  function UpperChar(c: char): (r: char)
    ensures !IsLower(r)
    ensures IsLower(c) ==> IsUpper(r) && r as int == c as int - 32
    ensures !IsLower(c) ==> r == c
  {
    if IsLower(c) then (c as int - 32) as char else c
  }

  function Lower(s: string): (r: string)
    ensures |r| == |s|
    ensures forall i :: 0 <= i < |s| ==> r[i] == LowerChar(s[i])
  {
    seq(|s|, i requires 0 <= i < |s| => LowerChar(s[i]))
  }

  function Upper(s: string): (r: string)
    ensures |r| == |s|
    ensures forall i :: 0 <= i < |s| ==> r[i] == UpperChar(s[i])
  {
    seq(|s|, i requires 0 <= i < |s| => UpperChar(s[i]))
  }

  predicate StartsWith(s: string, p: string) { |p| <= |s| && s[..|p|] == p }
  predicate EndsWith(s: string, p: string) { |p| <= |s| && s[|s| - |p|..] == p }

  /** Number of occurrences of `c` in `s`. */
  function Count(s: string, c: char): (n: nat)
    ensures n <= |s|
  {
    if s == [] then 0 else (if s[0] == c then 1 else 0) + Count(s[1..], c)
  }

  /** The shape accepted by the regular expression `^([^v]*)(v)([^v]*$)`:
      a prefix without `v`, one `v`, and a suffix without `v`. */
  predicate SingleOccurrence(s: string, v: char)
  {
    exists k :: 0 <= k < |s| && s[k] == v && v !in s[..k] && v !in s[k + 1..]
  }

  lemma {:induction false} CountConcat(a: string, b: string, c: char)
    ensures Count(a + b, c) == Count(a, c) + Count(b, c)
  {
    if a == [] {
      assert a + b == b;
    } else {
      assert (a + b)[1..] == a[1..] + b;
      CountConcat(a[1..], b, c);
    }
  }

  lemma {:induction false} CountZeroIffAbsent(s: string, c: char)
    ensures Count(s, c) == 0 <==> c !in s
  {
    if s != [] {
      CountZeroIffAbsent(s[1..], c);
      assert s == [s[0]] + s[1..];
    }
  }

  lemma SingleOccurrenceHasCountOne(s: string, v: char)
    requires SingleOccurrence(s, v)
    ensures Count(s, v) == 1
  {
    var k :| 0 <= k < |s| && s[k] == v && v !in s[..k] && v !in s[k + 1..];
    assert s == s[..k] + ([v] + s[k + 1..]);
    CountConcat(s[..k], [v] + s[k + 1..], v);
    CountConcat([v], s[k + 1..], v);
    CountZeroIffAbsent(s[..k], v);
    CountZeroIffAbsent(s[k + 1..], v);
  }

  lemma {:induction false} CountOneIsSingleOccurrence(s: string, v: char)
    requires Count(s, v) == 1
    ensures SingleOccurrence(s, v)
  {
    if s[0] == v {
      CountZeroIffAbsent(s[1..], v);
      assert s[..0] == [];
      assert s[0] == v && v !in s[..0] && v !in s[1..];
    } else {
      var t := s[1..];
      CountOneIsSingleOccurrence(t, v);
      var k :| 0 <= k < |t| && t[k] == v && v !in t[..k] && v !in t[k + 1..];
      assert s[..k + 1] == [s[0]] + t[..k];
      assert s[k + 2..] == t[k + 1..];
      assert s[k + 1] == v && v !in s[..k + 1] && v !in s[k + 2..];
    }
  }

  /** The one-occurrence regular expression accepts exactly the strings in
      which the vowel occurs once. */
  lemma SingleOccurrenceIffCountOne(s: string, v: char)
    ensures SingleOccurrence(s, v) <==> Count(s, v) == 1
  {
    if SingleOccurrence(s, v) { SingleOccurrenceHasCountOne(s, v); }
    if Count(s, v) == 1 { CountOneIsSingleOccurrence(s, v); }
  }

  /** Position of the first occurrence of `c` in `s`. */
  function IndexOf(s: string, c: char): (i: nat)
    requires c in s
    ensures i < |s| && s[i] == c && c !in s[..i]
  {
    if s[0] == c then 0
    else
      assert s == [s[0]] + s[1..];
      IndexOf(s[1..], c) + 1
  }

  /** String.prototype.replace with a one-character string pattern and a
      replacement string free of `$` patterns: only the first occurrence is
      replaced. */
  function ReplaceFirst(s: string, pat: char, rep: string): string
  {
    if s == [] then []
    else if s[0] == pat then rep + s[1..]
    else [s[0]] + ReplaceFirst(s[1..], pat, rep)
  }

  /** Without the pattern the string is unchanged; otherwise its first
      occurrence, and only that one, gives way to the replacement. */
  lemma ReplaceFirstSpec(s: string, pat: char, rep: string)
    ensures pat !in s ==> ReplaceFirst(s, pat, rep) == s
    ensures pat in s ==> ReplaceFirst(s, pat, rep) == s[..IndexOf(s, pat)] + rep + s[IndexOf(s, pat) + 1..]
  {
    if pat in s {
      ReplaceFirstAtIndex(s, pat, rep);
    } else {
      ReplaceFirstAbsent(s, pat, rep);
    }
  }

  lemma {:induction false} ReplaceFirstAbsent(s: string, pat: char, rep: string)
    requires pat !in s
    ensures ReplaceFirst(s, pat, rep) == s
  {
    if s != [] {
      assert s == [s[0]] + s[1..];
      ReplaceFirstAbsent(s[1..], pat, rep);
    }
  }

  lemma {:induction false} ReplaceFirstAtIndex(s: string, pat: char, rep: string)
    requires pat in s
    ensures ReplaceFirst(s, pat, rep) == s[..IndexOf(s, pat)] + rep + s[IndexOf(s, pat) + 1..]
  {
    if s[0] != pat {
      assert s == [s[0]] + s[1..];
      assert pat in s[1..];
      ReplaceFirstAtIndex(s[1..], pat, rep);
      var i := IndexOf(s[1..], pat);
      assert IndexOf(s, pat) == i + 1;
      assert s[..i + 1] == [s[0]] + s[1..][..i];
      assert s[i + 2..] == s[1..][i + 1..];
    }
  }

  /** A leading occurrence is the first one. */
  lemma ReplaceFirstAtHead(pat: char, s: string, rep: string)
    ensures ReplaceFirst([pat] + s, pat, rep) == rep + s
  {
    assert ([pat] + s)[1..] == s;
  }

  /** Replacing inside `a + b` when `a` does not hold the pattern only touches `b`. */
  lemma {:induction false} ReplaceFirstAfter(a: string, b: string, pat: char, rep: string)
    requires pat !in a
    ensures ReplaceFirst(a + b, pat, rep) == a + ReplaceFirst(b, pat, rep)
  {
    if a == [] {
      assert a + b == b;
    } else {
      var ab := a + b;
      assert ab[0] == a[0] != pat;
      assert ab[1..] == a[1..] + b;
      ReplaceFirstAfter(a[1..], b, pat, rep);
      assert ReplaceFirst(ab, pat, rep) == [a[0]] + ReplaceFirst(ab[1..], pat, rep);
      assert [a[0]] + (a[1..] + ReplaceFirst(b, pat, rep)) == a + ReplaceFirst(b, pat, rep);
    }
  }

  function DigitChar(d: nat): (c: char)
    requires d < 10
    ensures IsDigit(c)
  {
    ('0' as int + d) as char
  }

  /** Number.prototype.toString for a non-negative integer. */
  function Decimal(n: nat): (r: string)
    ensures |r| >= 1
    ensures n > 0 ==> r[0] != '0'
    ensures forall i :: 0 <= i < |r| ==> IsDigit(r[i])
  {
    if n < 10 then [DigitChar(n)] else Decimal(n / 10) + [DigitChar(n % 10)]
  }

  /** Reads a decimal numeral; the inverse of Decimal. */
  function ParseDecimal(s: string): nat
  {
    if s == [] then 0
    else
      var c := s[|s| - 1];
      ParseDecimal(s[..|s| - 1]) * 10 + (if IsDigit(c) then c as int - '0' as int else 0)
  }

  lemma {:induction false} DecimalRoundTrip(n: nat)
    ensures ParseDecimal(Decimal(n)) == n
  {
    var r := Decimal(n);
    if n < 10 {
      assert r[..0] == [];
    } else {
      assert r[..|r| - 1] == Decimal(n / 10);
      DecimalRoundTrip(n / 10);
    }
  }

  lemma DecimalHasNoPlaceholder(n: nat, c: char)
    requires !IsDigit(c)
    ensures c !in Decimal(n)
  {
  }

  /** Array.prototype.join. */
  function Join(parts: seq<string>, sep: string): (r: string)
    ensures |parts| == 1 ==> r == parts[0]
  {
    if parts == [] then "" else if |parts| == 1 then parts[0] else parts[0] + sep + Join(parts[1..], sep)
  }

  /** Joining one more part appends the separator and that part. */
  lemma {:induction false} JoinSnoc(parts: seq<string>, p: string, sep: string)
    requires parts != []
    ensures Join(parts + [p], sep) == Join(parts, sep) + sep + p
  {
    if |parts| == 1 {
      assert (parts + [p])[1..] == [p];
    } else {
      assert (parts + [p])[1..] == parts[1..] + [p];
      JoinSnoc(parts[1..], p, sep);
    }
  }

  /** String.prototype.slice(0, -1). */
  function DropLast(s: string): (r: string)
    ensures |s| > 0 ==> |r| == |s| - 1 && s == r + [s[|s| - 1]]
    ensures |s| == 0 ==> r == ""
  {
    if |s| == 0 then "" else s[..|s| - 1]
  }
}
