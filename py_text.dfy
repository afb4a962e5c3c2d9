/** The three pieces of Python `str` behaviour the scraper relies on: `str.strip()` with no
    argument, `str.replace('\n', '')`, and `str(n)` / `"{}".format(n)` of a non-negative int. */
module PyText {

  /** Python's `str.isspace` for one character: the code points whose bidirectional class is
      WS, B or S, or whose general category is Zs. These are what `strip()` removes. */
  predicate IsSpace(c: char) {
    var n := c as int;
    n == 0x20 || 0x09 <= n <= 0x0D || 0x1C <= n <= 0x1F || n == 0x85 || n == 0xA0 ||
    n == 0x1680 || 0x2000 <= n <= 0x200A || n == 0x2028 || n == 0x2029 || n == 0x202F ||
    n == 0x205F || n == 0x3000
  }

  predicate AllSpace(s: string) {
    forall k :: 0 <= k < |s| ==> IsSpace(s[k])
  }

  /** Neither the first nor the last character of `s` is whitespace. */
  predicate IsTrimmed(s: string) {
    s == [] || (!IsSpace(s[0]) && !IsSpace(s[|s| - 1]))
  }

  /** How many characters `lstrip()` removes: the longest all-whitespace prefix. */
  function LeadingSpaces(s: string): (n: nat)
    ensures n <= |s| && AllSpace(s[..n])
    ensures n < |s| ==> !IsSpace(s[n])
  {
    if s != [] && IsSpace(s[0]) then
      var m := LeadingSpaces(s[1..]);
      assert s[..m + 1] == [s[0]] + s[1..][..m];
      1 + m
    else 0
  }

  /** How many characters `rstrip()` removes: the longest all-whitespace suffix. */
  function TrailingSpaces(s: string): (n: nat)
    ensures n <= |s| && AllSpace(s[|s| - n..])
    ensures n < |s| ==> !IsSpace(s[|s| - n - 1])
  {
    if s != [] && IsSpace(s[|s| - 1]) then
      var p := s[..|s| - 1];
      var m := TrailingSpaces(p);
      assert s[|s| - (m + 1)..] == p[|p| - m..] + [s[|s| - 1]];
      1 + m
    else 0
  }

  /** `s.lstrip()`: drop whitespace from the front while there is some. */
  function StripLeft(s: string): string {
    if s != [] && IsSpace(s[0]) then StripLeft(s[1..]) else s
  }

  /** `s.rstrip()`: drop whitespace from the back while there is some. */
  function StripRight(s: string): string {
    if s != [] && IsSpace(s[|s| - 1]) then StripRight(s[..|s| - 1]) else s
  }

  /** `s.strip()`: `s` without its leading and trailing whitespace. */
  function Strip(s: string): string {
    StripRight(StripLeft(s))
  }

  /** `lstrip()` removes exactly the longest all-whitespace prefix. */
  lemma {:induction false} StripLeftDrops(s: string)
    ensures StripLeft(s) == s[LeadingSpaces(s)..]
  {
    if s != [] && IsSpace(s[0]) {
      StripLeftDrops(s[1..]);
    }
  }

  /** `rstrip()` removes exactly the longest all-whitespace suffix. */
  lemma {:induction false} StripRightDrops(s: string)
    ensures StripRight(s) == s[..|s| - TrailingSpaces(s)]
  {
    if s != [] && IsSpace(s[|s| - 1]) {
      StripRightDrops(s[..|s| - 1]);
    }
  }

  /** `strip()` cuts the longest all-whitespace prefix, then the longest all-whitespace suffix
      of what is left. */
  lemma StripCuts(s: string)
    ensures var t := s[LeadingSpaces(s)..];
            Strip(s) == t[..|t| - TrailingSpaces(t)]
  {
    StripLeftDrops(s);
    StripRightDrops(s[LeadingSpaces(s)..]);
  }

  /** The result of `strip()` is trimmed, and it is an infix of `s` cut out between two
      all-whitespace ends. */
  lemma StripSpec(s: string)
    ensures IsTrimmed(Strip(s))
    ensures exists i, j :: 0 <= i <= j <= |s| && Strip(s) == s[i..j] && AllSpace(s[..i]) && AllSpace(s[j..])
  {
    StripCuts(s);
    var i := LeadingSpaces(s);
    var t := s[i..];
    var j := i + |t| - TrailingSpaces(t);
    assert s[j..] == t[|t| - TrailingSpaces(t)..];
    assert Strip(s) == s[i..j];
  }

  /** `s.replace('\n', '')`: `s` with every newline character deleted. */
  function RemoveNewlines(s: string): (r: string)
    ensures '\n' !in r
    ensures '\n' !in s ==> r == s
  {
    if s == [] then []
    else
      var rest := RemoveNewlines(s[1..]);
      assert s == [s[0]] + s[1..];
      if s[0] == '\n' then rest else [s[0]] + rest
  }

  /** Every character other than a newline keeps its number of occurrences. */
  lemma {:induction false} RemoveNewlinesCounts(s: string)
    ensures multiset(RemoveNewlines(s)) == multiset(s)['\n' := 0]
  {
    if s != [] {
      RemoveNewlinesCounts(s[1..]);
      assert s == [s[0]] + s[1..];
    }
  }

  /** `text.strip().replace('\n', '')`, the normalisation every present field goes through. */
  function Normalise(s: string): string {
    RemoveNewlines(Strip(s))
  }

  lemma {:induction false} RemoveNewlinesConcat(a: string, b: string)
    ensures RemoveNewlines(a + b) == RemoveNewlines(a) + RemoveNewlines(b)
  {
    if a != [] {
      assert (a + b)[1..] == a[1..] + b;
      RemoveNewlinesConcat(a[1..], b);
    } else {
      assert a + b == b;
    }
  }

  /** Deleting newlines never removes a first or last character that is not a newline, so a
      trimmed string stays trimmed. */
  lemma RemoveNewlinesKeepsTrimmed(s: string)
    requires IsTrimmed(s)
    ensures IsTrimmed(RemoveNewlines(s))
  {
    if s != [] {
      assert IsSpace('\n');
      var n := |s|;
      if n == 1 {
        assert RemoveNewlines(s) == s;
      } else {
        assert s == [s[0]] + s[1..n - 1] + [s[n - 1]];
        RemoveNewlinesConcat([s[0]] + s[1..n - 1], [s[n - 1]]);
        RemoveNewlinesConcat([s[0]], s[1..n - 1]);
        assert RemoveNewlines([s[0]]) == [s[0]];
        assert RemoveNewlines([s[n - 1]]) == [s[n - 1]];
      }
    }
  }

  /** A normalised field text holds no newline and has no leading or trailing whitespace. */
  lemma NormaliseIsClean(s: string)
    ensures '\n' !in Normalise(s) && IsTrimmed(Normalise(s))
  {
    StripSpec(s);
    RemoveNewlinesKeepsTrimmed(Strip(s));
  }

  /** `strip()` leaves an already trimmed string as it is. */
  lemma StripTrimmed(s: string)
    requires IsTrimmed(s)
    ensures Strip(s) == s
  {
  }

  /** Text that is already trimmed and free of newlines is its own normal form. */
  lemma NormaliseClean(s: string)
    requires IsTrimmed(s) && '\n' !in s
    ensures Normalise(s) == s
  {
    StripTrimmed(s);
  }

  /** Normalising twice is the same as normalising once. */
  lemma NormaliseIdempotent(s: string)
    ensures Normalise(Normalise(s)) == Normalise(s)
  {
    NormaliseIsClean(s);
    NormaliseClean(Normalise(s));
  }

  /** A prefix of `i` whitespace characters followed by a non-space (or the end) is exactly
      what `LeadingSpaces` counts. */
  lemma {:induction false} LeadingSpacesIs(s: string, i: nat)
    requires i <= |s| && AllSpace(s[..i]) && (i < |s| ==> !IsSpace(s[i]))
    ensures LeadingSpaces(s) == i
  {
    if i > 0 {
      assert s[..i][0] == s[0];
      assert s[1..][..i - 1] == s[..i][1..];
      LeadingSpacesIs(s[1..], i - 1);
    }
  }

  /** A suffix of `n` whitespace characters preceded by a non-space (or the start) is exactly
      what `TrailingSpaces` counts. */
  lemma {:induction false} TrailingSpacesIs(s: string, n: nat)
    requires n <= |s| && AllSpace(s[|s| - n..]) && (n < |s| ==> !IsSpace(s[|s| - n - 1]))
    ensures TrailingSpaces(s) == n
  {
    if n > 0 {
      var p := s[..|s| - 1];
      assert s[|s| - n..][n - 1] == s[|s| - 1];
      assert p[|p| - (n - 1)..] == s[|s| - n..][..n - 1];
      TrailingSpacesIs(p, n - 1);
    }
  }

  lemma StripInner(s: string, i: nat, j: nat)
    requires i < j <= |s| && AllSpace(s[..i]) && AllSpace(s[j..]) && IsTrimmed(s[i..j])
    ensures Strip(s) == s[i..j]
  {
    StripCuts(s);
    // s[i] is the first non-space character, s[j - 1] the last.
    assert s[i..j][0] == s[i];
    LeadingSpacesIs(s, i);
    var t := s[i..];
    var n := |s| - j;
    assert t[|t| - n..] == s[j..];
    assert t[|t| - n - 1] == s[i..j][j - i - 1];
    TrailingSpacesIs(t, n);
    assert t[..|t| - n] == s[i..j];
  }

  lemma StripBlank(s: string)
    requires AllSpace(s)
    ensures Strip(s) == []
  {
    StripCuts(s);
    assert s[..|s|] == s;
    LeadingSpacesIs(s, |s|);
  }

  /** `strip()` is the only way of cutting whitespace off both ends that leaves a trimmed
      string: any such cut gives exactly `Strip(s)`. */
  lemma StripUnique(s: string, i: nat, j: nat)
    requires i <= j <= |s| && AllSpace(s[..i]) && AllSpace(s[j..]) && IsTrimmed(s[i..j])
    ensures Strip(s) == s[i..j]
  {
    if i < j {
      StripInner(s, i, j);
    } else {
      // Everything in s is whitespace, so both cuts are empty.
      forall k | 0 <= k < |s| ensures IsSpace(s[k]) {
        if k < i { assert s[..i][k] == s[k]; } else { assert s[j..][k - j] == s[k]; }
      }
      StripBlank(s);
    }
  }

  /** Whitespace padding around a clean text, newlines included, is all that normalising
      removes. */
  lemma NormalisePadded(pre: string, core: string, post: string)
    requires AllSpace(pre) && AllSpace(post) && IsTrimmed(core) && '\n' !in core
    ensures Normalise(pre + core + post) == core
  {
    var s := pre + core + post;
    assert s[..|pre|] == pre;
    assert s[|pre| + |core|..] == post;
    assert s[|pre|..|pre| + |core|] == core;
    StripUnique(s, |pre|, |pre| + |core|);
  }

  function DigitChar(d: nat): char
    requires d < 10
  {
    "0123456789"[d]
  }

  predicate IsDigit(c: char) {
    '0' <= c <= '9'
  }

  /** `str(n)` for a non-negative int: its decimal digits, without leading zeros. */
  function DecimalString(n: nat): (s: string)
    ensures |s| >= 1 && (forall k :: 0 <= k < |s| ==> IsDigit(s[k]))
    ensures s[0] == '0' ==> n == 0
    decreases n
  {
    if n < 10 then [DigitChar(n)] else DecimalString(n / 10) + [DigitChar(n % 10)]
  }

  /** Reading a string of decimal digits back as a number (Python's `int(s)`), the inverse
      of `DecimalString`. */
  function ParseDecimal(s: string): nat
    requires forall k :: 0 <= k < |s| ==> IsDigit(s[k])
  {
    if s == [] then 0
    else
      assert IsDigit(s[|s| - 1]);
      ParseDecimal(s[..|s| - 1]) * 10 + (s[|s| - 1] as int - '0' as int)
  }

  lemma {:induction false} DecimalRoundTrip(n: nat)
    ensures ParseDecimal(DecimalString(n)) == n
    decreases n
  {
    var s := DecimalString(n);
    if n >= 10 {
      DecimalRoundTrip(n / 10);
      assert s[..|s| - 1] == DecimalString(n / 10);
    }
  }

  /** Different offsets are written as different strings. */
  lemma DecimalStringInjective(m: nat, n: nat)
    requires DecimalString(m) == DecimalString(n)
    ensures m == n
  {
    DecimalRoundTrip(m);
    DecimalRoundTrip(n);
  }
}
