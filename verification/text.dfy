/** Character classes, decimal conversion, Python string operations
    (`replace`, `strip`, `split(..)[-1]`, `lower`, `int()`) and the search
    combinators the hand-written reply matchers are built from. Strings are
    Python 2 byte strings, modelled as `seq<char>` over ASCII. */
module Text {
  import opened Wrappers

  // ---------------------------------------------------------------------
  // Character classes (Python 2 `re` without the UNICODE flag)
  // ---------------------------------------------------------------------

  /** `\s`: space, tab, newline, carriage return, form feed, vertical tab. */
  predicate IsSpace(c: char) {
    c == ' ' || c == '\t' || c == '\n' || c == '\r' || c == '\U{000C}' || c == '\U{000B}'
  }

  predicate IsDigit(c: char) {
    '0' <= c <= '9'
  }

  predicate IsUpper(c: char) {
    'A' <= c <= 'Z'
  }

  predicate IsLower(c: char) {
    'a' <= c <= 'z'
  }

  predicate IsLetter(c: char) {
    IsUpper(c) || IsLower(c)
  }

  /** `[A-Za-z0-9]` */
  predicate IsAlnum(c: char) {
    IsLetter(c) || IsDigit(c)
  }

  /** `\w`: letters, digits and underscore. */
  predicate IsWordChar(c: char) {
    IsAlnum(c) || c == '_'
  }

  predicate AllDigits(s: string) {
    forall i :: 0 <= i < |s| ==> IsDigit(s[i])
  }

  predicate NotSpace(c: char) {
    !IsSpace(c)
  }

  predicate NoSpace(s: string) {
    forall i :: 0 <= i < |s| ==> !IsSpace(s[i])
  }

  // ---------------------------------------------------------------------
  // Decimal numbers
  // ---------------------------------------------------------------------

  function DigitChar(d: nat): (c: char)
    requires d < 10
    ensures IsDigit(c)
  {
    ('0' as int + d) as char
  }

  function DigitOf(c: char): (d: nat)
    requires IsDigit(c)
    ensures d < 10
  {
    c as int - '0' as int
  }

  /** The value of a run of decimal digits, as Python's `int()` reads it. */
  function DigitsValue(s: string): nat
    requires AllDigits(s)
    decreases |s|
  {
    if |s| == 0 then 0 else DigitsValue(s[..|s| - 1]) * 10 + DigitOf(s[|s| - 1])
  }

  /** `str(n)` / `'%d' % n` for a natural number: the shortest decimal
      spelling, so only "0" itself starts with '0'. */
  function NatToString(n: nat): (r: string)
    ensures |r| >= 1 && AllDigits(r)
    ensures r[0] == '0' ==> n == 0
    decreases n
  {
    if n < 10 then [DigitChar(n)] else NatToString(n / 10) + [DigitChar(n % 10)]
  }

  /** `str(i)` for any integer. */
  function IntToString(i: int): (r: string)
    ensures |r| >= 1
    ensures i >= 0 ==> AllDigits(r)
    ensures i < 0 ==> r[0] == '-' && AllDigits(r[1..])
  {
    if i < 0 then "-" + NatToString(-i) else NatToString(i)
  }

  /** Reading back the decimal spelling gives the number again. */
  lemma {:induction false} NatToStringRoundTrip(n: nat)
    ensures DigitsValue(NatToString(n)) == n
    decreases n
  {
    if n >= 10 {
      var front := NatToString(n / 10);
      var s := front + [DigitChar(n % 10)];
      assert s[..|s| - 1] == front;
      NatToStringRoundTrip(n / 10);
    }
  }

  /** Distinct numbers have distinct spellings. */
  lemma NatToStringInjective(a: nat, b: nat)
    requires NatToString(a) == NatToString(b)
    ensures a == b
  {
    NatToStringRoundTrip(a);
    NatToStringRoundTrip(b);
  }

  /** Python's `min` and `max` of two numbers. */
  function Min(a: int, b: int): int { if a <= b then a else b }
  function Max(a: int, b: int): int { if a <= b then b else a }

  /** A longer number is never spelled shorter. */
  lemma {:induction false} NatToStringLonger(a: nat, b: nat)
    requires a <= b
    ensures |NatToString(a)| <= |NatToString(b)|
    decreases b
  {
    if a >= 10 {
      NatToStringLonger(a / 10, b / 10);
    }
  }

  /** Leading zeros do not change a digit run's value. */
  lemma {:induction false} LeadingZeros(z: string, d: string)
    requires forall k :: 0 <= k < |z| ==> z[k] == '0'
    requires AllDigits(d)
    ensures AllDigits(z + d) && DigitsValue(z + d) == DigitsValue(d)
    decreases |d|
  {
    var s := z + d;
    assert AllDigits(s) by {
      assert forall k :: 0 <= k < |s| ==> s[k] == (if k < |z| then z[k] else d[k - |z|]);
    }
    if |d| == 0 {
      assert s == z;
      ZerosValue(z);
    } else {
      assert s[..|s| - 1] == z + d[..|d| - 1];
      LeadingZeros(z, d[..|d| - 1]);
    }
  }

  lemma {:induction false} ZerosValue(z: string)
    requires forall k :: 0 <= k < |z| ==> z[k] == '0'
    ensures AllDigits(z) && DigitsValue(z) == 0
    decreases |z|
  {
    if |z| > 0 {
      ZerosValue(z[..|z| - 1]);
    }
  }

  /** Python 2 `int(s)` in base 10: optional surrounding whitespace, an
      optional sign and at least one decimal digit; anything else raises
      `ValueError`, modelled as `Err`. */
  function ParseInt(s: string): (r: Result<int, string>)
  {
    var t := Strip(s);
    if |t| > 0 && (t[0] == '-' || t[0] == '+') then
      var d := t[1..];
      if |d| > 0 && AllDigits(d) then
        var v: int := DigitsValue(d);
        Ok(if t[0] == '-' then -v else v)
      else Err("invalid literal for int() with base 10: '" + s + "'")
    else if |t| > 0 && AllDigits(t) then Ok(DigitsValue(t))
    else Err("invalid literal for int() with base 10: '" + s + "'")
  }

  /** `int(str(i)) == i`. */
  lemma ParseIntRoundTrip(i: int)
    ensures ParseInt(IntToString(i)) == Ok(i)
  {
    if i < 0 {
      NegativeNoSpace(NatToString(-i));
      StripNoSpace("-" + NatToString(-i));
      ParseIntNegative(-i);
    } else {
      DigitsNoSpace(NatToString(i));
      StripNoSpace(NatToString(i));
      ParseIntNatural(i);
    }
  }

  lemma DigitsNoSpace(d: string)
    requires AllDigits(d)
    ensures NoSpace(d)
  {
    assert forall k :: 0 <= k < |d| ==> IsDigit(d[k]);
  }

  lemma NegativeNoSpace(d: string)
    requires AllDigits(d)
    ensures NoSpace("-" + d)
  {
    var s := "-" + d;
    assert forall k :: 1 <= k < |s| ==> s[k] == d[k - 1];
    DigitsNoSpace(d);
  }

  lemma ParseIntNatural(n: nat)
    requires Strip(NatToString(n)) == NatToString(n)
    ensures ParseInt(NatToString(n)) == Ok(n as int)
  {
    var t := NatToString(n);
    assert t[0] != '-' && t[0] != '+';
    NatToStringRoundTrip(n);
  }

  lemma ParseIntNegative(n: nat)
    requires n > 0
    requires Strip("-" + NatToString(n)) == "-" + NatToString(n)
    ensures ParseInt("-" + NatToString(n)) == Ok(-(n as int))
  {
    var d := NatToString(n);
    var t := "-" + d;
    assert Strip(t) == t;
    assert t[0] == '-';
    assert t[1..] == d;
    assert |d| > 0 && AllDigits(d);
    NatToStringRoundTrip(n);
    var v: int := DigitsValue(d);
    assert v == n;
  }

  /** A string without whitespace is its own `strip()`. */
  lemma StripNoSpace(s: string)
    requires NoSpace(s)
    ensures Strip(s) == s
  {
    assert TrimLeft(s) == s;
    assert TrimRight(s) == s;
  }

  /** An indented word without whitespace strips to the word. */
  lemma StripIndented(indent: string, word: string)
    requires forall k :: 0 <= k < |indent| ==> IsSpace(indent[k])
    requires |word| > 0 && NoSpace(word)
    ensures Strip(indent + word) == word
  {
    var s := indent + word;
    assert s[|indent|] == word[0];
    assert forall k :: 0 <= k < |indent| ==> s[k] == indent[k];
    assert TrimLeft(s) == word;
    StripNoSpace(word);
  }

  // ---------------------------------------------------------------------
  // Python string methods
  // ---------------------------------------------------------------------

  /** `''.join(parts)` */
  function Concat(parts: seq<string>): string
  {
    if |parts| == 0 then "" else parts[0] + Concat(parts[1..])
  }

  lemma ConcatAppend(a: seq<string>, b: seq<string>)
    ensures Concat(a + b) == Concat(a) + Concat(b)
  {
    if |a| > 0 {
      assert (a + b)[1..] == a[1..] + b;
    } else {
      assert a + b == b;
    }
  }

  /** Joining one more part of a sequence appends that part. */
  lemma ConcatSnoc(parts: seq<string>, m: nat)
    requires m < |parts|
    ensures Concat(parts[..m + 1]) == Concat(parts[..m]) + parts[m]
  {
    assert parts[..m + 1] == parts[..m] + [parts[m]];
    ConcatAppend(parts[..m], [parts[m]]);
    assert Concat([parts[m]]) == parts[m] + Concat([]);
  }

  /** `s.lstrip()` */
  function TrimLeft(s: string): (r: string)
    ensures |r| <= |s| && r == s[|s| - |r|..]
    ensures forall k :: 0 <= k < |s| - |r| ==> IsSpace(s[k])
    ensures |r| > 0 ==> !IsSpace(r[0])
    decreases |s|
  {
    if |s| > 0 && IsSpace(s[0]) then TrimLeft(s[1..]) else s
  }

  /** `s.rstrip()` */
  function TrimRight(s: string): (r: string)
    ensures |r| <= |s| && r == s[..|r|]
    ensures forall k :: |r| <= k < |s| ==> IsSpace(s[k])
    ensures |r| > 0 ==> !IsSpace(r[|r| - 1])
    decreases |s|
  {
    if |s| > 0 && IsSpace(s[|s| - 1]) then TrimRight(s[..|s| - 1]) else s
  }

  /** `s.strip()` */
  function Strip(s: string): string
  {
    TrimRight(TrimLeft(s))
  }

  /** `s.lower()` on an ASCII string. */
  function ToLower(s: string): (r: string)
    ensures |r| == |s|
    ensures forall k :: 0 <= k < |s| ==> !IsUpper(r[k])
    ensures forall k :: 0 <= k < |s| && !IsUpper(s[k]) ==> r[k] == s[k]
  {
    seq(|s|, k requires 0 <= k < |s| => if IsUpper(s[k]) then (s[k] as int + 32) as char else s[k])
  }

  predicate StartsAt(s: string, i: int, pat: string) {
    0 <= i && i + |pat| <= |s| && s[i..i + |pat|] == pat
  }

  /** Before a pattern's own position, it is found in the whole text
      exactly where it is found in the prefix followed by the pattern. */
  lemma StartsBefore(pre: string, pat: string, tail: string, j: nat)
    requires j < |pre|
    ensures StartsAt(pre + pat + tail, j, pat) == StartsAt(pre + pat, j, pat)
  {
    var s := pre + pat + tail;
    assert forall q :: 0 <= q < |pre + pat| ==> s[q] == (pre + pat)[q];
    if j + |pat| <= |pre + pat| {
      assert s[j..j + |pat|] == (pre + pat)[j..j + |pat|];
    }
  }

  /** A stretch that spells `a + b` spells `a` and then `b`. */
  lemma SliceSplit(s: string, i: nat, a: string, b: string)
    requires i + |a| + |b| <= |s| && s[i..i + |a| + |b|] == a + b
    ensures s[i..i + |a|] == a && s[i + |a|..i + |a| + |b|] == b
  {
    var w := s[i..i + |a| + |b|];
    assert w[..|a|] == a && w[|a|..] == b;
    assert s[i..i + |a|] == w[..|a|];
    assert s[i + |a|..i + |a| + |b|] == w[|a|..];
  }

  /** Text cannot start at a character other than its first. */
  lemma NotStartsAt(s: string, i: nat, pat: string)
    requires |pat| > 0 && (i >= |s| || s[i] != pat[0])
    ensures !StartsAt(s, i, pat)
  {
    if i + |pat| <= |s| {
      assert s[i..i + |pat|][0] == s[i];
    }
  }

  /** `pat in s` */
  predicate Contains(s: string, pat: string) {
    exists i | 0 <= i <= |s| - |pat| :: StartsAt(s, i, pat)
  }

  /** Text found in a prefix is found in every extension of it. */
  lemma ContainsExtend(a: string, b: string, pat: string)
    requires Contains(a, pat)
    ensures Contains(a + b, pat)
  {
    var i :| 0 <= i <= |a| - |pat| && StartsAt(a, i, pat);
    assert (a + b)[i..i + |pat|] == a[i..i + |pat|];
    assert StartsAt(a + b, i, pat);
  }

  /** `s.replace(pat, rep)`: every non-overlapping occurrence, scanning
      left to right. */
  function Replace(s: string, pat: string, rep: string): string
    requires |pat| > 0
    decreases |s|
  {
    if |s| < |pat| then s
    else if s[..|pat|] == pat then rep + Replace(s[|pat|..], pat, rep)
    else [s[0]] + Replace(s[1..], pat, rep)
  }

  /** Text without the first character of the placeholder passes through
      `replace` unchanged. */
  lemma {:induction false} ReplaceSkip(a: string, b: string, pat: string, rep: string)
    requires |pat| > 0
    requires forall k :: 0 <= k < |a| ==> a[k] != pat[0]
    ensures Replace(a + b, pat, rep) == a + Replace(b, pat, rep)
    decreases |a|
  {
    if |a| > 0 {
      var s := a + b;
      assert s[1..] == a[1..] + b;
      ReplaceSkip(a[1..], b, pat, rep);
      if |s| < |pat| {
        ReplaceShort(b, pat, rep);
        ReplaceShort(a[1..] + b, pat, rep);
        assert Replace(s, pat, rep) == s;
      } else {
        assert s[0] == a[0];
        assert s[..|pat|][0] == a[0];
        assert s[..|pat|] != pat;
        calc {
          Replace(s, pat, rep);
          [a[0]] + Replace(a[1..] + b, pat, rep);
          [a[0]] + (a[1..] + Replace(b, pat, rep));
          { assert [a[0]] + a[1..] == a; }
          a + Replace(b, pat, rep);
        }
      }
    } else {
      assert a + b == b;
    }
  }

  lemma ReplaceShort(s: string, pat: string, rep: string)
    requires |pat| > 0 && |s| < |pat|
    ensures Replace(s, pat, rep) == s
  {
  }

  /** A placeholder at the front is replaced and scanning resumes after it. */
  lemma ReplaceHead(b: string, pat: string, rep: string)
    requires |pat| > 0
    ensures Replace(pat + b, pat, rep) == rep + Replace(b, pat, rep)
  {
    var s := pat + b;
    assert s[..|pat|] == pat;
    assert s[|pat|..] == b;
  }

  /** Text holding no character of the placeholder's first letter is left alone. */
  lemma ReplaceNone(a: string, pat: string, rep: string)
    requires |pat| > 0
    requires forall k :: 0 <= k < |a| ==> a[k] != pat[0]
    ensures Replace(a, pat, rep) == a
  {
    ReplaceSkip(a, "", pat, rep);
    assert a + "" == a;
  }

  /** `'/'.join`-style concatenation with a separator. */
  function Join(parts: seq<string>, sep: string): (r: string)
    ensures |parts| == 1 ==> r == parts[0]
    decreases |parts|
  {
    if |parts| == 0 then ""
    else if |parts| == 1 then parts[0]
    else parts[0] + sep + Join(parts[1..], sep)
  }

  /** The position of the first `sep` in `s`. */
  function FirstOf(s: string, sep: char): (i: nat)
    requires sep in s
    ensures i < |s| && s[i] == sep && sep !in s[..i]
    decreases |s|
  {
    if s[0] == sep then 0
    else
      var j := FirstOf(s[1..], sep);
      assert s[..j + 1] == [s[0]] + s[1..][..j];
      j + 1
  }

  /** `s.split(sep)` with a one-character separator: the pieces between
      separators, empty ones included. */
  function Split(s: string, sep: char): (r: seq<string>)
    ensures |r| >= 1
    ensures forall k :: 0 <= k < |r| ==> sep !in r[k]
    decreases |s|
  {
    if sep !in s then [s]
    else
      var i := FirstOf(s, sep);
      [s[..i]] + Split(s[i + 1..], sep)
  }

  /** Joining the pieces with the separator gives the text back. */
  lemma {:induction false} SplitJoin(s: string, sep: char)
    ensures Join(Split(s, sep), [sep]) == s
    decreases |s|
  {
    if sep in s {
      var i := FirstOf(s, sep);
      var rest := Split(s[i + 1..], sep);
      assert Split(s, sep) == [s[..i]] + rest;
      JoinCons(s[..i], rest, [sep]);
      SplitJoin(s[i + 1..], sep);
      assert s == s[..i] + [sep] + s[i + 1..];
    }
  }

  /** Joining a piece in front of at least one more adds it and a separator. */
  lemma JoinCons(head: string, rest: seq<string>, sep: string)
    requires |rest| >= 1
    ensures Join([head] + rest, sep) == head + sep + Join(rest, sep)
  {
    assert ([head] + rest)[1..] == rest;
  }

  /** Splitting at a separator with no separator before it. */
  lemma SplitAt(a: string, sep: char, b: string)
    requires sep !in a
    ensures Split(a + [sep] + b, sep) == [a] + Split(b, sep)
  {
    var s := a + [sep] + b;
    assert s[|a|] == sep;
    var i := FirstOf(s, sep);
    if i != |a| {
      assert false;
    }
    assert s[..i] == a && s[i + 1..] == b;
  }

  /** `s.split(sep)[-1]`: the text after the last separator (all of `s`
      when there is none). */
  function AfterLast(s: string, sep: char): (r: string)
    ensures |r| <= |s| && r == s[|s| - |r|..]
    ensures sep !in r
    ensures |r| < |s| ==> s[|s| - |r| - 1] == sep
    decreases |s|
  {
    if |s| == 0 || s[|s| - 1] == sep then "" else AfterLast(s[..|s| - 1], sep) + [s[|s| - 1]]
  }

  /** `s.split(sep)[-1]` of `prefix + sep + tail` is `tail` when `tail`
      holds no separator. */
  lemma {:induction false} AfterLastSuffix(prefix: string, sep: char, tail: string)
    requires sep !in tail
    ensures AfterLast(prefix + [sep] + tail, sep) == tail
    decreases |tail|
  {
    var s := prefix + [sep] + tail;
    if |tail| > 0 {
      var front := tail[..|tail| - 1];
      assert s[..|s| - 1] == prefix + [sep] + front;
      assert s[|s| - 1] == tail[|tail| - 1];
      assert tail[|tail| - 1] in tail;
      AfterLastSuffix(prefix, sep, front);
      assert front + [tail[|tail| - 1]] == tail;
    }
  }

  // ---------------------------------------------------------------------
  // Search combinators (the skeleton of `re.search` / `re.findall`)
  // ---------------------------------------------------------------------

  /** The first index in `[lo, hi)` at which the matcher `f` succeeds:
      the leftmost match `re.search` reports. */
  function FindFirst<T>(lo: nat, hi: nat, f: nat -> Option<T>): (r: Option<(nat, T)>)
    ensures r.Some? ==> lo <= r.value.0 < hi && f(r.value.0) == Some(r.value.1)
    ensures r.Some? ==> forall k :: lo <= k < r.value.0 ==> f(k).None?
    ensures r.None? ==> forall k :: lo <= k < hi ==> f(k).None?
    decreases hi - lo
  {
    if lo >= hi then None
    else match f(lo)
      case Some(v) => Some((lo, v))
      case None => FindFirst(lo + 1, hi, f)
  }

  /** The last index in `[lo, hi)` at which `f` succeeds: the choice a
      greedy quantifier settles on after backtracking. */
  function FindLast<T>(lo: nat, hi: nat, f: nat -> Option<T>): (r: Option<(nat, T)>)
    ensures r.Some? ==> lo <= r.value.0 < hi && f(r.value.0) == Some(r.value.1)
    ensures r.Some? ==> forall k :: r.value.0 < k < hi ==> f(k).None?
    ensures r.None? ==> forall k :: lo <= k < hi ==> f(k).None?
    decreases hi
  {
    if lo >= hi then None
    else match f(hi - 1)
      case Some(v) => Some((hi - 1, v))
      case None => FindLast(lo, hi - 1, f)
  }

  /** The leftmost match is the position before which nothing matches. */
  lemma FindFirstAt<T>(lo: nat, hi: nat, f: nat -> Option<T>, i: nat)
    requires lo <= i < hi && f(i).Some?
    requires forall k: nat :: lo <= k < i ==> f(k).None?
    ensures FindFirst(lo, hi, f) == Some((i, f(i).value))
  {
  }

  /** The rightmost match is the position after which nothing matches. */
  lemma FindLastAt<T>(lo: nat, hi: nat, f: nat -> Option<T>, i: nat)
    requires lo <= i < hi && f(i).Some?
    requires forall k: nat :: i < k < hi ==> f(k).None?
    ensures FindLast(lo, hi, f) == Some((i, f(i).value))
  {
  }

  /** End of the maximal run of characters satisfying `p` from `i`: what a
      greedy `p+` or `p*` consumes before anything after it is tried. */
  function RunEnd(s: string, i: nat, p: char -> bool): (j: nat)
    ensures i <= j
    ensures i <= |s| ==> j <= |s|
    ensures forall k :: i <= k < j ==> k < |s| && p(s[k])
    ensures j < |s| ==> !p(s[j])
    decreases |s| - i
  {
    if i >= |s| || !p(s[i]) then i else RunEnd(s, i + 1, p)
  }

  /** A run that stops where `p` first fails is the run `RunEnd` finds. */
  lemma RunEndAt(s: string, i: nat, j: nat, p: char -> bool)
    requires i <= j <= |s|
    requires forall k :: i <= k < j ==> p(s[k])
    requires j < |s| ==> !p(s[j])
    ensures RunEnd(s, i, p) == j
  {
  }

  /** A run reaches past every position up to which `p` holds throughout. */
  lemma RunEndPast(s: string, i: nat, j: nat, p: char -> bool)
    requires i <= j < |s|
    requires forall k :: i <= k <= j ==> p(s[k])
    ensures RunEnd(s, i, p) > j
  {
  }

  /** A run inside the second part of a text is the same run shifted by
      the length of the first part. */
  lemma RunEndShift(a: string, b: string, k: nat, p: char -> bool)
    requires k <= |b|
    ensures RunEnd(a + b, |a| + k, p) == |a| + RunEnd(b, k, p)
  {
    var s := a + b;
    var j := RunEnd(b, k, p);
    assert forall q :: |a| + k <= q < |a| + j ==> s[q] == b[q - |a|];
    assert |a| + j < |s| ==> s[|a| + j] == b[j];
    RunEndAt(s, |a| + k, |a| + j, p);
  }

  /** End of the line holding position `i` (index of the next '\n', or |s|). */
  function LineEnd(s: string, i: nat): (j: nat)
    requires i <= |s|
    ensures i <= j <= |s|
    ensures forall k :: i <= k < j ==> s[k] != '\n'
    ensures j < |s| ==> s[j] == '\n'
  {
    RunEnd(s, i, c => c != '\n')
  }

  /** A stretch without line ends that stops at one (or at the end) is
      the rest of the line. */
  lemma LineEndAt(s: string, i: nat, j: nat)
    requires i <= j <= |s|
    requires forall k :: i <= k < j ==> s[k] != '\n'
    requires j < |s| ==> s[j] == '\n'
    ensures LineEnd(s, i) == j
  {
  }

  /** `re.findall` skeleton: at each position try the matcher; on a match
      collect its value and resume at its end, otherwise move one on. */
  function FindAll<T>(s: string, i: nat, m: nat -> Option<(T, nat)>): (r: seq<T>)
    requires forall k: nat :: m(k).Some? ==> k < m(k).value.1
    ensures i <= |s| + 1 ==> |r| <= |s| + 1 - i
    decreases |s| + 1 - i
  {
    if i > |s| then []
    else match m(i)
      case Some(hit) => if hit.1 <= |s| + 1 then [hit.0] + FindAll(s, hit.1, m) else [hit.0]
      case None => FindAll(s, i + 1, m)
  }

  /** Every value collected is the value of a match at some position
      from `i` on. */
  lemma {:induction false} FindAllFound<T>(s: string, i: nat, m: nat -> Option<(T, nat)>)
    requires forall k: nat :: m(k).Some? ==> k < m(k).value.1
    ensures forall j :: 0 <= j < |FindAll(s, i, m)| ==>
      exists k: nat :: i <= k <= |s| && m(k).Some? && m(k).value.0 == FindAll(s, i, m)[j]
    decreases |s| + 1 - i
  {
    if i <= |s| {
      match m(i)
      case Some(hit) =>
        var r := FindAll(s, i, m);
        assert r[0] == m(i).value.0;
        if hit.1 <= |s| + 1 {
          FindAllFound(s, hit.1, m);
          assert forall j :: 1 <= j < |r| ==> r[j] == FindAll(s, hit.1, m)[j - 1];
        }
      case None =>
        FindAllFound(s, i + 1, m);
        assert FindAll(s, i, m) == FindAll(s, i + 1, m);
    } else {
      assert FindAll(s, i, m) == [];
    }
  }
  /** A match collects its value, and the search resumes past the
      failing positions that follow it. */
  lemma FindAllStep<T>(s: string, i: nat, j: nat, m: nat -> Option<(T, nat)>)
    requires forall k: nat :: m(k).Some? ==> k < m(k).value.1
    requires i <= |s| && m(i).Some? && m(i).value.1 <= j <= |s| + 1
    requires forall k :: m(i).value.1 <= k < j ==> m(k).None?
    ensures FindAll(s, i, m) == [m(i).value.0] + FindAll(s, j, m)
  {
    FindAllSkip(s, m(i).value.1, j, m);
  }

  /** Positions where the matcher fails are passed over one by one. */
  lemma {:induction false} FindAllSkip<T>(s: string, i: nat, j: nat, m: nat -> Option<(T, nat)>)
    requires forall k: nat :: m(k).Some? ==> k < m(k).value.1
    requires i <= j <= |s| + 1
    requires forall k :: i <= k < j ==> m(k).None?
    ensures FindAll(s, i, m) == FindAll(s, j, m)
    decreases j - i
  {
    if i < j {
      FindAllSkip(s, i + 1, j, m);
    }
  }

  /** A match that starts at 0 and runs to the end, with no empty match
      left at the end, is the only one. */
  lemma OnlyMatch<T>(s: string, m: nat -> Option<(T, nat)>, x: T)
    requires forall k: nat :: m(k).Some? ==> k < m(k).value.1
    requires m(0) == Some((x, |s|)) && m(|s|).None?
    ensures FindAll(s, 0, m) == [x]
  {
    assert FindAll(s, |s|, m) == [];
  }

}
