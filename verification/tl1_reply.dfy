/** Hand-written matchers for the fixed TL1 reply patterns the sessions
    search with Python's `re`. Each reproduces the match `re.search`
    reports: the leftmost start position, and at that position the choice
    the greedy quantifiers settle on after backtracking.

    The completion pattern `M\s+<counter>\s+(S+)[^;]*;` (S is `[a-zA-Z ]`
    for the raw connection, polatis_l1_handler.py:78, and `[A-Z ]` for the
    CLI session, polatis/cli/l1_cli_handler.py:45) is analysed thus at a
    start i holding 'M':
    - the first `\s+` must stop at a digit, so it takes the maximal
      whitespace run;
    - the counter digits follow literally, then the second `\s+` takes a
      maximal run [b, k); backtracking may hand its tail back, so the group
      starts at the largest j in (b, k] whose character is in S (below k
      that can only be a space);
    - the group then runs greedily over S, and `[^;]*;` succeeds iff a ';'
      follows, which (the skipped characters being whitespace or in S)
      holds iff a ';' occurs at or after k. */
module Tl1Reply {
  import opened Wrappers
  import opened Text

  /** The status group's character class: `[A-Z ]` when `upperOnly`,
      `[a-zA-Z ]` otherwise. */
  predicate StatusChar(upperOnly: bool, c: char) {
    c == ' ' || (if upperOnly then IsUpper(c) else IsLetter(c))
  }

  predicate SemicolonFrom(s: string, k: nat) {
    exists q :: k <= q < |s| && s[q] == ';'
  }

  /** The completion pattern tried at position `i`: the captured status. */
  function ReplyAt(s: string, counter: nat, upperOnly: bool, i: nat): (r: Option<string>)
    ensures r.Some? ==> |r.value| > 0 && forall k :: 0 <= k < |r.value| ==> StatusChar(upperOnly, r.value[k])
  {
    if i >= |s| || s[i] != 'M' then None
    else
      var e1 := RunEnd(s, i + 1, IsSpace);
      var digits := NatToString(counter);
      if e1 == i + 1 || !StartsAt(s, e1, digits) then None
      else
        var b := e1 + |digits|;
        var k := RunEnd(s, b, IsSpace);
        if k == b || !SemicolonFrom(s, k) then None
        else match FindLast(b + 1, k + 1, (j: nat) => if j < |s| && StatusChar(upperOnly, s[j]) then Some(j) else None)
          case None => None
          case Some((j, _)) => Some(s[j..RunEnd(s, j, c => StatusChar(upperOnly, c))])
  }

  /** The correlation tag at position `i`: 'M', whitespace, then the value
      of a digit run that whitespace ends. */
  function TagAt(s: string, i: nat): Option<nat>
  {
    if i >= |s| || s[i] != 'M' then None
    else
      var e1 := RunEnd(s, i + 1, IsSpace);
      var e2 := RunEnd(s, e1, IsDigit);
      if e1 == i + 1 || e2 == e1 || e2 >= |s| || !IsSpace(s[e2]) then None
      else Some(DigitsValue(s[e1..e2]))
  }

  /** The pattern only matches a reply tagged with exactly that counter:
      the digits must be the counter's and whitespace must end them. */
  lemma ReplyIsTagged(s: string, counter: nat, upperOnly: bool, i: nat)
    requires ReplyAt(s, counter, upperOnly, i).Some?
    ensures TagAt(s, i) == Some(counter)
  {
    var e1 := RunEnd(s, i + 1, IsSpace);
    var digits := NatToString(counter);
    var b := e1 + |digits|;
    assert s[e1..b] == digits;
    assert IsSpace(s[b]);
    assert forall k :: e1 <= k < b ==> IsDigit(s[k]) by {
      assert forall k :: e1 <= k < b ==> s[k] == digits[k - e1];
    }
    RunEndAt(s, e1, b, IsDigit);
    NatToStringRoundTrip(counter);
  }

  /** `re.search(prompt, buf)`: the leftmost match and its status. */
  function SearchReply(s: string, counter: nat, upperOnly: bool): (r: Option<(nat, string)>)
    ensures r.Some? ==> ReplyAt(s, counter, upperOnly, r.value.0) == Some(r.value.1)
    ensures r.Some? ==> forall k :: 0 <= k < r.value.0 ==> ReplyAt(s, counter, upperOnly, k).None?
    ensures r.None? <==> forall k :: 0 <= k < |s| ==> ReplyAt(s, counter, upperOnly, k).None?
  {
    var f := (i: nat) => ReplyAt(s, counter, upperOnly, i);
    assert forall k: nat :: f(k) == ReplyAt(s, counter, upperOnly, k);
    FindFirst(0, |s|, f)
  }

  /** A buffer in which no position carries this counter's tag never
      completes the read, however well-formed the replies it holds. */
  lemma OtherTagsNeverComplete(s: string, counter: nat, upperOnly: bool)
    requires forall i :: 0 <= i < |s| ==> TagAt(s, i) != Some(counter)
    ensures SearchReply(s, counter, upperOnly).None?
  {
    forall i | 0 <= i < |s|
      ensures ReplyAt(s, counter, upperOnly, i).None?
    {
      if ReplyAt(s, counter, upperOnly, i).Some? {
        ReplyIsTagged(s, counter, upperOnly, i);
      }
    }
  }

  /** The reply line a switch sends, "M <counter> <status>" closed by ';'
      on the next line, is found after any text free of 'M', and yields
      its status. */
  lemma CanonicalReply(pre: string, counter: nat, status: string, upperOnly: bool)
    requires forall k :: 0 <= k < |pre| ==> pre[k] != 'M'
    requires |status| > 0 && status[0] != ' '
    requires forall k :: 0 <= k < |status| ==> StatusChar(upperOnly, status[k])
    ensures SearchReply(pre + "M " + NatToString(counter) + " " + status + "\r\n;", counter, upperOnly)
         == Some((|pre|, status))
  {
    var line := "M " + NatToString(counter) + " " + status + "\r\n;";
    assert pre + "M " + NatToString(counter) + " " + status + "\r\n;" == pre + line;
    ReplyLineMatches(pre, line, counter, status, upperOnly);
    NoReplyBefore(pre, line, counter, upperOnly);
    FindFirstAt(0, |pre + line|, (i: nat) => ReplyAt(pre + line, counter, upperOnly, i), |pre|);
  }

  /** No match starts inside text free of 'M'. */
  lemma NoReplyBefore(pre: string, line: string, counter: nat, upperOnly: bool)
    requires forall k :: 0 <= k < |pre| ==> pre[k] != 'M'
    ensures forall k: nat :: k < |pre| ==> ReplyAt(pre + line, counter, upperOnly, k).None?
  {
    forall k: nat | k < |pre|
      ensures ReplyAt(pre + line, counter, upperOnly, k).None?
    {
      assert (pre + line)[k] == pre[k];
    }
  }

  /** The canonical reply line matches where it starts. */
  lemma ReplyLineMatches(pre: string, line: string, counter: nat, status: string, upperOnly: bool)
    requires line == "M " + NatToString(counter) + " " + status + "\r\n;"
    requires |status| > 0 && status[0] != ' '
    requires forall k :: 0 <= k < |status| ==> StatusChar(upperOnly, status[k])
    ensures ReplyAt(pre + line, counter, upperOnly, |pre|) == Some(status)
  {
    var digits := NatToString(counter);
    var k := |pre| + 3 + |digits|;
    LineLayout(pre, digits, status, upperOnly);
    ReplyAtFrom(pre + line, counter, upperOnly, |pre|, k, k + |status|);
  }

  /** Where the parts of a reply line sit once it follows `pre`. */
  lemma LineLayout(pre: string, digits: string, status: string, upperOnly: bool)
    requires |status| > 0 && status[0] != ' '
    requires forall k :: 0 <= k < |status| ==> StatusChar(upperOnly, status[k])
    ensures var s := pre + ("M " + digits + " " + status + "\r\n;");
      var i := |pre|;
      var k := i + 3 + |digits|;
      var g := k + |status|;
      g < |s| && s[i] == 'M' && s[i + 1] == ' ' && StartsAt(s, i + 2, digits) && s[k..g] == status &&
      s[k - 1] == ' ' && !IsSpace(s[k]) &&
      (forall q :: k <= q < g ==> StatusChar(upperOnly, s[q])) &&
      !StatusChar(upperOnly, s[g]) && SemicolonFrom(s, k)
  {
    var line := "M " + digits + " " + status + "\r\n;";
    var s := pre + line;
    var i := |pre|;
    var k := i + 3 + |digits|;
    var g := k + |status|;
    assert s[i..] == line;
    assert s[i + 2..i + 2 + |digits|] == digits by {
      assert line[2..2 + |digits|] == digits;
    }
    assert s[k..g] == status by {
      assert line[3 + |digits|..3 + |digits| + |status|] == status;
    }
    assert forall q :: k <= q < g ==> s[q] == status[q - k];
    assert s[g] == '\r';
    assert s[|s| - 1] == ';';
  }

  /** The pattern matches at `i` when 'M', one space, the counter's digits
      and one space lead to a status run [k, g) that opens with a letter
      and is followed, later on, by a ';'. */
  lemma ReplyAtFrom(s: string, counter: nat, upperOnly: bool, i: nat, k: nat, g: nat)
    requires k == i + 3 + |NatToString(counter)| && k < g < |s|
    requires s[i] == 'M' && s[i + 1] == ' ' && StartsAt(s, i + 2, NatToString(counter))
    requires s[k - 1] == ' ' && !IsSpace(s[k])
    requires forall q :: k <= q < g ==> StatusChar(upperOnly, s[q])
    requires !StatusChar(upperOnly, s[g]) && SemicolonFrom(s, k)
    ensures ReplyAt(s, counter, upperOnly, i) == Some(s[k..g])
  {
    var digits := NatToString(counter);
    assert IsDigit(s[i + 2]) by {
      assert s[i + 2] == digits[0];
    }
    RunEndAt(s, i + 1, i + 2, IsSpace);
    RunEndAt(s, k - 1, k, IsSpace);
    var f := (j: nat) => if j < |s| && StatusChar(upperOnly, s[j]) then Some(j) else None;
    FindLastAt(k, k + 1, f, k);
    RunEndAt(s, k, g, c => StatusChar(upperOnly, c));
  }

  // ---------------------------------------------------------------------
  // Switch-name extraction patterns
  // ---------------------------------------------------------------------

  /** `re.search(r'(\S+)', s)`: the first maximal run of non-whitespace,
      or None when the text is all whitespace. */
  function FirstWord(s: string): (r: Option<string>)
    ensures r.None? <==> forall k :: 0 <= k < |s| ==> IsSpace(s[k])
    ensures r.Some? ==> |r.value| > 0 && NoSpace(r.value)
  {
    var i := RunEnd(s, 0, IsSpace);
    if i == |s| then None
    else Some(s[i..RunEnd(s, i, c => !IsSpace(c))])
  }

  /** The first word of a text is found after any leading whitespace and
      ends at the next whitespace. */
  lemma FirstWordOf(lead: string, word: string, rest: string)
    requires forall k :: 0 <= k < |lead| ==> IsSpace(lead[k])
    requires |word| > 0 && NoSpace(word)
    requires |rest| > 0 ==> IsSpace(rest[0])
    ensures FirstWord(lead + word + rest) == Some(word)
  {
    var s := lead + word + rest;
    var i := |lead|;
    var e := i + |word|;
    assert forall k :: 0 <= k < i ==> s[k] == lead[k];
    assert forall k :: i <= k < e ==> s[k] == word[k - i];
    assert e < |s| ==> s[e] == rest[0];
    RunEndAt(s, 0, i, IsSpace);
    RunEndAt(s, i, e, c => !IsSpace(c));
    assert s[i..e] == word;
  }

  /** `\s+\d+-` matches at `g`: whitespace, digits and a dash. */
  predicate DashAfter(s: string, g: nat) {
    g < |s| &&
    var w := RunEnd(s, g, IsSpace);
    var d := RunEnd(s, w, IsDigit);
    w > g && d > w && d < |s| && s[d] == '-'
  }

  /** Python's `^` under `re.MULTILINE`. */
  predicate LineStart(s: string, i: nat) {
    i == 0 || (i <= |s| && s[i - 1] == '\n')
  }

  /** `^(.*)\s+\d+-` tried at a line start: the group `.*` is greedy, so it
      ends at the last position of the line where `\s+\d+-` matches. */
  function HeaderAt(s: string, i: nat): (r: Option<string>)
    ensures r.Some? ==> LineStart(s, i) && i + |r.value| <= |s| && s[i..i + |r.value|] == r.value
    ensures r.Some? ==> DashAfter(s, i + |r.value|) && '\n' !in r.value
  {
    if i > |s| || !LineStart(s, i) then None
    else match FindLast(i, LineEnd(s, i) + 1, DashMatcher(s))
      case None => None
      case Some((g, _)) =>
        assert forall k :: 0 <= k < g - i ==> s[i..g][k] == s[i + k];
        Some(s[i..g])
  }

  function DashMatcher(s: string): nat -> Option<nat>
  {
    (g: nat) => if DashAfter(s, g) then Some(g) else None
  }

  /** `re.search(r'^(.*)\s+\d+-', s, re.MULTILINE)`: the group of the
      first line where the pattern matches. */
  function HeaderGroup(s: string): (r: Option<string>)
    ensures r.None? <==> forall i :: 0 <= i <= |s| ==> HeaderAt(s, i).None?
    ensures r.Some? ==>
      exists i :: 0 <= i <= |s| && HeaderAt(s, i) == r &&
                  forall k :: 0 <= k < i ==> HeaderAt(s, k).None?
  {
    var f := (i: nat) => HeaderAt(s, i);
    assert forall i: nat :: f(i) == HeaderAt(s, i);
    match FindFirst(0, |s| + 1, f)
    case None => None
    case Some((i, g)) =>
      assert HeaderAt(s, i) == Some(g);
      assert forall k :: 0 <= k < i ==> HeaderAt(s, k).None?;
      Some(g)
  }

  /** A line `group digits-...`, after lines where the pattern fails,
      yields `group` when the group holds no line break and nothing after
      the dash reads as whitespace, digits and a dash. */
  lemma HeaderGroupOf(pre: string, group: string, digits: string, rest: string)
    requires |pre| == 0 || pre[|pre| - 1] == '\n'
    requires forall i :: 0 <= i < |pre| ==> HeaderAt(pre + group + " " + digits + "-" + rest, i).None?
    requires forall k :: 0 <= k < |group| ==> group[k] != '\n'
    requires |digits| > 0 && AllDigits(digits)
    requires forall k :: 0 <= k < |rest| ==> !DashAfter(rest, k)
    ensures HeaderGroup(pre + group + " " + digits + "-" + rest) == Some(group)
  {
    var s := pre + group + " " + digits + "-" + rest;
    var i := |pre|;
    var n := i + |group|;
    var d := n + 1 + |digits|;
    assert HeaderAt(s, i) == Some(group) by {
      HeadLayout(s, pre, group, digits, rest);
      NoDashInRest(s, pre + group + " " + digits + "-", rest);
      HeaderAtFrom(s, i, n, d);
    }
    HeaderGroupAt(s, i);
  }

  /** The group is the one of the first line where the pattern matches. */
  lemma HeaderGroupAt(s: string, i: nat)
    requires i <= |s| && HeaderAt(s, i).Some?
    requires forall k :: 0 <= k < i ==> HeaderAt(s, k).None?
    ensures HeaderGroup(s) == HeaderAt(s, i)
  {
    var f := (j: nat) => HeaderAt(s, j);
    assert FindFirst(0, |s| + 1, f) == Some((i, HeaderAt(s, i).value)) by {
      FindFirstAt(0, |s| + 1, f, i);
    }
  }

  /** Where the parts of a header line sit in the text. */
  lemma HeadLayout(s: string, pre: string, group: string, digits: string, rest: string)
    requires s == pre + group + " " + digits + "-" + rest
    requires forall k :: 0 <= k < |group| ==> group[k] != '\n'
    requires AllDigits(digits)
    ensures |pre| + |group| + 1 + |digits| < |s|
    ensures s[|pre| + |group|] == ' ' && s[|pre| + |group| + 1 + |digits|] == '-'
    ensures s[|pre|..|pre| + |group|] == group
    ensures forall k :: |pre| <= k < |pre| + |group| ==> s[k] != '\n'
    ensures forall k :: |pre| + |group| < k < |pre| + |group| + 1 + |digits| ==> IsDigit(s[k])
    ensures |pre| > 0 ==> s[|pre| - 1] == pre[|pre| - 1]
  {
    var n := |pre| + |group|;
    assert forall k :: |pre| <= k < n ==> s[k] == group[k - |pre|];
    assert forall k :: 0 <= k < |group| ==> s[|pre|..n][k] == group[k];
    assert forall k :: n < k < n + 1 + |digits| ==> s[k] == digits[k - n - 1];
  }

  /** Nothing in the second part of a text reads as whitespace, digits
      and a dash when it does not on its own. */
  lemma NoDashInRest(s: string, head: string, rest: string)
    requires s == head + rest
    requires forall k :: 0 <= k < |rest| ==> !DashAfter(rest, k)
    ensures forall g :: |head| <= g < |s| ==> !DashAfter(s, g)
  {
    forall g | |head| <= g < |s|
      ensures !DashAfter(s, g)
    {
      DashAfterShift(head, rest, g - |head|);
    }
  }

  /** `\s+\d+-` reads the same in the second part of a text as in the
      whole text. */
  lemma DashAfterShift(a: string, b: string, k: nat)
    requires k < |b|
    ensures DashAfter(a + b, |a| + k) == DashAfter(b, k)
  {
    var s := a + b;
    RunEndShift(a, b, k, IsSpace);
    var w := RunEnd(b, k, IsSpace);
    RunEndShift(a, b, w, IsDigit);
    var d := RunEnd(b, w, IsDigit);
    assert d < |b| ==> s[|a| + d] == b[d];
  }

  /** The line starting at `i` matches with the group [i, n) when the line
      holds no break before n, a space and digits run from n to a dash at
      d, and the pattern's dash test fails everywhere after d. */
  lemma HeaderAtFrom(s: string, i: nat, n: nat, d: nat)
    requires LineStart(s, i) && i <= n && n + 1 < d < |s|
    requires forall k :: i <= k < n ==> s[k] != '\n'
    requires s[n] == ' ' && s[d] == '-'
    requires forall k :: n < k < d ==> IsDigit(s[k])
    requires forall g :: d < g < |s| ==> !DashAfter(s, g)
    ensures HeaderAt(s, i) == Some(s[i..n])
  {
    assert FindLast(i, LineEnd(s, i) + 1, DashMatcher(s)) == Some((n, n)) by {
      DashWindow(s, i, n, d);
      FindLastAt(i, LineEnd(s, i) + 1, DashMatcher(s), n);
    }
  }

  /** On that line the pattern's dash test holds at n and nowhere after
      it up to the line's end. */
  lemma DashWindow(s: string, i: nat, n: nat, d: nat)
    requires i <= n && n + 1 < d < |s|
    requires forall k :: i <= k < n ==> s[k] != '\n'
    requires s[n] == ' ' && s[d] == '-'
    requires forall k :: n < k < d ==> IsDigit(s[k])
    requires forall g :: d < g < |s| ==> !DashAfter(s, g)
    ensures n < LineEnd(s, i) + 1 && DashMatcher(s)(n) == Some(n)
    ensures forall g: nat :: n < g < LineEnd(s, i) + 1 ==> DashMatcher(s)(g).None?
  {
    RunEndAt(s, n, n + 1, IsSpace);
    RunEndAt(s, n + 1, d, IsDigit);
    assert DashAfter(s, n);
    forall g: nat | n < g <= d
      ensures !DashAfter(s, g)
    {
      assert !IsSpace(s[g]);
      RunEndAt(s, g, g, IsSpace);
    }
  }

  /** ` ([A-Za-z0-9]+) ` tried at `i`: the token between the spaces. */
  function TokenAt(s: string, i: nat): (r: Option<string>)
    ensures r.Some? ==> |r.value| > 0 && forall k :: 0 <= k < |r.value| ==> IsAlnum(r.value[k])
  {
    if i >= |s| || s[i] != ' ' then None
    else
      var e := RunEnd(s, i + 1, IsAlnum);
      if e > i + 1 && e < |s| && s[e] == ' ' then Some(s[i + 1..e]) else None
  }

  /** `re.search(r" ([A-Za-z0-9]+) ", s).group()[1:-1]`: the first
      space-delimited alphanumeric token. */
  function SpacedToken(s: string): (r: Option<string>)
    ensures r.None? <==> forall i :: 0 <= i < |s| ==> TokenAt(s, i).None?
    ensures r.Some? ==>
      exists i :: 0 <= i < |s| && TokenAt(s, i) == r &&
                  forall k :: 0 <= k < i ==> TokenAt(s, k).None?
  {
    var f := (i: nat) => TokenAt(s, i);
    assert forall i: nat :: f(i) == TokenAt(s, i);
    match FindFirst(0, |s|, f)
    case None => None
    case Some((i, t)) =>
      assert TokenAt(s, i) == Some(t);
      assert forall k :: 0 <= k < i ==> TokenAt(s, k).None?;
      Some(t)
  }

  /** When no token starts inside the prefix, the token between the two
      spaces that follow it is the one found. */
  lemma SpacedTokenOf(pre: string, token: string, rest: string)
    requires forall k :: 0 <= k < |pre| ==> TokenAt(pre + " " + token + " " + rest, k).None?
    requires |token| > 0 && forall k :: 0 <= k < |token| ==> IsAlnum(token[k])
    ensures SpacedToken(pre + " " + token + " " + rest) == Some(token)
  {
    var s := pre + " " + token + " " + rest;
    var i := |pre|;
    var e := i + 1 + |token|;
    assert s[i] == ' ' && s[e] == ' ';
    assert forall k :: i + 1 <= k < e ==> s[k] == token[k - i - 1];
    RunEndAt(s, i + 1, e, IsAlnum);
    assert s[i + 1..e] == token;
    assert TokenAt(s, i) == Some(token);
    FindFirstAt(0, |s|, (j: nat) => TokenAt(s, j), i);
  }

  /** A prefix of whitespace only, or one without spaces, starts no
      token. */
  lemma NoTokenInPrefix(pre: string, token: string, rest: string)
    requires (forall k :: 0 <= k < |pre| ==> IsSpace(pre[k])) ||
             (forall k :: 0 <= k < |pre| ==> pre[k] != ' ')
    ensures forall k :: 0 <= k < |pre| ==> TokenAt(pre + " " + token + " " + rest, k).None?
  {
    var s := pre + " " + token + " " + rest;
    forall k | 0 <= k < |pre|
      ensures TokenAt(s, k).None?
    {
      assert s[k] == pre[k];
      if s[k] == ' ' {
        assert IsSpace(s[k + 1]) by {
          if k + 1 < |pre| { assert s[k + 1] == pre[k + 1]; }
        }
        RunEndAt(s, k + 1, k + 1, IsAlnum);
      }
    }
  }
}
