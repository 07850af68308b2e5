/** The parsers of the switch's TL1 replies used by the CLI-based driver
    (`SystemActions.get_device_size` in
    polatis/command_actions/system_actions.py and the readers of
    `AutoloadActions` in polatis/command_actions/autoload_actions.py).
    Each regular expression is replaced by a matcher that reproduces the
    match Python's `re` reports for it, built from the search combinators
    of `Text`. */
module DeviceReplies {
  import opened Wrappers
  import opened Text

  /** A matcher that finds the character `c` at a position. */
  function Locate(s: string, c: char): nat -> Option<nat>
  {
    (j: nat) => if j < |s| && s[j] == c then Some(j) else None
  }

  /** The value of the digit run [a, e) of `s`. */
  function RunValue(s: string, a: nat, e: nat): nat
    requires a <= e <= |s|
    requires forall k :: a <= k < e ==> IsDigit(s[k])
  {
    assert AllDigits(s[a..e]) by {
      assert forall k :: 0 <= k < e - a ==> s[a..e][k] == s[a + k];
    }
    DigitsValue(s[a..e])
  }

  // ---------------------------------------------------------------------
  // get_device_size: SYSTEM:SIZE=(\d+)x(\d+)
  // ---------------------------------------------------------------------

  const SizeKey: string := "SYSTEM:SIZE="

  /** The size pattern tried at `i`. A shorter first digit run would leave
      a digit where the 'x' must be, so the greedy runs are the match. */
  function SizeAt(s: string, i: nat): Option<(nat, nat)>
  {
    if !StartsAt(s, i, SizeKey) then None
    else
      var a := i + |SizeKey|;
      var e := RunEnd(s, a, IsDigit);
      if e == a || e >= |s| || s[e] != 'x' then None
      else
        var f := RunEnd(s, e + 1, IsDigit);
        if f == e + 1 then None
        else Some((RunValue(s, a, e), RunValue(s, e + 1, f)))
  }

  /** `re.search` of the size pattern: the leftmost match. */
  function SearchSize(s: string): (r: Option<(nat, nat)>)
    ensures r.None? <==> forall i :: 0 <= i < |s| ==> SizeAt(s, i).None?
    ensures r.Some? ==> exists i :: 0 <= i < |s| && SizeAt(s, i) == r &&
                          forall k :: 0 <= k < i ==> SizeAt(s, k).None?
  {
    var f := (i: nat) => SizeAt(s, i);
    assert forall i: nat :: f(i) == SizeAt(s, i);
    match FindFirst(0, |s|, f)
    case None => None
    case Some((i, v)) => assert SizeAt(s, i) == Some(v); Some(v)
  }

  /** `get_device_size` on the reply to its one query: both sizes of the
      first size field, or an error quoting the whole output. */
  function DeviceSize(output: string): (r: Result<(nat, nat), string>)
    ensures r.Ok? <==> SearchSize(output).Some?
    ensures r.Ok? ==> r.value == SearchSize(output).value
    ensures r.Err? ==> r.error == "Unable to determine system size: " + output
  {
    match SearchSize(output)
    case Some(v) => Ok(v)
    case None => Err("Unable to determine system size: " + output)
  }

  /** The switch's own size report reads back as the sizes it states. */
  lemma DeviceSizeOfReport(pre: string, size1: nat, size2: nat, rest: string)
    requires forall k :: 0 <= k < |pre| ==> !StartsAt(pre + SizeKey, k, SizeKey)
    requires |rest| > 0 ==> !IsDigit(rest[0])
    ensures DeviceSize(pre + SizeKey + NatToString(size1) + "x" + NatToString(size2) + rest)
      == Ok((size1, size2))
  {
    var s := pre + SizeKey + NatToString(size1) + "x" + NatToString(size2) + rest;
    var i := |pre|;
    assert SizeAt(s, i) == Some((size1, size2)) by {
      SizeAtReport(pre, size1, size2, rest);
    }
    assert forall j: nat :: j < i ==> SizeAt(s, j).None? by {
      var tail := NatToString(size1) + "x" + NatToString(size2) + rest;
      assert s == pre + SizeKey + tail;
      NoSizeBefore(pre, tail);
    }
    assert SearchSize(s) == Some((size1, size2)) by {
      FindFirstAt(0, |s|, (j: nat) => SizeAt(s, j), i);
    }
  }

  /** No size field starts inside a prefix that does not hold the key
      up to the key's own position. */
  lemma NoSizeBefore(pre: string, tail: string)
    requires forall k :: 0 <= k < |pre| ==> !StartsAt(pre + SizeKey, k, SizeKey)
    ensures forall j :: 0 <= j < |pre| ==> SizeAt(pre + SizeKey + tail, j).None?
  {
    forall j | 0 <= j < |pre|
      ensures SizeAt(pre + SizeKey + tail, j).None?
    {
      StartsBefore(pre, SizeKey, tail, j);
    }
  }

  lemma SizeAtReport(pre: string, size1: nat, size2: nat, rest: string)
    requires |rest| > 0 ==> !IsDigit(rest[0])
    ensures SizeAt(pre + SizeKey + NatToString(size1) + "x" + NatToString(size2) + rest, |pre|)
      == Some((size1, size2))
  {
    SizeAtDigits(pre, NatToString(size1), NatToString(size2), rest);
    NatToStringRoundTrip(size1);
    NatToStringRoundTrip(size2);
  }

  /** A size report with any two digit runs reads back their values. */
  lemma SizeAtDigits(pre: string, d1: string, d2: string, rest: string)
    requires |d1| > 0 && AllDigits(d1) && |d2| > 0 && AllDigits(d2)
    requires |rest| > 0 ==> !IsDigit(rest[0])
    ensures SizeAt(pre + SizeKey + d1 + "x" + d2 + rest, |pre|) == Some((DigitsValue(d1), DigitsValue(d2)))
  {
    var e := |pre| + |SizeKey| + |d1|;
    ReportSlices(pre, d1, d2, rest);
    SizeAtRuns(pre + SizeKey + d1 + "x" + d2 + rest, |pre|, e, e + 1 + |d2|, d1, d2);
  }

  /** Where the pieces of a size report sit in its text. */
  lemma ReportSlices(pre: string, d1: string, d2: string, rest: string)
    ensures var s := pre + SizeKey + d1 + "x" + d2 + rest;
      var a := |pre| + |SizeKey|;
      var e := a + |d1|;
      var f := e + 1 + |d2|;
      f <= |s| && StartsAt(s, |pre|, SizeKey) && s[a..e] == d1 && s[e] == 'x' && s[e + 1..f] == d2 &&
      (f < |s| ==> s[f] == rest[0])
  {
    var s := pre + SizeKey + d1 + "x" + d2 + rest;
    var a := |pre| + |SizeKey|;
    var e := a + |d1|;
    var f := e + 1 + |d2|;
    assert s[|pre|..a] == SizeKey;
    assert s[a..e] == d1;
    assert s[e + 1..f] == d2;
  }

  /** The key at `i`, a digit run, an 'x' and a digit run ended by a
      non-digit read back as the two runs' values. */
  lemma SizeAtRuns(s: string, i: nat, e: nat, f: nat, d1: string, d2: string)
    requires |d1| > 0 && AllDigits(d1) && |d2| > 0 && AllDigits(d2)
    requires e == i + |SizeKey| + |d1| && f == e + 1 + |d2| && f <= |s|
    requires StartsAt(s, i, SizeKey) && s[i + |SizeKey|..e] == d1 && s[e] == 'x' && s[e + 1..f] == d2
    requires f < |s| ==> !IsDigit(s[f])
    ensures SizeAt(s, i) == Some((DigitsValue(d1), DigitsValue(d2)))
  {
    var a := i + |SizeKey|;
    assert forall k :: a <= k < e ==> s[k] == d1[k - a];
    assert forall k :: e + 1 <= k < f ==> s[k] == d2[k - e - 1];
    RunEndAt(s, a, e, IsDigit);
    RunEndAt(s, e + 1, f, IsDigit);
  }

  // ---------------------------------------------------------------------
  // get_switch_serial: SN=(\w+)
  // ---------------------------------------------------------------------

  const SerialKey: string := "SN="

  /** Serial reported when the reply holds none. */
  const NoSerial: string := "-1"

  function SerialAt(s: string, i: nat): Option<string>
  {
    if !StartsAt(s, i, SerialKey) then None
    else
      var a := i + |SerialKey|;
      var e := RunEnd(s, a, IsWordChar);
      if e == a then None else Some(s[a..e])
  }

  /** `get_switch_serial`: the word after the first `SN=` that has one, or
      "-1". */
  function SwitchSerial(output: string): (r: string)
    ensures (forall i :: 0 <= i < |output| ==> SerialAt(output, i).None?) ==> r == NoSerial
    ensures !(forall i :: 0 <= i < |output| ==> SerialAt(output, i).None?) ==>
      exists i :: 0 <= i < |output| && SerialAt(output, i) == Some(r) &&
        forall k :: 0 <= k < i ==> SerialAt(output, k).None?
  {
    var f := (i: nat) => SerialAt(output, i);
    assert forall i: nat :: f(i) == SerialAt(output, i);
    match FindFirst(0, |output|, f)
    case None => NoSerial
    case Some((i, v)) => assert SerialAt(output, i) == Some(v); v
  }

  /** The first `SN=` field names the serial, up to the first character
      that is not a word character. */
  lemma SwitchSerialOf(pre: string, serial: string, rest: string)
    requires forall k :: 0 <= k < |pre| ==> !StartsAt(pre + SerialKey, k, SerialKey)
    requires |serial| > 0 && forall k :: 0 <= k < |serial| ==> IsWordChar(serial[k])
    requires |rest| > 0 ==> !IsWordChar(rest[0])
    ensures SwitchSerial(pre + SerialKey + serial + rest) == serial
  {
    var s := pre + SerialKey + serial + rest;
    var i := |pre|;
    var a := i + |SerialKey|;
    var e := a + |serial|;
    assert s[i..a] == SerialKey;
    assert s[a..e] == serial;
    assert e < |s| ==> s[e] == rest[0];
    RunEndAt(s, a, e, IsWordChar);
    var m := (j: nat) => SerialAt(s, j);
    forall j: nat | j < i
      ensures m(j).None?
    {
      assert s == pre + SerialKey + (serial + rest);
      StartsBefore(pre, SerialKey, serial + rest, j);
    }
    FindFirstAt(0, |s|, m, i);
  }

  // ---------------------------------------------------------------------
  // get_switch_details: "(.*),(.*),(.*),(.*)" then (.*),(.*),(.*),(.*)
  // ---------------------------------------------------------------------

  /** The four fields of the switch's type report. */
  datatype Details = Details(vendor: string, model: string, hwType: string, version: string)

  /** The dictionary `get_switch_details` returns. */
  function DetailsDict(d: Details): (r: map<string, string>)
    ensures r.Keys == {"Vendor", "Model", "Hardware Type", "Version"}
    ensures r["Vendor"] == d.vendor && r["Model"] == d.model
    ensures r["Hardware Type"] == d.hwType && r["Version"] == d.version
  {
    map["Vendor" := d.vendor, "Hardware Type" := d.hwType, "Version" := d.version, "Model" := d.model]
  }

  /** The fields of [a, end) split at its last `n` commas: a greedy `.*`
      followed by a comma stops at the last comma that still leaves the
      commas the rest of the pattern needs. */
  function Peel(s: string, a: nat, end: nat, n: nat): (r: Option<seq<string>>)
    requires a <= end <= |s|
    ensures r.Some? ==> |r.value| == n + 1
    decreases n
  {
    if n == 0 then Some([s[a..end]])
    else
      match FindLast(a, end, Locate(s, ','))
      case None => None
      case Some((c, _)) =>
        match Peel(s, a, c, n - 1)
        case None => None
        case Some(front) => Some(front + [s[c + 1..end]])
  }

  /** Four fields in [a, b) of one line: as `.` never crosses a line end,
      the greedy fields leave the last three commas of the range as the
      separators. */
  function FieldsIn(s: string, a: nat, b: nat): (r: Option<Details>)
    requires a <= b <= |s|
  {
    match Peel(s, a, b, 3)
    case None => None
    case Some(f) => Some(Details(f[0], f[1], f[2], f[3]))
  }

  /** The quoted form tried at `i`: the closing quote is the last one of
      the line, which leaves the most commas to the fields. */
  function QuotedAt(s: string, i: nat): Option<Details>
  {
    if i >= |s| || s[i] != '"' then None
    else
      match FindLast(i + 1, LineEnd(s, i + 1), Locate(s, '"'))
      case None => None
      case Some((q, _)) => FieldsIn(s, i + 1, q)
  }

  /** The unquoted form tried at `i`: the version runs to the line end. */
  function UnquotedAt(s: string, i: nat): Option<Details>
  {
    if i > |s| then None else FieldsIn(s, i, LineEnd(s, i))
  }

  function QuotedMatcher(s: string): nat -> Option<Details>
  {
    (i: nat) => QuotedAt(s, i)
  }

  function UnquotedMatcher(s: string): nat -> Option<Details>
  {
    (i: nat) => UnquotedAt(s, i)
  }

  /** `get_switch_details`: the leftmost quoted match, else the leftmost
      unquoted one, as a dictionary; nothing when neither matches. */
  function SwitchDetails(output: string): (r: Option<map<string, string>>)
    ensures r.Some? ==> r.value.Keys == {"Vendor", "Model", "Hardware Type", "Version"}
    ensures r.None? <==> FirstDetails(output, QuotedMatcher(output)).None? &&
                         FirstDetails(output, UnquotedMatcher(output)).None?
    ensures FirstDetails(output, QuotedMatcher(output)).Some? ==>
      r == Some(DetailsDict(FirstDetails(output, QuotedMatcher(output)).value))
    ensures FirstDetails(output, QuotedMatcher(output)).None? &&
            FirstDetails(output, UnquotedMatcher(output)).Some? ==>
      r == Some(DetailsDict(FirstDetails(output, UnquotedMatcher(output)).value))
  {
    match FirstDetails(output, QuotedMatcher(output))
    case Some(d) => Some(DetailsDict(d))
    case None =>
      match FirstDetails(output, UnquotedMatcher(output))
      case Some(d) => Some(DetailsDict(d))
      case None => None
  }

  /** `re.search` with a details matcher: the fields of the leftmost match. */
  function FirstDetails(s: string, f: nat -> Option<Details>): (r: Option<Details>)
    ensures r.None? <==> forall i: nat :: i < |s| ==> f(i).None?
    ensures r.Some? ==> exists i: nat :: i < |s| && f(i) == r && forall k: nat :: k < i ==> f(k).None?
  {
    match FindFirst(0, |s|, f)
    case Some((_, d)) => Some(d)
    case None => None
  }

  /** A reply without commas names no details. */
  lemma NoCommaNoDetails(output: string)
    requires ',' !in output
    ensures SwitchDetails(output).None?
  {
    forall a: nat, b: nat | a <= b <= |output|
      ensures FieldsIn(output, a, b).None?
    {
      forall k: nat | a <= k < b
        ensures Locate(output, ',')(k).None?
      {
        assert output[k] in output;
      }
    }
    assert forall i: nat :: i < |output| ==> QuotedMatcher(output)(i).None?;
    assert forall i: nat :: i < |output| ==> UnquotedMatcher(output)(i).None?;
  }

  /** Where no line holds a quote the unquoted form decides. */
  lemma UnquotedFallback(output: string)
    requires '"' !in output
    ensures var d := FirstDetails(output, UnquotedMatcher(output));
      SwitchDetails(output) == if d.Some? then Some(DetailsDict(d.value)) else None
  {
    forall i: nat | i < |output|
      ensures QuotedMatcher(output)(i).None?
    {
      assert output[i] in output;
    }
  }

  /** A field character: no comma, quote or line end. */
  predicate PlainChar(c: char) {
    c != ',' && c != '"' && c != '\n'
  }

  /** The stretch [a, b) of `s` is made of field characters. */
  predicate PlainSpan(s: string, a: nat, b: nat) {
    forall k :: a <= k < b ==> k < |s| && PlainChar(s[k])
  }

  /** A type report whose first quote opens a quoted span reads back as
      that span's four fields. */
  lemma SwitchDetailsOfReport(s: string, i: nat, c1: nat, c2: nat, c3: nat, q: nat)
    requires QuotedShape(s, i, c1, c2, c3, q)
    requires forall k :: 0 <= k < i ==> s[k] != '"'
    ensures SwitchDetails(s) == Some(DetailsDict(Details(s[i + 1..c1], s[c1 + 1..c2], s[c2 + 1..c3], s[c3 + 1..q])))
  {
    QuotedSpan(s, i, c1, c2, c3, q);
    FindFirstAt(0, |s|, QuotedMatcher(s), i);
  }

  /** A quoted span at `i` on one line: the closing quote at `q` ends the
      line, the commas at c1 < c2 < c3 split it, and every other character
      is a field character. */
  predicate QuotedShape(s: string, i: nat, c1: nat, c2: nat, c3: nat, q: nat) {
    i < c1 && i < q < |s| && s[i] == '"' && s[q] == '"' && PlainSpan(s, i + 1, c1) &&
    LastCommaShape(s, i + 1, c1, c2) && LastCommaShape(s, i + 1, c2, c3) && LastCommaShape(s, i + 1, c3, q) &&
    (q + 1 < |s| ==> s[q + 1] == '\n')
  }

  /** A quoted span reads as its four fields. */
  lemma QuotedSpan(s: string, i: nat, c1: nat, c2: nat, c3: nat, q: nat)
    requires QuotedShape(s, i, c1, c2, c3, q)
    ensures QuotedAt(s, i) == Some(Details(s[i + 1..c1], s[c1 + 1..c2], s[c2 + 1..c3], s[c3 + 1..q]))
  {
    ClosingQuote(s, i, c1, c2, c3, q);
    FieldsAt(s, i, c1, c2, c3, q);
  }

  /** The closing quote is the last quote of the line. */
  lemma ClosingQuote(s: string, i: nat, c1: nat, c2: nat, c3: nat, q: nat)
    requires QuotedShape(s, i, c1, c2, c3, q)
    ensures FindLast(i + 1, LineEnd(s, i + 1), Locate(s, '"')) == Some((q, q))
  {
    OneLine(s, i, c1, c2, c3, q);
    FindLastAt(i + 1, q + 1, Locate(s, '"'), q);
  }

  /** The quoted span lies on one line that ends just after it. */
  lemma OneLine(s: string, i: nat, c1: nat, c2: nat, c3: nat, q: nat)
    requires QuotedShape(s, i, c1, c2, c3, q)
    ensures LineEnd(s, i + 1) == q + 1
  {
    forall k | i + 1 <= k < q + 1
      ensures s[k] != '\n'
    {
      if k < c1 || c1 < k < c2 || c2 < k < c3 || c3 < k < q { assert PlainChar(s[k]); }
    }
    LineEndAt(s, i + 1, q + 1);
  }

  /** The last three commas of the span separate the four fields. */
  lemma FieldsAt(s: string, i: nat, c1: nat, c2: nat, c3: nat, q: nat)
    requires QuotedShape(s, i, c1, c2, c3, q)
    ensures FieldsIn(s, i + 1, q) == Some(Details(s[i + 1..c1], s[c1 + 1..c2], s[c2 + 1..c3], s[c3 + 1..q]))
  {
    PeelLast(s, i + 1, c1, c2, 0);
    PeelLast(s, i + 1, c2, c3, 1);
    PeelLast(s, i + 1, c3, q, 2);
  }

  /** Peeling one more field takes the text after the last comma. */
  lemma PeelLast(s: string, a: nat, c: nat, end: nat, n: nat)
    requires LastCommaShape(s, a, c, end)
    ensures Peel(s, a, end, n + 1) ==
      if Peel(s, a, c, n).Some? then Some(Peel(s, a, c, n).value + [s[c + 1..end]]) else None
  {
    LastComma(s, a, c, end);
  }

  predicate LastCommaShape(s: string, lo: nat, c: nat, hi: nat) {
    lo <= c < hi <= |s| && s[c] == ',' && PlainSpan(s, c + 1, hi)
  }

  /** A comma followed only by field characters up to `hi` is the last
      comma before `hi`. */
  lemma LastComma(s: string, lo: nat, c: nat, hi: nat)
    requires LastCommaShape(s, lo, c, hi)
    ensures FindLast(lo, hi, Locate(s, ',')) == Some((c, c))
  {
    assert forall k: nat :: c < k < hi ==> PlainChar(s[k]);
    FindLastAt(lo, hi, Locate(s, ','), c);
  }

  // ---------------------------------------------------------------------
  // Last-write-wins collection of keyed entries
  // ---------------------------------------------------------------------

  /** Storing each entry in turn into a dictionary. */
  function Collect<V>(entries: seq<(nat, V)>): (m: map<nat, V>)
    ensures m.Keys == set i | 0 <= i < |entries| :: entries[i].0
    decreases |entries|
  {
    if |entries| == 0 then map[]
    else
      var last := entries[|entries| - 1];
      var front := entries[..|entries| - 1];
      var m := Collect(front);
      assert forall i :: 0 <= i < |front| ==> front[i] == entries[i];
      m[last.0 := last.1]
  }

  /** A key holds the value of the last entry that names it. */
  lemma {:induction false} CollectLast<V>(entries: seq<(nat, V)>, i: nat)
    requires i < |entries|
    requires forall j :: i < j < |entries| ==> entries[j].0 != entries[i].0
    ensures Collect(entries)[entries[i].0] == entries[i].1
    decreases |entries|
  {
    var n := |entries| - 1;
    if i < n {
      var front := entries[..n];
      CollectLast(front, i);
    }
  }

  // ---------------------------------------------------------------------
  // get_connections: findall of "(\d+),(\d+)"
  // ---------------------------------------------------------------------

  /** A quoted pair tried at `i`: the two port numbers and where the match
      ends. */
  function PairAt(s: string, i: nat): (r: Option<((nat, nat), nat)>)
    ensures r.Some? ==> i < r.value.1
  {
    if i >= |s| || s[i] != '"' then None
    else
      var e := RunEnd(s, i + 1, IsDigit);
      if e == i + 1 || e >= |s| || s[e] != ',' then None
      else
        var f := RunEnd(s, e + 1, IsDigit);
        if f == e + 1 || f >= |s| || s[f] != '"' then None
        else Some(((RunValue(s, i + 1, e), RunValue(s, e + 1, f)), f + 1))
  }

  function PairMatcher(s: string): nat -> Option<((nat, nat), nat)>
  {
    (i: nat) => PairAt(s, i)
  }

  /** `re.findall` of the quoted pair pattern. */
  function Pairs(s: string): seq<(nat, nat)>
  {
    FindAll(s, 0, PairMatcher(s))
  }

  /** Each pair as the two entries `update({src: dst, dst: src})` stores. */
  function BothWays(pairs: seq<(nat, nat)>): (e: seq<(nat, nat)>)
    ensures |e| == 2 * |pairs|
    ensures forall i :: 0 <= i < |pairs| ==> e[2 * i] == pairs[i] && e[2 * i + 1] == (pairs[i].1, pairs[i].0)
  {
    if |pairs| == 0 then []
    else [pairs[0], (pairs[0].1, pairs[0].0)] + BothWays(pairs[1..])
  }

  /** The physical connection table: every pair both ways, later pairs
      overwriting earlier ones. */
  function Connections(pairs: seq<(nat, nat)>): (m: map<nat, nat>)
    ensures forall p :: p in m <==> exists i :: 0 <= i < |pairs| && (pairs[i].0 == p || pairs[i].1 == p)
  {
    ConnectionsKeys(pairs);
    Collect(BothWays(pairs))
  }

  /** The ports of the table are those the pairs name. */
  lemma ConnectionsKeys(pairs: seq<(nat, nat)>)
    ensures forall p :: p in Collect(BothWays(pairs)) <==>
      exists i :: 0 <= i < |pairs| && (pairs[i].0 == p || pairs[i].1 == p)
  {
    var e := BothWays(pairs);
    assert Collect(e).Keys == set j | 0 <= j < |e| :: e[j].0;
    forall p | p in Collect(e)
      ensures exists i :: 0 <= i < |pairs| && (pairs[i].0 == p || pairs[i].1 == p)
    {
      var j :| 0 <= j < |e| && e[j].0 == p;
      var i := BothWaysSource(pairs, j);
      assert pairs[i].0 == p || pairs[i].1 == p;
    }
    forall p | exists i :: 0 <= i < |pairs| && (pairs[i].0 == p || pairs[i].1 == p)
      ensures p in Collect(e)
    {
      var i :| 0 <= i < |pairs| && (pairs[i].0 == p || pairs[i].1 == p);
      if pairs[i].0 == p { assert e[2 * i].0 == p; } else { assert e[2 * i + 1].0 == p; }
    }
  }

  /** The pair behind entry `j` of `BothWays`. */
  lemma BothWaysSource(pairs: seq<(nat, nat)>, j: nat) returns (i: nat)
    requires j < 2 * |pairs|
    ensures i < |pairs|
    ensures BothWays(pairs)[j] == pairs[i] || BothWays(pairs)[j] == (pairs[i].1, pairs[i].0)
  {
    i := j / 2;
    var e := BothWays(pairs);
    if j % 2 == 0 {
      assert j == 2 * i;
      assert e[2 * i] == pairs[i];
    } else {
      assert j == 2 * i + 1;
      assert e[2 * i + 1] == (pairs[i].1, pairs[i].0);
    }
  }

  /** A port is in the table iff some pair names it, and it is paired
      with its partner in the last pair that names it. */
  lemma ConnectionsLast(pairs: seq<(nat, nat)>, i: nat, port: nat)
    requires i < |pairs| && (pairs[i].0 == port || pairs[i].1 == port)
    requires forall j :: i < j < |pairs| ==> pairs[j].0 != port && pairs[j].1 != port
    ensures port in Connections(pairs)
    ensures Connections(pairs)[port] == if pairs[i].1 == port then pairs[i].0 else pairs[i].1
  {
    var e := BothWays(pairs);
    if pairs[i].1 == port {
      forall j | 2 * i + 1 < j < |e|
        ensures e[j].0 != port
      {
        if j % 2 == 0 { assert e[j] == pairs[j / 2]; } else { assert e[j] == (pairs[j / 2].1, pairs[j / 2].0); }
      }
      CollectLast(e, 2 * i + 1);
    } else {
      forall j | 2 * i < j < |e|
        ensures e[j].0 != port
      {
        if j % 2 == 0 { assert e[j] == pairs[j / 2]; } else { assert e[j] == (pairs[j / 2].1, pairs[j / 2].0); }
      }
      CollectLast(e, 2 * i);
    }
  }

  /** Every port is paired back with the port it is paired with. */
  predicate Involutive(m: map<nat, nat>) {
    forall k :: k in m ==> m[k] in m && m[m[k]] == k
  }

  /** When no port appears in two pairs the table is symmetric. */
  lemma {:induction false} DisjointPairsSymmetric(pairs: seq<(nat, nat)>)
    requires forall i, j :: 0 <= i < j < |pairs| ==>
      pairs[i].0 != pairs[j].0 && pairs[i].0 != pairs[j].1 && pairs[i].1 != pairs[j].0 && pairs[i].1 != pairs[j].1
    ensures Involutive(Connections(pairs))
  {
    var m := Connections(pairs);
    forall k | k in m
      ensures m[k] in m && m[m[k]] == k
    {
      var e := BothWays(pairs);
      var j :| 0 <= j < |e| && e[j].0 == k;
      var i := j / 2;
      assert pairs[i].0 == k || pairs[i].1 == k by {
        if j % 2 == 0 { assert e[j] == pairs[i]; } else { assert e[j] == (pairs[i].1, pairs[i].0); }
      }
      ConnectionsLast(pairs, i, k);
      var p := m[k];
      assert pairs[i].0 == p || pairs[i].1 == p;
      ConnectionsLast(pairs, i, p);
    }
  }

  // ---------------------------------------------------------------------
  // get_connections in logical mode
  // ---------------------------------------------------------------------

  /** One step of the logical remapping loop for the entry (src, dst). */
  function RemapStep(fixed: map<nat, nat>, src: nat, dst: nat, logical: nat): map<nat, nat>
  {
    if src > logical then fixed[src - logical := dst]
    else if dst > logical then fixed[dst - logical := src]
    else fixed
  }

  /** The remapping loop over the table's keys in the dictionary's
      iteration order `order`. */
  function Remap(m: map<nat, nat>, order: seq<nat>, logical: nat, fixed: map<nat, nat>): (r: map<nat, nat>)
    requires forall i :: 0 <= i < |order| ==> order[i] in m
    ensures fixed.Keys <= r.Keys
    ensures forall j :: j in r && j !in fixed ==> j >= 1 && (j + logical in m.Keys || j + logical in m.Values)
    decreases |order|
  {
    if |order| == 0 then fixed
    else Remap(m, order[1..], logical, RemapStep(fixed, order[0], m[order[0]], logical))
  }

  /** An iteration order: every key exactly once. */
  predicate IsOrder(m: map<nat, nat>, order: seq<nat>) {
    (forall i :: 0 <= i < |order| ==> order[i] in m) &&
    (forall k :: k in m ==> k in order) &&
    (forall i, j :: 0 <= i < j < |order| ==> order[i] != order[j])
  }

  /** The partner a logical port `j` has in the table: that of physical
      port j + L, when there is one. */
  function Partner(m: map<nat, nat>, logical: nat, j: nat): Option<nat>
  {
    if j > 0 && j + logical in m then Some(m[j + logical]) else None
  }

  /** The ports above the logical count, shifted down. */
  function Shifted(m: map<nat, nat>, logical: nat): (r: set<nat>)
    ensures forall j :: j in r <==> Partner(m, logical, j).Some?
  {
    var r := set k | k in m && k > logical :: (k - logical) as nat;
    assert forall j: nat :: Partner(m, logical, j).Some? ==> ((j + logical) - logical) as nat in r;
    r
  }

  /** The logical table a symmetric physical table stands for: each port
      above the logical count, shifted down, with its partner. */
  function LogicalTable(m: map<nat, nat>, logical: nat): (r: map<nat, nat>)
    ensures forall j :: j in r <==> Partner(m, logical, j).Some?
    ensures Agrees(m, logical, r)
  {
    map j | j in Shifted(m, logical) :: Partner(m, logical, j).value
  }

  /** Every entry of `fixed` is a logical port with its partner. */
  predicate Agrees(m: map<nat, nat>, logical: nat, fixed: map<nat, nat>) {
    forall j :: j in fixed ==> Partner(m, logical, j) == Some(fixed[j])
  }

  /** `get_connections(L, is_logical=True)`: for a symmetric table the
      result does not depend on the dictionary's iteration order; it is
      the logical table. */
  lemma RemapIsLogicalTable(m: map<nat, nat>, order: seq<nat>, logical: nat)
    requires Involutive(m) && IsOrder(m, order)
    ensures Remap(m, order, logical, map[]) == LogicalTable(m, logical)
  {
    var r := Remap(m, order, logical, map[]);
    var t := LogicalTable(m, logical);
    RemapSound(m, order, logical, map[]);
    forall j | j in t
      ensures j in r
    {
      var k := j + logical;
      assert Partner(m, logical, j).Some?;
      RemapCovers(m, order, logical, map[], k);
    }
    assert r.Keys == t.Keys;
  }

  /** Every entry the loop writes agrees with the logical table. */
  lemma {:induction false} RemapSound(m: map<nat, nat>, order: seq<nat>, logical: nat, fixed: map<nat, nat>)
    requires Involutive(m)
    requires forall i :: 0 <= i < |order| ==> order[i] in m
    requires Agrees(m, logical, fixed)
    ensures Agrees(m, logical, Remap(m, order, logical, fixed))
    decreases |order|
  {
    if |order| > 0 {
      var src: nat := order[0];
      var dst := m[src];
      var next := RemapStep(fixed, src, dst, logical);
      if src > logical {
        assert Partner(m, logical, src - logical) == Some(dst);
      } else if dst > logical {
        assert Partner(m, logical, dst - logical) == Some(src);
      }
      assert Agrees(m, logical, next);
      RemapSound(m, order[1..], logical, next);
    }
  }

  /** A key above the logical count that the order visits ends up shifted
      in the result. */
  lemma {:induction false} RemapCovers(m: map<nat, nat>, order: seq<nat>, logical: nat, fixed: map<nat, nat>, k: nat)
    requires forall i :: 0 <= i < |order| ==> order[i] in m
    requires k > logical && (k in order || k - logical in fixed)
    ensures k - logical in Remap(m, order, logical, fixed)
    decreases |order|
  {
    if |order| > 0 {
      var next := RemapStep(fixed, order[0], m[order[0]], logical);
      assert k - logical in fixed ==> k - logical in next;
      if order[0] == k {
        assert k - logical in next;
      } else if k in order {
        assert k in order[1..];
      }
      RemapCovers(m, order[1..], logical, next, k);
    }
  }

  /** `get_connections`: the physical table, or its logical remapping. */
  function GetConnections(output: string, logical: nat, isLogical: bool, order: seq<nat>): (r: map<nat, nat>)
    requires IsOrder(Connections(Pairs(output)), order)
    ensures !isLogical ==> r == Connections(Pairs(output))
    ensures isLogical && Involutive(Connections(Pairs(output))) ==> r == LogicalTable(Connections(Pairs(output)), logical)
  {
    var m := Connections(Pairs(output));
    if isLogical then
      assert Involutive(m) ==> Remap(m, order, logical, map[]) == LogicalTable(m, logical) by {
        if Involutive(m) { RemapIsLogicalTable(m, order, logical); }
      }
      Remap(m, order, logical, map[])
    else m
  }

  // ---------------------------------------------------------------------
  // Port status, power and wavelength readers
  // ---------------------------------------------------------------------

  /** The common head `"(\d+):` of the reader patterns tried at `i`: the
      colon that ends the port digits. The digit run is greedy, and a
      shorter one would leave a digit where the colon must be. */
  function PortAt(s: string, i: nat): (r: Option<nat>)
    ensures r.Some? ==> i + 1 < r.value < |s| && s[r.value] == ':'
    ensures r.Some? ==> forall k :: i < k < r.value ==> IsDigit(s[k])
  {
    if i >= |s| || s[i] != '"' then None
    else
      var e := RunEnd(s, i + 1, IsDigit);
      if e == i + 1 || e >= |s| || s[e] != ':' then None
      else Some(e)
  }

  /** `(\S+)"` after the colon at `e`: the greedy `\S+` backs off to the
      last quote of the non-space run, which closes the value. */
  function ValueEnd(s: string, e: nat): (r: Option<nat>)
    ensures r.Some? ==> e + 1 < r.value < |s| && s[r.value] == '"'
  {
    match FindLast(e + 2, RunEnd(s, e + 1, NotSpace), Locate(s, '"'))
    case None => None
    case Some((q, _)) => Some(q)
  }

  /** `(\S+?),` after the colon at `e`: the lazy value stops at the first
      comma of the non-space run. */
  function WaveComma(s: string, e: nat): (r: Option<nat>)
    ensures r.Some? ==> e + 1 < r.value < |s| && s[r.value] == ','
  {
    match FindFirst(e + 2, RunEnd(s, e + 1, NotSpace), Locate(s, ','))
    case None => None
    case Some((c, _)) => Some(c)
  }

  /** `.*"` after the comma at `c`: the last quote of the line. */
  function LineQuote(s: string, c: nat): (r: Option<nat>)
    requires c < |s|
    ensures r.Some? ==> c < r.value < |s| && s[r.value] == '"'
  {
    match FindLast(c + 1, LineEnd(s, c + 1), Locate(s, '"'))
    case None => None
    case Some((q, _)) => Some(q)
  }

  /** `"(\d+):(\S+)"` tried at `i`: the port, the value and the match end. */
  function ValueAt(s: string, i: nat): (r: Option<((nat, string), nat)>)
    ensures r.Some? ==> i < r.value.1
  {
    match PortAt(s, i)
    case None => None
    case Some(e) =>
      match ValueEnd(s, e)
      case None => None
      case Some(q) => Some(((RunValue(s, i + 1, e), s[e + 1..q]), q + 1))
  }

  /** `"(\d+):(\S+?),.*"` tried at `i`: the value runs to the first comma
      of the non-space run and the match to the line's last quote, which
      must lie beyond that comma. */
  function WaveAt(s: string, i: nat): (r: Option<((nat, string), nat)>)
    ensures r.Some? ==> i < r.value.1
  {
    match PortAt(s, i)
    case None => None
    case Some(e) =>
      match WaveComma(s, e)
      case None => None
      case Some(c) =>
        match LineQuote(s, c)
        case None => None
        case Some(q) => Some(((RunValue(s, i + 1, e), s[e + 1..c]), q + 1))
  }

  function ValueMatcher(s: string): nat -> Option<((nat, string), nat)>
  {
    (i: nat) => ValueAt(s, i)
  }

  function WaveMatcher(s: string): nat -> Option<((nat, string), nat)>
  {
    (i: nat) => WaveAt(s, i)
  }

  /** `get_port_status` / `get_port_power`: the query's output, or the
      exception it raised; the `return` in `finally` turns every failure
      into whatever was collected, here nothing. */
  function PortValues(output: Result<string, string>): (r: map<nat, string>)
    ensures output.Err? ==> r == map[]
    ensures output.Ok? ==> r == Collect(FindAll(output.value, 0, ValueMatcher(output.value)))
  {
    match output
    case Err(_) => map[]
    case Ok(s) => Collect(FindAll(s, 0, ValueMatcher(s)))
  }

  /** `get_port_wavelength`, likewise never raising. */
  function PortWavelengths(output: Result<string, string>): (r: map<nat, string>)
    ensures output.Err? ==> r == map[]
    ensures output.Ok? ==> r == Collect(FindAll(output.value, 0, WaveMatcher(output.value)))
  {
    match output
    case Err(_) => map[]
    case Ok(s) => Collect(FindAll(s, 0, WaveMatcher(s)))
  }

  /** A value text: non-empty, without spaces or quotes. */
  predicate Token(x: string) {
    |x| > 0 && forall k :: 0 <= k < |x| ==> x[k] != '"' && !IsSpace(x[k])
  }
  predicate Tokens(entries: seq<(nat, string)>) {
    forall i :: 0 <= i < |entries| ==> Token(entries[i].1)
  }


  /** An entry at `i` — a quote, digits up to the colon at `e`, a token
      without spaces or quotes, and the closing quote at `q` followed by a
      space or the end — reads back as its port and token, and the match
      ends just after it. */
  lemma ValueAtEntry(s: string, i: nat, e: nat, q: nat)
    requires PortShape(s, i, e) && ValueShape(s, e, q)
    ensures ValueAt(s, i) == Some(((RunValue(s, i + 1, e), s[e + 1..q]), q + 1))
  {
    PortAtEntry(s, i, e);
    LastQuote(s, e, q);
  }

  /** A quote at `i`, then digits up to the colon at `e`. */
  predicate PortShape(s: string, i: nat, e: nat) {
    i + 1 < e < |s| && s[i] == '"' && s[e] == ':' && forall k :: i < k < e ==> IsDigit(s[k])
  }

  /** A token without spaces or quotes after the colon at `e`, closed by
      the quote at `q`, which a space or the end of the text follows. */
  predicate ValueShape(s: string, e: nat, q: nat) {
    e + 1 < q < |s| && s[q] == '"' &&
    (forall k :: e < k < q ==> s[k] != '"' && !IsSpace(s[k])) &&
    (q + 1 < |s| ==> IsSpace(s[q + 1]))
  }

  lemma PortAtEntry(s: string, i: nat, e: nat)
    requires PortShape(s, i, e)
    ensures PortAt(s, i) == Some(e)
  {
    RunEndAt(s, i + 1, e, IsDigit);
  }

  /** The token ends at the last quote of the non-space run. */
  lemma LastQuote(s: string, e: nat, q: nat)
    requires ValueShape(s, e, q)
    ensures ValueEnd(s, e) == Some(q)
  {
    assert NotSpace(s[q]);
    RunEndAt(s, e + 1, q + 1, NotSpace);
    FindLastAt(e + 2, q + 1, Locate(s, '"'), q);
  }

  /** A wavelength entry at `i` — digits up to the colon at `e`, a token
      without spaces up to the first comma at `c`, and a quote at `q` that
      ends its line — reads back as its port and the text before the
      comma, and the match runs to the end of the line's last quote. */
  lemma WaveAtEntry(s: string, i: nat, e: nat, c: nat, q: nat)
    requires PortShape(s, i, e) && CommaShape(s, e, c) && LineQuoteShape(s, c, q)
    ensures WaveAt(s, i) == Some(((RunValue(s, i + 1, e), s[e + 1..c]), q + 1))
  {
    PortAtEntry(s, i, e);
    FirstComma(s, e, c);
    LastQuoteOfLine(s, c, q);
  }

  /** A token without spaces or commas after the colon at `e`, ended by
      the comma at `c`. */
  predicate CommaShape(s: string, e: nat, c: nat) {
    e + 1 < c < |s| && s[c] == ',' && forall k :: e < k < c ==> s[k] != ',' && !IsSpace(s[k])
  }

  /** A quote at `q` that ends the line the comma at `c` is on. */
  predicate LineQuoteShape(s: string, c: nat, q: nat) {
    c < q < |s| && s[q] == '"' &&
    (forall k :: c < k < q ==> s[k] != '\n') &&
    (q + 1 < |s| ==> s[q + 1] == '\n')
  }

  /** `.*"` after the comma runs to the line's last quote. */
  lemma LastQuoteOfLine(s: string, c: nat, q: nat)
    requires LineQuoteShape(s, c, q)
    ensures LineQuote(s, c) == Some(q)
  {
    LineEndAt(s, c + 1, q + 1);
    FindLastAt(c + 1, q + 1, Locate(s, '"'), q);
  }

  /** The lazy wavelength token stops at the first comma of the run. */
  lemma FirstComma(s: string, e: nat, c: nat)
    requires CommaShape(s, e, c)
    ensures WaveComma(s, e) == Some(c)
  {
    assert NotSpace(s[c]);
    RunEndPast(s, e + 1, c, NotSpace);
    FindFirstAt(e + 2, RunEnd(s, e + 1, NotSpace), Locate(s, ','), c);
  }

  /** A status or power reply holding one entry gives that port its
      value. */
  lemma PortValuesOfEntry(port: nat, value: string)
    requires Token(value)
    ensures PortValues(Ok("\"" + NatToString(port) + ":" + value + "\"")) == map[port := value]
  {
    var s := "\"" + NatToString(port) + ":" + value + "\"";
    EntryReads(port, value);
    OnlyMatch(s, ValueMatcher(s), (port, value));
  }

  /** The one entry matches at the start and runs to the end. */
  lemma EntryReads(port: nat, value: string)
    requires Token(value)
    ensures var s := "\"" + NatToString(port) + ":" + value + "\"";
      ValueAt(s, 0) == Some(((port, value), |s|))
  {
    var d := NatToString(port);
    EntryLayout(d, value);
    NatToStringRoundTrip(port);
    EntryAt("\"" + d + ":" + value + "\"", d, value, 1 + |d|, 2 + |d| + |value|);
  }

  lemma EntryAt(s: string, d: string, value: string, e: nat, q: nat)
    requires PortShape(s, 0, e) && ValueShape(s, e, q)
    requires s[1..e] == d && s[e + 1..q] == value && q + 1 == |s|
    ensures ValueAt(s, 0) == Some(((DigitsValue(d), value), |s|))
  {
    ValueAtEntry(s, 0, e, q);
  }

  /** Where the parts of a one-entry reply sit. */
  lemma EntryLayout(d: string, value: string)
    requires AllDigits(d) && |d| > 0 && Token(value)
    ensures var s := "\"" + d + ":" + value + "\"";
      var e := 1 + |d|;
      var q := e + 1 + |value|;
      PortShape(s, 0, e) && ValueShape(s, e, q) && s[1..e] == d && s[e + 1..q] == value && q + 1 == |s|
  {
    var s := "\"" + d + ":" + value + "\"";
    var e := 1 + |d|;
    var q := e + 1 + |value|;
    assert s[1..e] == d && s[e + 1..q] == value;
    assert forall k :: 0 < k < e ==> s[k] == d[k - 1];
    assert forall k :: e < k < q ==> s[k] == value[k - e - 1];
  }

  // ---------------------------------------------------------------------
  // Whole replies: a listing of entries between quote-free text
  // ---------------------------------------------------------------------

  /** A status or power entry as the switch prints it: `"<port>:<value>"`. */
  function Entry(port: nat, value: string): string
  {
    "\"" + NatToString(port) + ":" + value + "\""
  }

  /** The entries in order, each followed by the separator. */
  function Listing(entries: seq<(nat, string)>, sep: string): string
    decreases |entries|
  {
    if |entries| == 0 then ""
    else Entry(entries[0].0, entries[0].1) + sep + Listing(entries[1..], sep)
  }

  predicate NoQuote(t: string) {
    forall k :: 0 <= k < |t| ==> t[k] != '"'
  }

  /** A separator a value token can end at: it opens with whitespace and
      holds no quote. */
  predicate ValueSep(sep: string) {
    |sep| > 0 && IsSpace(sep[0]) && NoQuote(sep)
  }

  /** A status or power reply — quote-free text, a listing of entries,
      quote-free text — gives each listed port the value of its last
      entry, and no other port a value. */
  lemma PortValuesOfListing(head: string, entries: seq<(nat, string)>, sep: string, tail: string)
    requires NoQuote(head) && NoQuote(tail) && ValueSep(sep)
    requires Tokens(entries)
    ensures PortValues(Ok(head + Listing(entries, sep) + tail)).Keys ==
      set i | 0 <= i < |entries| :: entries[i].0
    ensures forall i :: 0 <= i < |entries| && (forall j :: i < j < |entries| ==> entries[j].0 != entries[i].0) ==>
      PortValues(Ok(head + Listing(entries, sep) + tail))[entries[i].0] == entries[i].1
  {
    var s := head + Listing(entries, sep) + tail;
    var m := ValueMatcher(s);
    var l := Listing(entries, sep);
    assert FindAll(s, 0, m) == entries by {
      assert forall k :: 0 <= k < |head| ==> s[k] == head[k];
      assert forall k :: |head| + |l| <= k < |s| ==> s[k] == tail[k - |head| - |l|];
      assert s[|head|..|head| + |l|] == l;
      FindAllSkip(s, 0, |head|, m);
      FindAllListing(s, |head|, entries, sep);
    }
    forall i | 0 <= i < |entries| && (forall j :: i < j < |entries| ==> entries[j].0 != entries[i].0)
      ensures Collect(entries)[entries[i].0] == entries[i].1
    {
      CollectLast(entries, i);
    }
  }

  /** From the start of a listing on, with no quote after it, the matches
      are its entries. */
  lemma {:induction false} FindAllListing(s: string, i: nat, entries: seq<(nat, string)>, sep: string)
    requires ValueSep(sep)
    requires Tokens(entries)
    requires i + |Listing(entries, sep)| <= |s| && s[i..i + |Listing(entries, sep)|] == Listing(entries, sep)
    requires forall k :: i + |Listing(entries, sep)| <= k < |s| ==> s[k] != '"'
    ensures FindAll(s, i, ValueMatcher(s)) == entries
    decreases |entries|
  {
    var m := ValueMatcher(s);
    if |entries| == 0 {
      assert FindAll(s, i, m) == FindAll(s, |s| + 1, m) by {
        NoValueIn(s, i, |s|);
        FindAllSkip(s, i, |s| + 1, m);
      }
    } else {
      var next := i + |Entry(entries[0].0, entries[0].1)| + |sep|;
      assert FindAll(s, i, m) == [entries[0]] + entries[1..] by {
        ListingStep(s, i, entries, sep, next);
        FindAllListing(s, next, entries[1..], sep);
      }
      assert entries == [entries[0]] + entries[1..];
    }
  }

  /** One step through a listing: the first entry is the first match, and
      the rest of the listing starts at `next`. */
  lemma ListingStep(s: string, i: nat, entries: seq<(nat, string)>, sep: string, next: nat)
    requires |entries| > 0 && ValueSep(sep)
    requires Tokens(entries)
    requires i + |Listing(entries, sep)| <= |s| && s[i..i + |Listing(entries, sep)|] == Listing(entries, sep)
    requires next == i + |Entry(entries[0].0, entries[0].1)| + |sep|
    ensures Tokens(entries[1..])
    ensures next + |Listing(entries[1..], sep)| == i + |Listing(entries, sep)|
    ensures s[next..next + |Listing(entries[1..], sep)|] == Listing(entries[1..], sep)
    ensures FindAll(s, i, ValueMatcher(s)) == [entries[0]] + FindAll(s, next, ValueMatcher(s))
  {
    var x := entries[0];
    ListingSplit(s, i, entries, sep, Entry(x.0, x.1), next);
    ListingHead(s, i, x, sep, next);
    assert Tokens(entries[1..]) by {
      assert forall n :: 0 <= n < |entries| - 1 ==> entries[1..][n] == entries[n + 1];
    }
  }

  /** A listing inside a reply splits into its first entry, the
      separator and the rest of the listing. */
  lemma ListingSplit(s: string, i: nat, entries: seq<(nat, string)>, sep: string, e: string, next: nat)
    requires |entries| > 0 && e == Entry(entries[0].0, entries[0].1)
    requires i + |Listing(entries, sep)| <= |s| && s[i..i + |Listing(entries, sep)|] == Listing(entries, sep)
    requires next == i + |e| + |sep|
    ensures next + |Listing(entries[1..], sep)| == i + |Listing(entries, sep)|
    ensures s[i..i + |e|] == e && s[i + |e|..next] == sep
    ensures s[next..next + |Listing(entries[1..], sep)|] == Listing(entries[1..], sep)
  {
    var rest := Listing(entries[1..], sep);
    assert Listing(entries, sep) == (e + sep) + rest;
    SliceSplit(s, i, e + sep, rest);
    SliceSplit(s, i, e, sep);
  }

  /** The first entry of a listing is its first match, and the search
      resumes after the separator that follows it, at `next`. */
  lemma ListingHead(s: string, i: nat, x: (nat, string), sep: string, next: nat)
    requires ValueSep(sep) && Token(x.1)
    requires next == i + |Entry(x.0, x.1)| + |sep| <= |s|
    requires s[i..i + |Entry(x.0, x.1)|] == Entry(x.0, x.1) && s[i + |Entry(x.0, x.1)|..next] == sep
    ensures FindAll(s, i, ValueMatcher(s)) == [x] + FindAll(s, next, ValueMatcher(s))
  {
    var m := ValueMatcher(s);
    var e := Entry(x.0, x.1);
    assert m(i) == Some((x, i + |e|)) by {
      assert s[i + |e|] == s[i + |e|..next][0];
      EntryIn(s, i, x.0, x.1);
    }
    assert forall k :: i + |e| <= k < next ==> m(k).None? by {
      QuoteFreeSlice(s, i + |e|, sep);
      NoValueIn(s, i + |e|, next);
    }
    FindAllStep(s, i, next, m);
  }

  /** A stretch that spells a quote-free text holds no quote. */
  lemma QuoteFreeSlice(s: string, a: nat, t: string)
    requires a + |t| <= |s| && s[a..a + |t|] == t && NoQuote(t)
    ensures forall k :: a <= k < a + |t| ==> s[k] != '"'
  {
    assert forall k :: a <= k < a + |t| ==> s[k] == t[k - a];
  }

  /** No entry starts in a stretch without quotes. */
  lemma NoValueIn(s: string, a: nat, b: nat)
    requires b <= |s|
    requires forall k :: a <= k < b ==> s[k] != '"'
    ensures forall k :: a <= k < b ==> ValueAt(s, k).None?
    ensures b == |s| ==> ValueAt(s, b).None?
  {
    forall k | a <= k < b
      ensures ValueAt(s, k).None?
    {
      NoValueAt(s, k);
    }
    NoValueAt(s, |s|);
  }

  /** No entry starts where there is no quote. */
  lemma NoValueAt(s: string, k: nat)
    requires k >= |s| || s[k] != '"'
    ensures ValueAt(s, k).None?
  {
  }

  /** An entry inside a reply, followed by whitespace or the end, reads
      back as its port and value, and the match ends just after it. */
  lemma EntryIn(s: string, i: nat, port: nat, value: string)
    requires Token(value)
    requires i + |Entry(port, value)| <= |s| && s[i..i + |Entry(port, value)|] == Entry(port, value)
    requires i + |Entry(port, value)| < |s| ==> IsSpace(s[i + |Entry(port, value)|])
    ensures ValueAt(s, i) == Some(((port, value), i + |Entry(port, value)|))
  {
    var d := NatToString(port);
    var t := Entry(port, value);
    var e := i + 1 + |d|;
    var q := e + 1 + |value|;
    EntryParts(port, value, t, d);
    EntryTextShapes(s, i, t, d, value, e, q);
    assert RunValue(s, i + 1, e) == port by {
      NatToStringRoundTrip(port);
    }
    assert ValueAt(s, i) == Some(((RunValue(s, i + 1, e), s[e + 1..q]), q + 1)) by {
      ValueAtEntry(s, i, e, q);
    }
  }

  /** The shape an entry text `t` spelt out at `i` gives the pattern — a
      quote, the digits `d`, a colon at `e`, the value and the closing
      quote at `q`, followed by a space or the end. */
  lemma EntryTextShapes(s: string, i: nat, t: string, d: string, value: string, e: nat, q: nat)
    requires Token(value) && |d| > 0 && AllDigits(d)
    requires |t| == |d| + |value| + 3
    requires t[0] == '"' && t[|d| + 1] == ':' && t[|t| - 1] == '"'
    requires forall k :: 0 <= k < |d| ==> t[k + 1] == d[k]
    requires forall k :: 0 <= k < |value| ==> t[|d| + 2 + k] == value[k]
    requires i + |t| <= |s| && s[i..i + |t|] == t
    requires i + |t| < |s| ==> IsSpace(s[i + |t|])
    requires e == i + 1 + |d| && q == e + 1 + |value|
    ensures PortShape(s, i, e) && ValueShape(s, e, q)
    ensures s[i + 1..e] == d && s[e + 1..q] == value && q + 1 == i + |t|
  {
    InEntry(s, i, t);
    InEntryPort(s, i, t, d, e);
    InEntryValue(s, i, t, |d|, value, e, q);
  }

  /** Where the parts of an entry `t`, whose port is spelt `d`, sit in
      its text. */
  lemma EntryParts(port: nat, value: string, t: string, d: string)
    requires t == Entry(port, value) && d == NatToString(port)
    ensures |t| == |d| + |value| + 3
    ensures t[0] == '"' && t[|d| + 1] == ':' && t[|t| - 1] == '"'
    ensures forall k :: 0 <= k < |d| ==> t[k + 1] == d[k]
    ensures forall k :: 0 <= k < |value| ==> t[|d| + 2 + k] == value[k]
  {
  }

  /** The value after the colon at `e`, up to the closing quote at `q`, of
      an entry `t` spelt out at `i` whose port takes `dl` digits. */
  lemma InEntryValue(s: string, i: nat, t: string, dl: nat, value: string, e: nat, q: nat)
    requires Token(value) && |t| == dl + |value| + 3 && i + |t| <= |s|
    requires forall k :: i <= k < i + |t| ==> s[k] == t[k - i]
    requires forall k :: 0 <= k < |value| ==> t[dl + 2 + k] == value[k]
    requires t[|t| - 1] == '"'
    requires i + |t| < |s| ==> IsSpace(s[i + |t|])
    requires e == i + 1 + dl && q == e + 1 + |value|
    ensures ValueShape(s, e, q) && s[e + 1..q] == value && q + 1 == i + |t|
  {
    assert forall k :: e < k < q ==> s[k] == value[k - e - 1] by {
      assert forall k :: e < k < q ==> s[k] == t[dl + 2 + (k - e - 1)];
    }
    assert s[q] == t[|t| - 1];
  }

  /** A wavelength entry as the switch prints it:
      `"<port>:<wave>,<more>"`. */
  function WaveEntry(port: nat, wave: string, more: string): string
  {
    "\"" + NatToString(port) + ":" + wave + "," + more + "\""
  }

  /** The wavelength entries in order, each followed by the separator. */
  function WaveListing(entries: seq<(nat, string, string)>, sep: string): string
    decreases |entries|
  {
    if |entries| == 0 then ""
    else WaveEntry(entries[0].0, entries[0].1, entries[0].2) + sep + WaveListing(entries[1..], sep)
  }

  /** The port and wavelength of each entry. */
  function Waves(entries: seq<(nat, string, string)>): (r: seq<(nat, string)>)
    ensures |r| == |entries|
    ensures forall i :: 0 <= i < |r| ==> r[i] == (entries[i].0, entries[i].1)
  {
    seq(|entries|, i requires 0 <= i < |entries| => (entries[i].0, entries[i].1))
  }

  /** A wavelength text: non-empty, without spaces or commas. */
  predicate WaveToken(w: string) {
    |w| > 0 && forall k :: 0 <= k < |w| ==> w[k] != ',' && !IsSpace(w[k])
  }

  /** The rest of a wavelength entry stays on its line. */
  predicate OnOneLine(t: string) {
    forall k :: 0 <= k < |t| ==> t[k] != '\n'
  }

  /** A separator that ends the entry's line and holds no quote. */
  predicate WaveSep(sep: string) {
    |sep| > 0 && sep[0] == '\n' && NoQuote(sep)
  }

  predicate WaveEntries(entries: seq<(nat, string, string)>) {
    forall i :: 0 <= i < |entries| ==> WaveToken(entries[i].1) && OnOneLine(entries[i].2)
  }

  /** A wavelength reply — quote-free text, a listing of entries one per
      line, quote-free text — gives each listed port the text before the
      first comma of its last entry, and no other port a value. */
  lemma PortWavelengthsOfListing(head: string, entries: seq<(nat, string, string)>, sep: string, tail: string)
    requires NoQuote(head) && NoQuote(tail) && WaveSep(sep) && WaveEntries(entries)
    ensures PortWavelengths(Ok(head + WaveListing(entries, sep) + tail)).Keys ==
      set i | 0 <= i < |entries| :: entries[i].0
    ensures forall i :: 0 <= i < |entries| && (forall j :: i < j < |entries| ==> entries[j].0 != entries[i].0) ==>
      PortWavelengths(Ok(head + WaveListing(entries, sep) + tail))[entries[i].0] == entries[i].1
  {
    var s := head + WaveListing(entries, sep) + tail;
    var m := WaveMatcher(s);
    var l := WaveListing(entries, sep);
    var w := Waves(entries);
    assert FindAll(s, 0, m) == w by {
      assert forall k :: 0 <= k < |head| ==> s[k] == head[k];
      assert forall k :: |head| + |l| <= k < |s| ==> s[k] == tail[k - |head| - |l|];
      assert s[|head|..|head| + |l|] == l;
      NoWaveIn(s, 0, |head|);
      FindAllSkip(s, 0, |head|, m);
      FindAllWaves(s, |head|, entries, sep);
    }
    assert (set i | 0 <= i < |w| :: w[i].0) == set i | 0 <= i < |entries| :: entries[i].0;
    forall i | 0 <= i < |entries| && (forall j :: i < j < |entries| ==> entries[j].0 != entries[i].0)
      ensures Collect(w)[entries[i].0] == entries[i].1
    {
      CollectLast(w, i);
    }
  }

  /** From the start of a wavelength listing on, with no quote after it,
      the matches are its entries' ports and wavelengths. */
  lemma {:induction false} FindAllWaves(s: string, i: nat, entries: seq<(nat, string, string)>, sep: string)
    requires WaveSep(sep) && WaveEntries(entries)
    requires i + |WaveListing(entries, sep)| <= |s|
    requires s[i..i + |WaveListing(entries, sep)|] == WaveListing(entries, sep)
    requires forall k :: i + |WaveListing(entries, sep)| <= k < |s| ==> s[k] != '"'
    ensures FindAll(s, i, WaveMatcher(s)) == Waves(entries)
    decreases |entries|
  {
    if |entries| == 0 {
      NoWaveIn(s, i, |s|);
      FindAllSkip(s, i, |s| + 1, WaveMatcher(s));
    } else {
      var next := i + |WaveEntry(entries[0].0, entries[0].1, entries[0].2)| + |sep|;
      WavesStep(s, i, entries, sep, next);
      FindAllWaves(s, next, entries[1..], sep);
      WavesCons(entries);
    }
  }

  /** One step through a wavelength listing: the first entry is the first
      match, and the rest of the listing starts at `next`. */
  lemma WavesStep(s: string, i: nat, entries: seq<(nat, string, string)>, sep: string, next: nat)
    requires |entries| > 0 && WaveSep(sep) && WaveEntries(entries)
    requires i + |WaveListing(entries, sep)| <= |s|
    requires s[i..i + |WaveListing(entries, sep)|] == WaveListing(entries, sep)
    requires next == i + |WaveEntry(entries[0].0, entries[0].1, entries[0].2)| + |sep|
    ensures WaveEntries(entries[1..])
    ensures next + |WaveListing(entries[1..], sep)| == i + |WaveListing(entries, sep)|
    ensures s[next..next + |WaveListing(entries[1..], sep)|] == WaveListing(entries[1..], sep)
    ensures FindAll(s, i, WaveMatcher(s)) == [(entries[0].0, entries[0].1)] + FindAll(s, next, WaveMatcher(s))
  {
    var x := entries[0];
    var e := WaveEntry(x.0, x.1, x.2);
    WaveListingSplit(s, i, entries, sep, e, next);
    WaveListingHead(s, i, x, sep, next);
    assert WaveEntries(entries[1..]) by {
      assert forall n :: 0 <= n < |entries| - 1 ==> entries[1..][n] == entries[n + 1];
    }
  }

  /** A listing inside a reply splits into its first entry, the
      separator and the rest of the listing. */
  lemma WaveListingSplit(s: string, i: nat, entries: seq<(nat, string, string)>, sep: string, e: string, next: nat)
    requires |entries| > 0 && e == WaveEntry(entries[0].0, entries[0].1, entries[0].2)
    requires i + |WaveListing(entries, sep)| <= |s|
    requires s[i..i + |WaveListing(entries, sep)|] == WaveListing(entries, sep)
    requires next == i + |e| + |sep|
    ensures next + |WaveListing(entries[1..], sep)| == i + |WaveListing(entries, sep)|
    ensures s[i..i + |e|] == e && s[i + |e|..next] == sep
    ensures s[next..next + |WaveListing(entries[1..], sep)|] == WaveListing(entries[1..], sep)
  {
    var rest := WaveListing(entries[1..], sep);
    assert WaveListing(entries, sep) == (e + sep) + rest;
    SliceSplit(s, i, e + sep, rest);
    SliceSplit(s, i, e, sep);
  }

  lemma WavesCons(entries: seq<(nat, string, string)>)
    requires |entries| > 0
    ensures Waves(entries) == [(entries[0].0, entries[0].1)] + Waves(entries[1..])
  {
    var a := Waves(entries);
    var b := [(entries[0].0, entries[0].1)] + Waves(entries[1..]);
    assert |a| == |b|;
    forall n | 0 <= n < |a| ensures a[n] == b[n] {
      if n > 0 {
        assert b[n] == Waves(entries[1..])[n - 1];
      }
    }
  }

  /** The first wavelength entry is the first match, and the search
      resumes after the separator that follows it, at `next`. */
  lemma WaveListingHead(s: string, i: nat, x: (nat, string, string), sep: string, next: nat)
    requires WaveSep(sep) && WaveToken(x.1) && OnOneLine(x.2)
    requires next == i + |WaveEntry(x.0, x.1, x.2)| + |sep| <= |s|
    requires s[i..i + |WaveEntry(x.0, x.1, x.2)|] == WaveEntry(x.0, x.1, x.2)
    requires s[i + |WaveEntry(x.0, x.1, x.2)|..next] == sep
    ensures FindAll(s, i, WaveMatcher(s)) == [(x.0, x.1)] + FindAll(s, next, WaveMatcher(s))
  {
    var m := WaveMatcher(s);
    var e := WaveEntry(x.0, x.1, x.2);
    assert s[i + |e|] == '\n' by {
      assert s[i + |e|] == s[i + |e|..next][0];
    }
    assert WaveAt(s, i) == Some(((x.0, x.1), i + |e|)) by {
      WaveIn(s, i, x.0, x.1, x.2);
    }
    assert forall k :: i + |e| <= k < next ==> m(k).None? by {
      QuoteFreeSlice(s, i + |e|, sep);
      NoWaveIn(s, i + |e|, next);
    }
    FindAllStep(s, i, next, m);
  }

  /** A wavelength entry inside a reply, at the end of its line, reads
      back as its port and wavelength, and the match ends just after it. */
  lemma WaveIn(s: string, i: nat, port: nat, wave: string, more: string)
    requires WaveToken(wave) && OnOneLine(more)
    requires i + |WaveEntry(port, wave, more)| <= |s|
    requires s[i..i + |WaveEntry(port, wave, more)|] == WaveEntry(port, wave, more)
    requires i + |WaveEntry(port, wave, more)| < |s| ==> s[i + |WaveEntry(port, wave, more)|] == '\n'
    ensures WaveAt(s, i) == Some(((port, wave), i + |WaveEntry(port, wave, more)|))
  {
    var d := NatToString(port);
    var e := i + 1 + |d|;
    var c := e + 1 + |wave|;
    var q := c + 1 + |more|;
    var t := WaveEntry(port, wave, more);
    WaveEntryLayout(port, wave, more, t, d);
    WaveTextShapes(s, i, t, d, wave, more, e, c, q);
    assert RunValue(s, i + 1, e) == port by {
      NatToStringRoundTrip(port);
    }
    assert WaveAt(s, i) == Some(((RunValue(s, i + 1, e), s[e + 1..c]), q + 1)) by {
      WaveAtEntry(s, i, e, c, q);
    }
  }

  /** The shape an entry text `t` spelt out at `i` gives the pattern —
      a quote, the digits `d`, a colon at `e`, the wavelength, a comma at
      `c`, the rest `more` and the closing quote at `q`, at the end of its
      line. */
  lemma WaveTextShapes(s: string, i: nat, t: string, d: string, wave: string, more: string, e: nat, c: nat, q: nat)
    requires WaveToken(wave) && OnOneLine(more) && |d| > 0 && AllDigits(d)
    requires |t| == |d| + |wave| + |more| + 4
    requires t[0] == '"' && t[|d| + 1] == ':' && t[|d| + |wave| + 2] == ',' && t[|t| - 1] == '"'
    requires forall k :: 0 <= k < |d| ==> t[k + 1] == d[k]
    requires forall k :: 0 <= k < |wave| ==> t[|d| + 2 + k] == wave[k]
    requires forall k :: 0 <= k < |more| ==> t[|d| + |wave| + 3 + k] == more[k]
    requires i + |t| <= |s| && s[i..i + |t|] == t
    requires i + |t| < |s| ==> s[i + |t|] == '\n'
    requires e == i + 1 + |d| && c == e + 1 + |wave| && q == c + 1 + |more|
    ensures PortShape(s, i, e) && CommaShape(s, e, c) && LineQuoteShape(s, c, q)
    ensures s[i + 1..e] == d && s[e + 1..c] == wave && q + 1 == i + |t|
  {
    InEntry(s, i, t);
    InEntryPort(s, i, t, d, e);
    WaveInComma(s, i, t, |d|, wave, e, c);
    assert forall k :: 0 <= k < |more| ==> t[|t| - 1 - |more| + k] == more[k];
    WaveInQuote(s, i, t, more, c, q);
  }

  /** A text spelt out at `i` in `s`, character by character. */
  lemma InEntry(s: string, i: nat, t: string)
    requires i + |t| <= |s| && s[i..i + |t|] == t
    ensures forall k :: i <= k < i + |t| ==> s[k] == t[k - i]
  {
    assert forall k :: i <= k < i + |t| ==> s[k] == s[i..i + |t|][k - i];
  }

  /** The quote, the port digits `d` and the colon at the head of an
      entry `t` spelt out at `i`. */
  lemma InEntryPort(s: string, i: nat, t: string, d: string, e: nat)
    requires |d| > 0 && AllDigits(d) && |t| > |d| + 1 && i + |t| <= |s| && e == i + 1 + |d|
    requires forall k :: i <= k < i + |t| ==> s[k] == t[k - i]
    requires t[0] == '"' && t[|d| + 1] == ':'
    requires forall k :: 0 <= k < |d| ==> t[k + 1] == d[k]
    ensures PortShape(s, i, e) && s[i + 1..e] == d
  {
    assert forall k :: i < k < e ==> s[k] == d[k - i - 1] by {
      assert forall k :: i < k < e ==> s[k] == t[(k - i - 1) + 1];
    }
  }

  /** The wavelength after the colon at `e`, up to the comma at `c`, of
      an entry `t` spelt out at `i` whose port takes `dl` digits. */
  lemma WaveInComma(s: string, i: nat, t: string, dl: nat, wave: string, e: nat, c: nat)
    requires WaveToken(wave) && |t| > dl + |wave| + 2 && i + |t| <= |s|
    requires forall k :: i <= k < i + |t| ==> s[k] == t[k - i]
    requires forall k :: 0 <= k < |wave| ==> t[dl + 2 + k] == wave[k]
    requires t[dl + |wave| + 2] == ','
    requires e == i + 1 + dl && c == e + 1 + |wave|
    ensures CommaShape(s, e, c) && s[e + 1..c] == wave
  {
    assert forall k :: e < k < c ==> s[k] == wave[k - e - 1] by {
      assert forall k :: e < k < c ==> s[k] == t[dl + 2 + (k - e - 1)];
    }
    assert s[c] == t[dl + |wave| + 2];
  }

  /** The closing quote at `q` of an entry `t` spelt out at `i`, whose
      last part `more` after the comma at `c` stays on its line. */
  lemma WaveInQuote(s: string, i: nat, t: string, more: string, c: nat, q: nat)
    requires OnOneLine(more) && i + |t| <= |s|
    requires forall k :: i <= k < i + |t| ==> s[k] == t[k - i]
    requires i + |t| < |s| ==> s[i + |t|] == '\n'
    requires |t| >= |more| + 2 && t[|t| - 1] == '"'
    requires forall k :: 0 <= k < |more| ==> t[|t| - 1 - |more| + k] == more[k]
    requires c == i + |t| - 2 - |more| && q == c + 1 + |more|
    ensures LineQuoteShape(s, c, q) && q + 1 == i + |t|
  {
    assert forall k :: c < k < q ==> s[k] == more[k - c - 1] by {
      assert forall k :: c < k < q ==> s[k] == t[|t| - 1 - |more| + (k - c - 1)];
    }
  }

  /** Where the parts of a wavelength entry `t`, whose port is spelt
      `d`, sit in its text. */
  lemma WaveEntryLayout(port: nat, wave: string, more: string, t: string, d: string)
    requires t == WaveEntry(port, wave, more) && d == NatToString(port)
    ensures |t| == |d| + |wave| + |more| + 4
    ensures t[0] == '"' && t[|d| + 1] == ':' && t[|d| + |wave| + 2] == ',' && t[|t| - 1] == '"'
    ensures forall k :: 0 <= k < |d| ==> t[k + 1] == d[k]
    ensures forall k :: 0 <= k < |wave| ==> t[|d| + 2 + k] == wave[k]
    ensures forall k :: 0 <= k < |more| ==> t[|d| + |wave| + 3 + k] == more[k]
  {
  }

  /** No wavelength entry starts in a stretch without quotes. */
  lemma NoWaveIn(s: string, a: nat, b: nat)
    requires b <= |s|
    requires forall k :: a <= k < b ==> s[k] != '"'
    ensures forall k :: a <= k < b ==> WaveAt(s, k).None?
    ensures b == |s| ==> WaveAt(s, b).None?
  {
  }
}
