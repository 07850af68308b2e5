/** The parsers `PolatisDriverHandler.get_resource_description`
    (polatis/polatis_driver_handler.py) applies to the replies of the
    device queries: the model report, the serial number, the patch list
    folded into the port mapping, and the shutter table. Each regular
    expression is replaced by a matcher that reproduces the match Python's
    `re.search` reports for it. */
module HandlerReplies {
  import opened Wrappers
  import opened Text
  import DeviceReplies

  // ---------------------------------------------------------------------
  // Model info: \"*(?P<vendor>.*),(?P<model>.*),(?P<type>.*),(?P<version>\S+)
  // ---------------------------------------------------------------------

  /** The four fields of the `NETYPE` reply. */
  datatype ModelInfo = ModelInfo(vendor: string, model: string, hwType: string, version: string)

  predicate IsQuote(c: char) {
    c == '"'
  }

  /** A comma the version can follow: its next character is not
      whitespace, as `\S+` needs at least one. */
  function VersionComma(s: string): nat -> Option<nat>
  {
    (j: nat) => if j + 1 < |s| && s[j] == ',' && NotSpace(s[j + 1]) then Some(j) else None
  }

  /** The last position in [lo, hi) the matcher accepts. */
  function LastOf(lo: nat, hi: nat, f: nat -> Option<nat>): (r: Option<nat>)
    ensures r.Some? ==> lo <= r.value < hi && f(r.value).Some?
    ensures r.Some? ==> forall k :: r.value < k < hi ==> f(k).None?
    ensures r.None? ==> forall k :: lo <= k < hi ==> f(k).None?
  {
    match FindLast(lo, hi, f)
    case None => None
    case Some((k, _)) => Some(k)
  }

  /** The fields between the quotes' end `q` and the commas c1 < c2 < v,
      the version being the whitespace-free run after `v`. */
  function FieldsAt(s: string, q: nat, c1: nat, c2: nat, v: nat): (r: ModelInfo)
    requires q <= c1 < c2 < v && v + 1 < |s| && NotSpace(s[v + 1])
    ensures |r.version| > 0 && NoSpace(r.version)
  {
    var ve := RunEnd(s, v + 1, NotSpace);
    RunSlice(s, v + 1, ve);
    ModelInfo(s[q..c1], s[c1 + 1..c2], s[c2 + 1..v], s[v + 1..ve])
  }

  /** The pattern tried at `i`. The quotes are taken greedily; they hold
      no comma, so giving some back never helps. `.` stops at the line
      end, and the greedy fields settle on the largest commas that still
      leave a match: the last comma a version can follow, the last comma
      before it and the last comma before that. The version is the
      whitespace-free run after its comma. */
  function ModelInfoAt(s: string, i: nat): (r: Option<ModelInfo>)
    ensures r.Some? ==> |r.value.version| > 0 && NoSpace(r.value.version)
  {
    if i > |s| then None
    else
      var q := RunEnd(s, i, IsQuote);
      match LastOf(q, LineEnd(s, q), VersionComma(s))
      case None => None
      case Some(v) =>
        match LastOf(q, v, DeviceReplies.Locate(s, ','))
        case None => None
        case Some(c2) =>
          match LastOf(q, c2, DeviceReplies.Locate(s, ','))
          case None => None
          case Some(c1) => Some(FieldsAt(s, q, c1, c2, v))
  }

  /** A stretch of non-whitespace characters, cut out. */
  lemma RunSlice(s: string, a: nat, e: nat)
    requires a <= e <= |s|
    requires forall k :: a <= k < e ==> NotSpace(s[k])
    ensures NoSpace(s[a..e])
  {
    forall j | 0 <= j < e - a
      ensures !IsSpace(s[a..e][j])
    {
      assert s[a..e][j] == s[a + j];
    }
  }

  function ModelInfoMatcher(s: string): nat -> Option<ModelInfo>
  {
    (i: nat) => ModelInfoAt(s, i)
  }

  /** `re.search` with the model pattern: the fields of the leftmost
      match, if any. */
  function SearchModelInfo(s: string): (r: Option<ModelInfo>)
    ensures r.None? <==> forall i :: 0 <= i < |s| ==> ModelInfoAt(s, i).None?
    ensures r.Some? ==>
      exists i :: 0 <= i < |s| && ModelInfoAt(s, i) == r &&
                  forall k :: 0 <= k < i ==> ModelInfoAt(s, k).None?
  {
    var f := ModelInfoMatcher(s);
    assert forall i: nat :: f(i) == ModelInfoAt(s, i);
    match FindFirst(0, |s|, f)
    case None => None
    case Some((i, m)) =>
      assert ModelInfoAt(s, i) == Some(m);
      assert forall k :: 0 <= k < i ==> ModelInfoAt(s, k).None?;
      Some(m)
  }

  /** The layout of a model report's first line: an opening quote at 0,
      the separating commas at c1 < c2 < v, the version up to `ve` and a
      line end or the end of the reply after it. */
  predicate ReportShape(s: string, c1: nat, c2: nat, v: nat, ve: nat) {
    1 <= c1 < c2 < v && v + 1 < ve <= |s| && s[0] == '"' && (c1 > 1 ==> s[1] != '"') &&
    s[c1] == ',' && s[c2] == ',' && s[v] == ',' &&
    (forall k :: 1 <= k < ve && k != c1 && k != c2 && k != v ==> s[k] != ',') &&
    (forall k :: 1 <= k < ve ==> s[k] != '\n') &&
    (forall k :: v < k < ve ==> NotSpace(s[k])) &&
    (ve < |s| ==> s[ve] == '\n')
  }

  /** The last comma a version can follow is `v`. */
  lemma ShapeVersionComma(s: string, c1: nat, c2: nat, v: nat, ve: nat)
    requires ReportShape(s, c1, c2, v, ve)
    ensures LineEnd(s, 1) == ve
    ensures LastOf(1, ve, VersionComma(s)) == Some(v)
  {
    LineEndAt(s, 1, ve);
    assert NotSpace(s[v + 1]);
    forall k: nat | v < k < ve
      ensures VersionComma(s)(k).None?
    {
      assert s[k] != ',';
    }
    FindLastAt(1, ve, VersionComma(s), v);
  }

  /** The commas before `v` are c1 and c2. */
  lemma ShapeCommas(s: string, c1: nat, c2: nat, v: nat, ve: nat)
    requires ReportShape(s, c1, c2, v, ve)
    ensures LastOf(1, v, DeviceReplies.Locate(s, ',')) == Some(c2)
    ensures LastOf(1, c2, DeviceReplies.Locate(s, ',')) == Some(c1)
  {
    FindLastAt(1, v, DeviceReplies.Locate(s, ','), c2);
    FindLastAt(1, c2, DeviceReplies.Locate(s, ','), c1);
  }

  /** A report of that layout matches at 0 with the fields between. */
  lemma ShapeAt(s: string, c1: nat, c2: nat, v: nat, ve: nat)
    requires ReportShape(s, c1, c2, v, ve)
    ensures ModelInfoAt(s, 0) == Some(ModelInfo(s[1..c1], s[c1 + 1..c2], s[c2 + 1..v], s[v + 1..ve]))
  {
    assert !IsQuote(s[1]);
    RunEndAt(s, 0, 1, IsQuote);
    ShapeVersionComma(s, c1, c2, v, ve);
    ShapeCommas(s, c1, c2, v, ve);
    RunEndAt(s, v + 1, ve, NotSpace);
    assert FieldsAt(s, 1, c1, c2, v) == ModelInfo(s[1..c1], s[c1 + 1..c2], s[c2 + 1..v], s[v + 1..ve]);
  }

  /** So the leftmost match is the one at 0. */
  lemma ShapeMatch(s: string, c1: nat, c2: nat, v: nat, ve: nat)
    requires ReportShape(s, c1, c2, v, ve)
    ensures SearchModelInfo(s) == Some(ModelInfo(s[1..c1], s[c1 + 1..c2], s[c2 + 1..v], s[v + 1..ve]))
  {
    ShapeAt(s, c1, c2, v, ve);
    FindFirstAt(0, |s|, ModelInfoMatcher(s), 0);
  }

  /** A field of the model report: no comma and no line end. */
  predicate FieldText(t: string) {
    ',' !in t && '\n' !in t
  }

  /** A report `"vendor,model,type,version` on its first line, whatever
      follows on later lines, reads back as its four fields. The closing
      quote the switch sends after the version is not whitespace, so it
      stays part of the version. */
  lemma ModelInfoOf(vendor: string, model: string, hwType: string, version: string, rest: string)
    requires FieldText(vendor) && FieldText(model) && FieldText(hwType)
    requires |vendor| > 0 ==> vendor[0] != '"'
    requires |version| > 0 && NoSpace(version) && ',' !in version
    requires |rest| > 0 ==> rest[0] == '\n'
    ensures SearchModelInfo("\"" + vendor + "," + model + "," + hwType + "," + version + rest) ==
      Some(ModelInfo(vendor, model, hwType, version))
  {
    var s := "\"" + vendor + "," + model + "," + hwType + "," + version + rest;
    var c1 := 1 + |vendor|;
    var c2 := c1 + 1 + |model|;
    var v := c2 + 1 + |hwType|;
    var ve := v + 1 + |version|;
    assert s[1..c1] == vendor && s[c1 + 1..c2] == model && s[c2 + 1..v] == hwType && s[v + 1..ve] == version;
    forall k | 1 <= k < ve && k != c1 && k != c2 && k != v
      ensures s[k] != ',' && s[k] != '\n'
    {
      if k < c1 { assert s[k] == vendor[k - 1]; }
      else if k < c2 { assert s[k] == model[k - c1 - 1]; }
      else if k < v { assert s[k] == hwType[k - c2 - 1]; }
      else { assert s[k] == version[k - v - 1]; }
    }
    forall k | v < k < ve
      ensures NotSpace(s[k])
    {
      assert s[k] == version[k - v - 1];
    }
    assert ReportShape(s, c1, c2, v, ve);
    ShapeMatch(s, c1, c2, v, ve);
  }

  /** The switch's own report: the version keeps its closing quote. */
  lemma VersionKeepsQuote()
    ensures SearchModelInfo("\"POLATIS,OST,SWITCH,7.1\"") == Some(ModelInfo("POLATIS", "OST", "SWITCH", "7.1\""))
  {
    assert "\"POLATIS,OST,SWITCH,7.1\"" == "\"" + "POLATIS" + "," + "OST" + "," + "SWITCH" + "," + "7.1\"" + "";
    assert NoSpace("7.1\"");
    ModelInfoOf("POLATIS", "OST", "SWITCH", "7.1\"", "");
  }

  /** A reply without commas names no model. */
  lemma NoCommaNoModel(s: string)
    requires ',' !in s
    ensures SearchModelInfo(s).None?
  {
    forall k: nat
      ensures VersionComma(s)(k).None?
    {
      if k < |s| { assert s[k] in s; }
    }
    forall i | 0 <= i < |s|
      ensures ModelInfoAt(s, i).None?
    {
      var q := RunEnd(s, i, IsQuote);
      assert LastOf(q, LineEnd(s, q), VersionComma(s)).None?;
    }
  }

  // ---------------------------------------------------------------------
  // Serial: SN=(?P<serial>\d*)
  // ---------------------------------------------------------------------

  /** The pattern tried at `i`: after `SN=` the digit run, possibly
      empty. */
  function SerialAt(s: string, i: nat): (r: Option<string>)
    ensures r.Some? ==> AllDigits(r.value)
  {
    if !StartsAt(s, i, DeviceReplies.SerialKey) then None
    else
      var a := i + |DeviceReplies.SerialKey|;
      var e := RunEnd(s, a, IsDigit);
      assert forall k :: 0 <= k < e - a ==> s[a..e][k] == s[a + k];
      Some(s[a..e])
  }

  function SerialMatcher(s: string): nat -> Option<string>
  {
    (i: nat) => SerialAt(s, i)
  }

  /** `re.search` with the serial pattern: the digits after the first
      `SN=`, when there is one. */
  function SearchSerial(s: string): (r: Option<string>)
    ensures r.None? <==> forall i :: 0 <= i < |s| ==> !StartsAt(s, i, DeviceReplies.SerialKey)
    ensures r.Some? ==> AllDigits(r.value)
    ensures r.Some? ==>
      exists i :: 0 <= i < |s| && SerialAt(s, i) == r &&
                  forall k :: 0 <= k < i ==> !StartsAt(s, k, DeviceReplies.SerialKey)
  {
    var f := SerialMatcher(s);
    assert forall i: nat :: f(i) == SerialAt(s, i);
    assert forall i: nat :: f(i).None? <==> !StartsAt(s, i, DeviceReplies.SerialKey);
    match FindFirst(0, |s|, f)
    case None => None
    case Some((i, v)) =>
      assert SerialAt(s, i) == Some(v);
      assert forall k :: 0 <= k < i ==> !StartsAt(s, k, DeviceReplies.SerialKey);
      Some(v)
  }

  /** The digits after the first `SN=` are the serial, even none. */
  lemma SerialOf(pre: string, serial: string, rest: string)
    requires forall k :: 0 <= k < |pre| ==>
      !StartsAt(pre + DeviceReplies.SerialKey, k, DeviceReplies.SerialKey)
    requires AllDigits(serial)
    requires |rest| > 0 ==> !IsDigit(rest[0])
    ensures SearchSerial(pre + DeviceReplies.SerialKey + serial + rest) == Some(serial)
  {
    var s := pre + DeviceReplies.SerialKey + serial + rest;
    var i := |pre|;
    var a := i + |DeviceReplies.SerialKey|;
    var e := a + |serial|;
    assert s[i..a] == DeviceReplies.SerialKey;
    assert s[a..e] == serial;
    assert forall k :: a <= k < e ==> s[k] == serial[k - a];
    assert e < |s| ==> s[e] == rest[0];
    RunEndAt(s, a, e, IsDigit);
    var f := SerialMatcher(s);
    forall j: nat | j < i
      ensures f(j).None?
    {
      assert pre + DeviceReplies.SerialKey + serial + rest ==
             pre + DeviceReplies.SerialKey + (serial + rest);
      StartsBefore(pre, DeviceReplies.SerialKey, serial + rest, j);
    }
    FindFirstAt(0, |s|, f, i);
  }

  /** An inventory line `"OCS:SN=<digits>,PN=..."` reports the digits
      after `SN=`, though `OCS` holds an `S` before the key. */
  lemma SerialOfInventoryLine(serial: string, rest: string)
    requires AllDigits(serial)
    requires |rest| > 0 ==> !IsDigit(rest[0])
    ensures SearchSerial("   \"OCS:" + DeviceReplies.SerialKey + serial + rest) == Some(serial)
  {
    var pre := "   \"OCS:";
    var t := pre + DeviceReplies.SerialKey;
    assert t[6] == 'S' && t[7] == ':';
    forall k | 0 <= k < |pre|
      ensures !StartsAt(t, k, DeviceReplies.SerialKey)
    {
      if k == 6 {
        assert t[k..k + 3][1] == t[7];
      } else {
        NotStartsAt(t, k, DeviceReplies.SerialKey);
      }
    }
    SerialOf(pre, serial, rest);
  }

  /** A reply without `SN=` has no serial. */
  lemma NoSerialKey(s: string)
    requires 'S' !in s
    ensures SearchSerial(s).None?
  {
    forall i | 0 <= i < |s|
      ensures !StartsAt(s, i, DeviceReplies.SerialKey)
    {
      assert s[i] in s;
      NotStartsAt(s, i, DeviceReplies.SerialKey);
    }
  }

  // ---------------------------------------------------------------------
  // Patch list: (?P<src_port>\d+),(?P<dst_port>\d+) per line
  // ---------------------------------------------------------------------

  /** The digit run from `i`, taken whole: a shorter run is followed by a
      digit, never by the separator. */
  function DigitsFrom(s: string, i: nat): (r: string)
    requires i <= |s|
    ensures AllDigits(r)
  {
    var e := RunEnd(s, i, IsDigit);
    assert forall k :: 0 <= k < e - i ==> s[i..e][k] == s[i + k];
    s[i..e]
  }

  /** The pair pattern tried at `i`: digits, a comma, digits. */
  function PairAt(s: string, i: nat): (r: Option<(string, string)>)
    ensures r.Some? ==> |r.value.0| > 0 && |r.value.1| > 0
  {
    if i >= |s| || !IsDigit(s[i]) then None
    else
      var e := RunEnd(s, i, IsDigit);
      if e + 1 < |s| && s[e] == ',' && IsDigit(s[e + 1]) then
        RunEndPast(s, e + 1, e + 1, IsDigit);
        Some((DigitsFrom(s, i), DigitsFrom(s, e + 1)))
      else None
  }

  function PairMatcher(s: string): nat -> Option<(string, string)>
  {
    (i: nat) => PairAt(s, i)
  }

  /** The ports a patch line connects: its leftmost pair. */
  function LinePair(line: string): (r: Option<(string, string)>)
    ensures r.None? <==> forall i :: 0 <= i < |line| ==> PairAt(line, i).None?
    ensures r.Some? ==>
      exists i :: 0 <= i < |line| && PairAt(line, i) == r &&
                  forall k :: 0 <= k < i ==> PairAt(line, k).None?
    ensures r.Some? ==> |r.value.0| > 0 && |r.value.1| > 0
  {
    var f := PairMatcher(line);
    assert forall i: nat :: f(i) == PairAt(line, i);
    match FindFirst(0, |line|, f)
    case None => None
    case Some((i, p)) =>
      assert PairAt(line, i) == Some(p);
      assert forall k :: 0 <= k < i ==> PairAt(line, k).None?;
      Some(p)
  }

  /** A line `a,b` connects `a` and `b`. */
  lemma LinePairOf(a: string, b: string)
    requires PortText(a) && PortText(b)
    ensures LinePair(a + "," + b) == Some((a, b))
  {
    var s := a + "," + b;
    var e := |a|;
    assert forall k :: 0 <= k < e ==> s[k] == a[k];
    assert forall k :: e < k < |s| ==> s[k] == b[k - e - 1];
    assert s[e] == ',';
    RunEndAt(s, 0, e, IsDigit);
    RunEndAt(s, e + 1, |s|, IsDigit);
    assert s[0..e] == a && s[e + 1..|s|] == b;
    FindFirstAt(0, |s|, PairMatcher(s), 0);
  }

  /** Records one connection both ways. */
  function Connect(m: map<string, string>, a: string, b: string): (r: map<string, string>)
    ensures r.Keys == m.Keys + {a, b}
    ensures r[b] == a && (a != b ==> r[a] == b)
    ensures forall k :: k in m && k != a && k != b ==> r[k] == m[k]
  {
    m[a := b][b := a]
  }

  /** The loop over the patch lines: each line with a pair records it
      both ways over what the mapping already holds. */
  function AddPairs(m: map<string, string>, lines: seq<string>): (r: map<string, string>)
    decreases |lines|
  {
    if |lines| == 0 then m
    else
      var m1 := match LinePair(lines[0]) case Some((a, b)) => Connect(m, a, b) case None => m;
      AddPairs(m1, lines[1..])
  }

  /** The ports the patch lines name. */
  function Named(lines: seq<string>): set<string>
    decreases |lines|
  {
    if |lines| == 0 then {}
    else
      (match LinePair(lines[0]) case Some((a, b)) => {a, b} case None => {}) + Named(lines[1..])
  }

  /** The mapping keeps every port it knew and gains exactly the ports
      the lines name: it is never cleared. */
  lemma {:induction false} AddPairsKeys(m: map<string, string>, lines: seq<string>)
    ensures AddPairs(m, lines).Keys == m.Keys + Named(lines)
    decreases |lines|
  {
    if |lines| > 0 {
      var m1 := match LinePair(lines[0]) case Some((a, b)) => Connect(m, a, b) case None => m;
      AddPairsKeys(m1, lines[1..]);
    }
  }

  /** The partner of `x` in a pair that names it; the second port is
      written last, so it wins when the two are equal. */
  function PartnerIn(pair: (string, string), x: string): string
  {
    if x == pair.1 then pair.0 else pair.1
  }

  /** Lines that do not name `x` leave its entry alone. */
  lemma {:induction false} AddPairsKeep(m: map<string, string>, lines: seq<string>, x: string)
    requires x !in Named(lines)
    ensures x in m ==> x in AddPairs(m, lines) && AddPairs(m, lines)[x] == m[x]
    decreases |lines|
  {
    if |lines| > 0 {
      var m1 := match LinePair(lines[0]) case Some((a, b)) => Connect(m, a, b) case None => m;
      AddPairsKeep(m1, lines[1..], x);
    }
  }

  /** A port holds the partner from the last line that names it. */
  lemma {:induction false} AddPairsLast(m: map<string, string>, lines: seq<string>, j: nat, x: string)
    requires j < |lines| && LinePair(lines[j]).Some?
    requires x == LinePair(lines[j]).value.0 || x == LinePair(lines[j]).value.1
    requires x !in Named(lines[j + 1..])
    ensures x in AddPairs(m, lines) && AddPairs(m, lines)[x] == PartnerIn(LinePair(lines[j]).value, x)
    decreases |lines|
  {
    var m1 := match LinePair(lines[0]) case Some((a, b)) => Connect(m, a, b) case None => m;
    if j == 0 {
      AddPairsKeep(m1, lines[1..], x);
    } else {
      assert lines[1..][j - 1] == lines[j];
      assert lines[1..][j - 1 + 1..] == lines[j + 1..];
      AddPairsLast(m1, lines[1..], j - 1, x);
    }
  }

  /** A port number as the patch list spells it. */
  predicate PortText(t: string) {
    |t| > 0 && AllDigits(t)
  }

  /** Re-patching port `a` from `b` to `c` leaves `b` pointing at `a`
      while `a` points at `c`: the map is only ever written to, so the
      stale entry stays. */
  lemma StaleEntry(a: string, b: string, c: string)
    requires PortText(a) && PortText(b) && PortText(c)
    requires b != a && b != c
    ensures var m := AddPairs(map[], [a + "," + b, a + "," + c]);
      a in m && b in m && c in m && m[a] == c && m[c] == a && m[b] == a
  {
    var lines := [a + "," + b, a + "," + c];
    LinePairOf(a, b);
    LinePairOf(a, c);
    assert lines[2..] == [];
    assert Named(lines[1..]) == {a, c} by {
      assert lines[1..][0] == lines[1];
      assert lines[1..][1..] == [];
    }
    AddPairsLast(map[], lines, 1, a);
    AddPairsLast(map[], lines, 1, c);
    AddPairsLast(map[], lines, 0, b);
  }

  // ---------------------------------------------------------------------
  // Shutter table: (?P<id>\d+):(?P<state>OPEN|CLOSED) per line
  // ---------------------------------------------------------------------

  /** The shutter pattern tried at `i`: a port id and whether its shutter
      is open. */
  function ShutterAt(s: string, i: nat): (r: Option<(string, bool)>)
    ensures r.Some? ==> |r.value.0| > 0
  {
    if i >= |s| || !IsDigit(s[i]) then None
    else
      var e := RunEnd(s, i, IsDigit);
      if StartsAt(s, e, ":OPEN") then Some((DigitsFrom(s, i), true))
      else if StartsAt(s, e, ":CLOSED") then Some((DigitsFrom(s, i), false))
      else None
  }

  function ShutterMatcher(s: string): nat -> Option<(string, bool)>
  {
    (i: nat) => ShutterAt(s, i)
  }

  /** The port a shutter line reports: its leftmost match. */
  function LineShutter(line: string): (r: Option<(string, bool)>)
    ensures r.None? <==> forall i :: 0 <= i < |line| ==> ShutterAt(line, i).None?
    ensures r.Some? ==>
      exists i :: 0 <= i < |line| && ShutterAt(line, i) == r &&
                  forall k :: 0 <= k < i ==> ShutterAt(line, k).None?
  {
    var f := ShutterMatcher(line);
    assert forall i: nat :: f(i) == ShutterAt(line, i);
    match FindFirst(0, |line|, f)
    case None => None
    case Some((i, p)) =>
      assert ShutterAt(line, i) == Some(p);
      assert forall k :: 0 <= k < i ==> ShutterAt(line, k).None?;
      Some(p)
  }

  /** A line `id:OPEN` or `id:CLOSED` reports that port and state. */
  lemma LineShutterOf(id: string, open: bool)
    requires |id| > 0 && AllDigits(id)
    ensures LineShutter(id + (if open then ":OPEN" else ":CLOSED")) == Some((id, open))
  {
    var tail := if open then ":OPEN" else ":CLOSED";
    var s := id + tail;
    var e := |id|;
    assert forall k :: 0 <= k < e ==> s[k] == id[k];
    assert s[e] == ':';
    RunEndAt(s, 0, e, IsDigit);
    assert s[e..e + |tail|] == tail;
    assert s[0..e] == id;
    if !open {
      assert s[e..e + 5] != ":OPEN" by { assert s[e + 1] == 'C'; }
    }
    FindFirstAt(0, |s|, ShutterMatcher(s), 0);
  }

  /** The reported ports, in line order: one for each line that matches. */
  function Shutters(lines: seq<string>): (r: seq<(string, bool)>)
    ensures |r| <= |lines|
    decreases |lines|
  {
    if |lines| == 0 then []
    else
      (match LineShutter(lines[0]) case Some(p) => [p] case None => []) + Shutters(lines[1..])
  }

  /** Lines are read independently: the ports of a concatenation are the
      ports of each part. */
  lemma {:induction false} ShuttersAppend(a: seq<string>, b: seq<string>)
    ensures Shutters(a + b) == Shutters(a) + Shutters(b)
    decreases |a|
  {
    if |a| == 0 {
      assert a + b == b;
    } else {
      assert (a + b)[0] == a[0];
      assert (a + b)[1..] == a[1..] + b;
      ShuttersAppend(a[1..], b);
      var head := match LineShutter(a[0]) case Some(p) => [p] case None => [];
      assert head + (Shutters(a[1..]) + Shutters(b)) == (head + Shutters(a[1..])) + Shutters(b);
    }
  }

  /** Where every line matches, there is one port per line, in order. */
  lemma {:induction false} ShuttersEveryLine(lines: seq<string>)
    requires forall k :: 0 <= k < |lines| ==> LineShutter(lines[k]).Some?
    ensures |Shutters(lines)| == |lines|
    ensures forall k :: 0 <= k < |lines| ==> Shutters(lines)[k] == LineShutter(lines[k]).value
    decreases |lines|
  {
    if |lines| > 0 {
      assert forall k :: 0 <= k < |lines| - 1 ==> lines[1..][k] == lines[k + 1];
      ShuttersEveryLine(lines[1..]);
    }
  }

  /** Lines that match nothing report no ports. */
  lemma {:induction false} ShuttersNoLine(lines: seq<string>)
    requires forall k :: 0 <= k < |lines| ==> LineShutter(lines[k]).None?
    ensures Shutters(lines) == []
    decreases |lines|
  {
    if |lines| > 0 {
      assert forall k :: 0 <= k < |lines| - 1 ==> lines[1..][k] == lines[k + 1];
      ShuttersNoLine(lines[1..]);
    }
  }

  /** A port of the description: its id, the chassis model name, the
      address of the port it is patched to, and its shutter state. */
  datatype PortInfo = PortInfo(id: string, modelName: string, mapping: Option<string>, enabled: bool)

  function PortEntry(prefix: string, modelName: string, m: map<string, string>, port: (string, bool)): PortInfo
  {
    PortInfo(port.0, modelName, if port.0 in m then Some(prefix + m[port.0]) else None, port.1)
  }

  /** The ports of the shutter table, each with the mapping known for it:
      enabled exactly when its shutter is open, mapped exactly when the
      mapping knows its id, to the address prefix and the partner. */
  function Ports(prefix: string, modelName: string, m: map<string, string>, lines: seq<string>): (r: seq<PortInfo>)
    ensures |r| == |Shutters(lines)|
    ensures forall k :: 0 <= k < |r| ==>
      var p := Shutters(lines)[k];
      r[k].id == p.0 && r[k].modelName == modelName && (r[k].enabled <==> p.1) &&
      (r[k].mapping.Some? <==> p.0 in m) && (p.0 in m ==> r[k].mapping == Some(prefix + m[p.0]))
  {
    var ports := Shutters(lines);
    seq(|ports|, k requires 0 <= k < |ports| => PortEntry(prefix, modelName, m, ports[k]))
  }
}
