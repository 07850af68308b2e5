/** `MappingActions` (polatis/command_actions/mapping_actions.py) with the
    two templates it renders (polatis/command_templates/mapping.py). A
    template is filled by `str.format` from the keyword values and keeps
    its `<name>` and `<counter>` markers, which the TL1 session replaces
    when it sends the line. The CLI service is a parameter: the output it
    returns for a command, or the failure it raises. */
module Mapping {
  import opened Wrappers
  import opened Text

  /** A Python value handed to a template or to `str.join`. */
  datatype PyValue = PyStr(s: string) | PyInt(i: int)

  /** `str(v)` */
  function Str(v: PyValue): string
  {
    match v
    case PyStr(s) => s
    case PyInt(i) => IntToString(i)
  }

  /** What an action did: the commands handed to the CLI service, in
      order, and the action's result or the exception it raised. */
  datatype Issued = Issued(commands: seq<string>, result: Result<string, string>)

  const PatchHead: string := "ENT-PATCH:<name>:"
  const ClearHead: string := "DLT-PATCH:<name>:"
  const Tail: string := ":<counter>:;"

  /** `PORT_MAP` filled in: the destination port comes first. */
  function PortMap(src: PyValue, dst: PyValue): string
  {
    PatchHead + Str(dst) + "," + Str(src) + Tail
  }

  /** `MAP_CLEAR` filled in. */
  function MapClearCommand(port: PyValue): string
  {
    ClearHead + Str(port) + Tail
  }

  /** `map_uni`: one `PORT_MAP` command; the output comes back unchanged. */
  function MapUni(cli: string -> Result<string, string>, src: PyValue, dst: PyValue): (r: Issued)
    ensures |r.commands| == 1 && r.result == cli(r.commands[0])
  {
    var command := PortMap(src, dst);
    Issued([command], cli(command))
  }

  /** `map_clear_to`: one `MAP_CLEAR` command naming the one port. */
  function MapClearTo(cli: string -> Result<string, string>, port: PyValue): (r: Issued)
    ensures |r.commands| == 1 && r.result == cli(r.commands[0])
  {
    var command := MapClearCommand(port);
    Issued([command], cli(command))
  }

  /** `"&".join(ports)`: Python 2 refuses any element that is not a
      string, naming the first one. */
  function JoinPorts(ports: seq<PyValue>): (r: Result<string, string>)
    ensures r.Err? <==> exists k :: 0 <= k < |ports| && ports[k].PyInt?
  {
    match FirstInt(ports, 0)
    case Some(k) => Err("sequence item " + NatToString(k) + ": expected string, int found")
    case None => Ok(Join(seq(|ports|, k requires 0 <= k < |ports| => ports[k].s), "&"))
  }

  /** The first position at or after `i` holding an int. */
  function FirstInt(ports: seq<PyValue>, i: nat): (r: Option<nat>)
    ensures r.Some? ==> i <= r.value < |ports| && ports[r.value].PyInt?
    ensures r.None? ==> forall k :: i <= k < |ports| ==> ports[k].PyStr?
    decreases |ports| - i
  {
    if i >= |ports| then None
    else if ports[i].PyInt? then Some(i)
    else FirstInt(ports, i + 1)
  }

  /** `map_clear`: the ports joined by '&' in one `MAP_CLEAR` command; a
      failed join raises before anything is sent. */
  function MapClear(cli: string -> Result<string, string>, ports: seq<PyValue>): (r: Issued)
    ensures |r.commands| <= 1
    ensures r.commands == [] <==> JoinPorts(ports).Err?
    ensures JoinPorts(ports).Err? ==> r.result == Err(JoinPorts(ports).error)
    ensures |r.commands| == 1 ==> r.result == cli(r.commands[0])
  {
    match JoinPorts(ports)
    case Err(e) => Issued([], Err(e))
    case Ok(port) =>
      var command := ClearHead + port + Tail;
      Issued([command], cli(command))
  }

  // ---------------------------------------------------------------------
  // Reading the rendered commands back
  // ---------------------------------------------------------------------

  /** The text between a command's head and tail, when it has both. */
  function Operands(line: string, head: string): (r: Option<string>)
    ensures r.Some? ==> line == head + r.value + Tail
  {
    if |line| < |head| + |Tail| || line[..|head|] != head || line[|line| - |Tail|..] != Tail then None
    else
      var mid := line[|head|..|line| - |Tail|];
      assert line == line[..|head|] + mid + line[|line| - |Tail|..];
      Some(mid)
  }

  /** The two port numbers of a patch command, in the order written. */
  function PatchPorts(line: string): Option<(int, int)>
  {
    match Operands(line, PatchHead)
    case None => None
    case Some(mid) =>
      var parts := Split(mid, ',');
      if |parts| != 2 then None
      else match (ParseInt(parts[0]), ParseInt(parts[1]))
        case (Ok(a), Ok(b)) => Some((a, b))
        case _ => None
  }

  /** The ports a clear command names, when they are '&'-separated
      numbers. */
  function ClearedPorts(line: string): Option<seq<int>>
  {
    match Operands(line, ClearHead)
    case None => None
    case Some(mid) => ParseAll(Split(mid, '&'))
  }

  function ParseAll(parts: seq<string>): (r: Option<seq<int>>)
    ensures r.Some? ==> |r.value| == |parts|
  {
    if |parts| == 0 then Some([])
    else match (ParseInt(parts[0]), ParseAll(parts[1..]))
      case (Ok(a), Some(rest)) => Some([a] + rest)
      case _ => None
  }

  lemma OperandsOf(head: string, mid: string)
    ensures Operands(head + mid + Tail, head) == Some(mid)
  {
    var line := head + mid + Tail;
    assert line[..|head|] == head;
    assert line[|line| - |Tail|..] == Tail;
    assert line[|head|..|line| - |Tail|] == mid;
  }

  /** The decimal spelling of an int holds neither separator. */
  lemma IntNoSeparator(i: int)
    ensures ',' !in IntToString(i) && '&' !in IntToString(i)
  {
    var t := IntToString(i);
    assert forall k :: 1 <= k < |t| ==> t[k] == t[1..][k - 1];
  }

  /** Two numbers joined by a separator split back into their spellings. */
  lemma SplitPair(a: int, sep: char, b: int)
    requires sep == ',' || sep == '&'
    ensures Split(IntToString(a) + [sep] + IntToString(b), sep) == [IntToString(a), IntToString(b)]
  {
    IntNoSeparator(a);
    IntNoSeparator(b);
    SplitAt(IntToString(a), sep, IntToString(b));
  }

  /** A patch command whose operands split into two spellings reads back
      as their numbers. */
  lemma PatchPortsFrom(line: string, mid: string, a: int, b: int)
    requires Operands(line, PatchHead) == Some(mid)
    requires Split(mid, ',') == [IntToString(a), IntToString(b)]
    ensures PatchPorts(line) == Some((a, b))
  {
    ParseIntRoundTrip(a);
    ParseIntRoundTrip(b);
  }

  /** A clear command whose operands split into spellings reads back as
      their numbers. */
  lemma ClearedPortsFrom(line: string, mid: string, ports: seq<int>)
    requires Operands(line, ClearHead) == Some(mid)
    requires Split(mid, '&') == Spellings(ports)
    ensures ClearedPorts(line) == Some(ports)
  {
    ParseAllSpellings(ports);
  }

  /** The decimal spellings of the numbers, in order. */
  function Spellings(ports: seq<int>): (r: seq<string>)
    ensures |r| == |ports|
  {
    if |ports| == 0 then [] else [IntToString(ports[0])] + Spellings(ports[1..])
  }

  /** One step of `ParseAll`: the first part parses and so do the rest. */
  lemma ParseAllStep(parts: seq<string>, a: int, rest: seq<int>)
    requires |parts| > 0 && ParseInt(parts[0]) == Ok(a) && ParseAll(parts[1..]) == Some(rest)
    ensures ParseAll(parts) == Some([a] + rest)
  {
  }

  lemma {:induction false} ParseAllSpellings(ports: seq<int>)
    ensures ParseAll(Spellings(ports)) == Some(ports)
  {
    if |ports| > 0 {
      var sp := Spellings(ports);
      assert sp[0] == IntToString(ports[0]) && sp[1..] == Spellings(ports[1..]);
      ParseIntRoundTrip(ports[0]);
      ParseAllSpellings(ports[1..]);
      ParseAllStep(sp, ports[0], ports[1..]);
      assert ports == [ports[0]] + ports[1..];
    }
  }

  lemma PortMapShape(src: PyValue, dst: PyValue)
    ensures PortMap(src, dst) == PatchHead + (Str(dst) + [','] + Str(src)) + Tail
  {
  }

  /** `map_uni(src, dst)` sends the destination first: read back, the
      patch command's first port is `dst` and its second `src`. */
  lemma MapUniOperandOrder(cli: string -> Result<string, string>, src: int, dst: int)
    ensures PatchPorts(MapUni(cli, PyInt(src), PyInt(dst)).commands[0]) == Some((dst, src))
  {
    var mid := IntToString(dst) + [','] + IntToString(src);
    var line := PortMap(PyInt(src), PyInt(dst));
    assert Operands(line, PatchHead) == Some(mid) by {
      PortMapShape(PyInt(src), PyInt(dst));
      OperandsOf(PatchHead, mid);
    }
    SplitPair(dst, ',', src);
    PatchPortsFrom(line, mid, dst, src);
  }

  /** `map_clear_to(port)` names exactly that port. */
  lemma MapClearToNamesPort(cli: string -> Result<string, string>, port: int)
    ensures ClearedPorts(MapClearTo(cli, PyInt(port)).commands[0]) == Some([port])
  {
    var p := IntToString(port);
    OperandsOf(ClearHead, p);
    IntNoSeparator(port);
    assert Spellings([port]) == [p];
    ClearedPortsFrom(MapClearCommand(PyInt(port)), p, [port]);
  }

  /** `map_clear` with int ports raises and sends nothing. */
  lemma MapClearOfInts(cli: string -> Result<string, string>, a: int, b: int)
    ensures MapClear(cli, [PyInt(a), PyInt(b)]) ==
      Issued([], Err("sequence item 0: expected string, int found"))
  {
    var ports := [PyInt(a), PyInt(b)];
    assert FirstInt(ports, 0) == Some(0);
    assert NatToString(0) == "0";
    assert "sequence item " + "0" + ": expected string, int found" == "sequence item 0: expected string, int found";
    assert JoinPorts(ports) == Err("sequence item 0: expected string, int found");
  }

  /** Given the ports' decimal strings instead, `map_clear` sends one
      command naming both. */
  lemma MapClearOfStrings(cli: string -> Result<string, string>, a: int, b: int)
    ensures ClearedPorts(MapClear(cli, [PyStr(IntToString(a)), PyStr(IntToString(b))]).commands[0]) == Some([a, b])
  {
    var x := IntToString(a);
    var y := IntToString(b);
    var ports := [PyStr(x), PyStr(y)];
    assert JoinPorts(ports) == Ok(x + "&" + y) by {
      assert FirstInt(ports, 2) == None;
      assert seq(|ports|, k requires 0 <= k < |ports| => ports[k].s) == [x, y];
    }
    var mid := x + "&" + y;
    OperandsOf(ClearHead, mid);
    SplitPair(a, '&', b);
    assert Spellings([a, b]) == [x, y] by {
      assert Spellings([a, b])[1..] == Spellings([b]);
    }
    ClearedPortsFrom(ClearHead + mid + Tail, mid, [a, b]);
  }
}
