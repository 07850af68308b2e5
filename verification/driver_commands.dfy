/** The CLI-based driver (`DriverCommands` in polatis/driver_commands.py):
    the port mode, the cached device size, the four mapping commands and
    the port table of the resource description.

    The switch has `size1` ingress and `size2` egress ports, numbered
    1..size1+size2 in physical mode. In logical mode the driver shows
    L = min(size1, size2) ports, logical port p standing for the physical
    pair (p, p + L), and a logical mapping src -> dst is the physical patch
    from src + L to dst.

    The CLI session is a parameter: the output it returns for a command,
    or the failure it raises. Every outcome records the commands handed to
    it, in order. */
module DriverCommands {
  import opened Wrappers
  import opened Text
  import Mapping
  import DeviceReplies

  const LogicalPortMode: string := "LOGICAL"

  /** `_is_logical_port_mode`: the configured mode, case-insensitively. */
  predicate IsLogical(mode: string) {
    ToLower(mode) == ToLower(LogicalPortMode)
  }

  /** `DRIVER.PORT_MODE`, logical when the key is absent. */
  function PortMode(configured: Option<string>): (r: string)
    ensures configured.None? ==> IsLogical(r)
    ensures configured.Some? ==> r == configured.value
  {
    assert ToLower(LogicalPortMode) == "logical";
    configured.GetOr(LogicalPortMode)
  }

  /** Logical mode is exactly the spellings of "logical" in any case. */
  lemma LogicalSpellings(mode: string)
    ensures IsLogical(mode) <==> ToLower(mode) == "logical"
    ensures IsLogical("Logical") && IsLogical("logical") && !IsLogical("PHYSICAL")
  {
    assert ToLower(LogicalPortMode) == "logical";
    assert ToLower("PHYSICAL")[0] == 'p';
  }

  /** The driver's state: its port mode and the size cache. */
  datatype Driver = Driver(mode: string, total: Option<nat>, logical: Option<nat>)

  function Init(configured: Option<string>): Driver
  {
    Driver(PortMode(configured), None, None)
  }

  /** A cache slot Python treats as false: `None` or 0. */
  predicate Falsy(v: Option<nat>) {
    v.None? || v.value == 0
  }

  /** The cache holds both counts or neither, and a logical count that
      fits twice into the total. */
  predicate Consistent(d: Driver) {
    (d.total.Some? <==> d.logical.Some?) &&
    (d.total.Some? ==> 2 * d.logical.value <= d.total.value)
  }

  datatype Outcome<T> = Outcome(driver: Driver, commands: seq<string>, result: Result<T, string>)

  const DeviceEqpt: string := "RTRV-EQPT:\"<name>\":SYSTEM:<counter>:::PARAMETER=SIZE;"
  const PSerial: string := "RTRV-INV:\"<name>\":OCS:<counter>:;"
  const NeType: string := "RTRV-NETYPE:\"<name>\"::<counter>:;"
  const PatchQuery: string := "RTRV-PATCH:\"<name>\"::<counter>:;"

  function PowerQuery(size: nat): string
  {
    "RTRV-PORT-POWER:\"<name>\":1&&" + NatToString(size) + ":<counter>:;"
  }

  function WaveQuery(size: nat): string
  {
    "RTRV-PORT-PMON:\"<name>\":1&&" + NatToString(size) + ":<counter>:;"
  }

  // ---------------------------------------------------------------------
  // _get_device_size
  // ---------------------------------------------------------------------

  /** `_get_device_size`: the total and logical port counts, queried
      while either cached count is falsy and cached once known. */
  function DeviceSize(d: Driver, cli: string -> Result<string, string>): (r: Outcome<(nat, nat)>)
    ensures r.driver.mode == d.mode
    ensures r.commands == if Falsy(d.total) || Falsy(d.logical) then [DeviceEqpt] else []
    ensures r.result.Ok? ==> r.driver.total == Some(r.result.value.0) && r.driver.logical == Some(r.result.value.1)
    ensures r.result.Err? ==> r.driver == d
    ensures Consistent(d) ==> Consistent(r.driver)
    ensures Consistent(d) && r.result.Ok? ==> 2 * r.result.value.1 <= r.result.value.0
  {
    if !Falsy(d.total) && !Falsy(d.logical) then Outcome(d, [], Ok((d.total.value, d.logical.value)))
    else
      match cli(DeviceEqpt)
      case Err(e) => Outcome(d, [DeviceEqpt], Err(e))
      case Ok(out) =>
        match DeviceReplies.DeviceSize(out)
        case Err(e) => Outcome(d, [DeviceEqpt], Err(e))
        case Ok((size1, size2)) =>
          var total := size1 + size2;
          var logical := Min(size1, size2);
          Outcome(d.(total := Some(total), logical := Some(logical)), [DeviceEqpt], Ok((total, logical)))
  }

  /** A query that reports sizes `size1` x `size2` yields the total
      `size1 + size2` and the logical count `min(size1, size2)`. */
  lemma SizeOfReply(d: Driver, cli: string -> Result<string, string>, size1: nat, size2: nat)
    requires Falsy(d.total) || Falsy(d.logical)
    requires cli(DeviceEqpt).Ok? && DeviceReplies.SearchSize(cli(DeviceEqpt).value) == Some((size1, size2))
    ensures DeviceSize(d, cli).result == Ok((size1 + size2, Min(size1, size2)))
  {
  }

  /** Once a query has returned two non-zero counts, later calls ask the
      device nothing and return the same counts, whatever the session
      would answer; a zero logical count is re-queried every time. */
  lemma SizeCached(d: Driver, cli: string -> Result<string, string>, later: string -> Result<string, string>)
    requires DeviceSize(d, cli).result.Ok?
    ensures var r := DeviceSize(d, cli);
      var (total, logical) := r.result.value;
      (total > 0 && logical > 0 ==> DeviceSize(r.driver, later) == Outcome(r.driver, [], r.result)) &&
      (logical == 0 ==> DeviceSize(r.driver, later).commands == [DeviceEqpt])
  {
  }

  // ---------------------------------------------------------------------
  // Port addresses
  // ---------------------------------------------------------------------

  /** `int(address.split('/')[-1])` */
  function PortOf(address: string): Result<int, string>
  {
    ParseInt(AfterLast(address, '/'))
  }

  /** The port number of an address is its last segment. */
  lemma PortOfAddress(prefix: string, n: int)
    ensures PortOf(prefix + "/" + IntToString(n)) == Ok(n)
  {
    assert '/' !in IntToString(n) by {
      var t := IntToString(n);
      assert forall k :: 1 <= k < |t| ==> t[k] == t[1..][k - 1];
    }
    AfterLastSuffix(prefix, '/', IntToString(n));
    ParseIntRoundTrip(n);
  }

  const PhysicalUni: string := "Unidirectional connection is not available in physical port mode"

  // ---------------------------------------------------------------------
  // map_uni
  // ---------------------------------------------------------------------

  /** `map_uni`: refused in physical mode; in logical mode one patch
      from `src + L` to each destination, in list order. */
  function MapUni(d: Driver, cli: string -> Result<string, string>, src: string, dsts: seq<string>): (r: Outcome<()>)
    ensures !IsLogical(d.mode) ==> r == Outcome(d, [], Err(PhysicalUni))
    ensures IsLogical(d.mode) ==> r == UniFrom(DeviceSize(d, cli), cli, PortOf(src), dsts)
  {
    if !IsLogical(d.mode) then Outcome(d, [], Err(PhysicalUni))
    else UniFrom(DeviceSize(d, cli), cli, PortOf(src), dsts)
  }

  /** After the size query `size`, with `source` the parsed source
      address (parsed after the size query, so a size failure wins): the
      destinations are patched from the source shifted by the logical
      count. */
  function UniFrom(size: Outcome<(nat, nat)>, cli: string -> Result<string, string>, source: Result<int, string>,
                   dsts: seq<string>): (r: Outcome<()>)
    ensures r.driver == size.driver
    ensures size.result.Err? ==> r == Outcome(size.driver, size.commands, Err(size.result.error))
    ensures size.result.Ok? && source.Err? ==> r == Outcome(size.driver, size.commands, Err(source.error))
  {
    if size.result.Err? then Outcome(size.driver, size.commands, Err(size.result.error))
    else if source.Err? then Outcome(size.driver, size.commands, Err(source.error))
    else
      var loop := UniEach(cli, Shifted(size, source), dsts);
      Outcome(size.driver, size.commands + loop.0, loop.1)
  }

  /** The logical source port shifted onto its egress twin: `src + L`. */
  function Shifted(size: Outcome<(nat, nat)>, source: Result<int, string>): (r: int)
    requires size.result.Ok? && source.Ok?
    ensures r - size.result.value.1 == source.value
  {
    source.value + size.result.value.1
  }

  /** In logical mode a completed `map_uni` queries the size and then
      sends one patch per destination, each from the source shifted by the
      logical count L to that destination. */
  lemma LogicalMapUniPatches(d: Driver, cli: string -> Result<string, string>, src: string, dsts: seq<string>)
    requires IsLogical(d.mode) && MapUni(d, cli, src, dsts).result.Ok?
    ensures DeviceSize(d, cli).result.Ok? && PortOf(src).Ok?
    ensures var n := |DeviceSize(d, cli).commands|;
      var sent := MapUni(d, cli, src, dsts).commands;
      |sent| == n + |dsts| && sent[..n] == DeviceSize(d, cli).commands
    ensures var n := |DeviceSize(d, cli).commands|;
      var sent := MapUni(d, cli, src, dsts).commands;
      var shifted := Shifted(DeviceSize(d, cli), PortOf(src));
      shifted == PortOf(src).value + DeviceSize(d, cli).result.value.1 &&
      forall k :: 0 <= k < |dsts| ==>
        PortOf(dsts[k]).Ok? && Mapping.PatchPorts(sent[n + k]) == Some((PortOf(dsts[k]).value, shifted))
  {
    UniFromPatches(DeviceSize(d, cli), cli, PortOf(src), dsts);
  }

  /** After a successful size query and source read, a completed loop
      sends one patch per destination from the shifted source. */
  lemma UniFromPatches(size: Outcome<(nat, nat)>, cli: string -> Result<string, string>, source: Result<int, string>,
                       dsts: seq<string>)
    requires UniFrom(size, cli, source, dsts).result.Ok?
    ensures size.result.Ok? && source.Ok?
    ensures var n := |size.commands|;
      var sent := UniFrom(size, cli, source, dsts).commands;
      |sent| == n + |dsts| && sent[..n] == size.commands
    ensures var n := |size.commands|;
      var sent := UniFrom(size, cli, source, dsts).commands;
      var shifted := Shifted(size, source);
      forall k :: 0 <= k < |dsts| ==>
        PortOf(dsts[k]).Ok? && Mapping.PatchPorts(sent[n + k]) == Some((PortOf(dsts[k]).value, shifted))
  {
    UniFromLoop(size, cli, source, dsts);
    var shifted := Shifted(size, source);
    var loop := UniEach(cli, shifted, dsts);
    var sent := UniFrom(size, cli, source, dsts).commands;
    assert forall k :: 0 <= k < |dsts| ==>
      PortOf(dsts[k]).Ok? && Mapping.PatchPorts(loop.0[k]) == Some((PortOf(dsts[k]).value, shifted)) by {
      UniEachPatches(cli, shifted, dsts);
    }
    assert forall k :: 0 <= k < |dsts| ==> sent[|size.commands| + k] == loop.0[k];
  }

  /** A completed `map_uni` after the size query is the query's commands
      followed by a completed loop from the shifted source. */
  lemma UniFromLoop(size: Outcome<(nat, nat)>, cli: string -> Result<string, string>, source: Result<int, string>,
                    dsts: seq<string>)
    requires UniFrom(size, cli, source, dsts).result.Ok?
    ensures size.result.Ok? && source.Ok?
    ensures UniEach(cli, Shifted(size, source), dsts).1.Ok?
    ensures UniFrom(size, cli, source, dsts).commands == size.commands + UniEach(cli, Shifted(size, source), dsts).0
  {
  }

  /** The loop of `map_uni` over the destinations: it stops at the first
      bad address or failed command. */
  function UniEach(cli: string -> Result<string, string>, src: int, dsts: seq<string>): (r: (seq<string>, Result<(), string>))
    ensures |r.0| <= |dsts|
    ensures r.1.Ok? ==> |r.0| == |dsts|
  {
    if |dsts| == 0 then ([], Ok(()))
    else
      match PortOf(dsts[0])
      case Err(e) => ([], Err(e))
      case Ok(t) =>
        var issued := Mapping.MapUni(cli, Mapping.PyInt(src), Mapping.PyInt(t));
        if issued.result.Err? then (issued.commands, Err(issued.result.error))
        else
          var (rest, result) := UniEach(cli, src, dsts[1..]);
          (issued.commands + rest, result)
  }

  /** Each command of a completed `map_uni` loop patches its destination
      from the shifted source. */
  lemma {:induction false} UniEachPatches(cli: string -> Result<string, string>, src: int, dsts: seq<string>)
    requires UniEach(cli, src, dsts).1.Ok?
    ensures forall k :: 0 <= k < |dsts| ==>
      PortOf(dsts[k]).Ok? && Mapping.PatchPorts(UniEach(cli, src, dsts).0[k]) == Some((PortOf(dsts[k]).value, src))
  {
    if |dsts| > 0 {
      var t := UniEachHead(cli, src, dsts);
      var rest := UniEach(cli, src, dsts[1..]).0;
      Mapping.MapUniOperandOrder(cli, src, t);
      UniEachPatches(cli, src, dsts[1..]);
      EachCommand(dsts, UniEach(cli, src, dsts).0, Mapping.PortMap(Mapping.PyInt(src), Mapping.PyInt(t)), rest,
                  (x, c) => PortOf(x).Ok? && Mapping.PatchPorts(c) == Some((PortOf(x).value, src)));
    }
  }

  /** A completed loop starts with the first destination's patch. */
  lemma UniEachHead(cli: string -> Result<string, string>, src: int, dsts: seq<string>) returns (t: int)
    requires |dsts| > 0 && UniEach(cli, src, dsts).1.Ok?
    ensures PortOf(dsts[0]) == Ok(t) && UniEach(cli, src, dsts[1..]).1.Ok?
    ensures UniEach(cli, src, dsts).0 == [Mapping.PortMap(Mapping.PyInt(src), Mapping.PyInt(t))] + UniEach(cli, src, dsts[1..]).0
  {
    t := PortOf(dsts[0]).value;
  }

  /** A relation that holds between each request and its command, for
      the first and for the rest, holds throughout. */
  lemma EachCommand(requests: seq<string>, all: seq<string>, first: string, rest: seq<string>,
                    rel: (string, string) -> bool)
    requires all == [first] + rest && |requests| == |all| > 0
    requires rel(requests[0], first)
    requires forall k :: 0 <= k < |requests| - 1 ==> rel(requests[1..][k], rest[k])
    ensures forall k :: 0 <= k < |requests| ==> rel(requests[k], all[k])
  {
    forall k | 1 <= k < |requests|
      ensures rel(requests[k], all[k])
    {
      assert requests[k] == requests[1..][k - 1];
    }
  }

  // ---------------------------------------------------------------------
  // map_bidi
  // ---------------------------------------------------------------------

  /** `map_bidi`: both addresses are read, then the size, then the
      ports are patched. */
  function MapBidi(d: Driver, cli: string -> Result<string, string>, src: string, dst: string): (r: Outcome<()>)
    ensures PortOf(src).Err? ==> r == Outcome(d, [], Err(PortOf(src).error))
    ensures PortOf(src).Ok? && PortOf(dst).Err? ==> r == Outcome(d, [], Err(PortOf(dst).error))
    ensures PortOf(src).Ok? && PortOf(dst).Ok? ==>
      r == BidiPorts(d.mode, DeviceSize(d, cli), cli, PortOf(src).value, PortOf(dst).value)
  {
    match PortOf(src)
    case Err(e) => Outcome(d, [], Err(e))
    case Ok(s) =>
      match PortOf(dst)
      case Err(e) => Outcome(d, [], Err(e))
      case Ok(t) => BidiPorts(d.mode, DeviceSize(d, cli), cli, s, t)
  }

  /** After the size query `size`: in logical mode two patches, `s + L`
      to `t` and then `t + L` to `s`; in physical mode one patch, lower
      port first. */
  function BidiPorts(mode: string, size: Outcome<(nat, nat)>, cli: string -> Result<string, string>, s: int, t: int): (r: Outcome<()>)
    ensures r.driver == size.driver
  {
    match size.result
    case Err(e) => Outcome(size.driver, size.commands, Err(e))
    case Ok((_, logical)) =>
      if IsLogical(mode) then
        var first := Mapping.MapUni(cli, Mapping.PyInt(s + logical), Mapping.PyInt(t));
        if first.result.Err? then Outcome(size.driver, size.commands + first.commands, Err(first.result.error))
        else
          var second := Mapping.MapUni(cli, Mapping.PyInt(t + logical), Mapping.PyInt(s));
          Outcome(size.driver, size.commands + first.commands + second.commands, Done(second.result))
      else
        var only := Mapping.MapUni(cli, Mapping.PyInt(Max(s, t)), Mapping.PyInt(Min(s, t)));
        Outcome(size.driver, size.commands + only.commands, Done(only.result))
  }

  /** A command's output is dropped; its failure is kept. */
  function Done(r: Result<string, string>): (d: Result<(), string>)
    ensures d.Ok? <==> r.Ok?
    ensures r.Err? ==> d.error == r.error
  {
    match r
    case Ok(_) => Ok(())
    case Err(e) => Err(e)
  }

  /** In logical mode the two patches after the size query, read back:
      the shifted source to the destination, then the shifted destination
      to the source. */
  lemma LogicalBidiPatches(mode: string, size: Outcome<(nat, nat)>, cli: string -> Result<string, string>, s: int, t: int)
    requires IsLogical(mode) && size.result.Ok? && BidiPorts(mode, size, cli, s, t).result.Ok?
    ensures var sent := BidiPorts(mode, size, cli, s, t).commands;
      var n := |size.commands|;
      var logical := size.result.value.1;
      |sent| == n + 2 &&
      Mapping.PatchPorts(sent[n]) == Some((t, s + logical)) &&
      Mapping.PatchPorts(sent[n + 1]) == Some((s, t + logical))
  {
    var logical := size.result.value.1;
    var first := Mapping.MapUni(cli, Mapping.PyInt(s + logical), Mapping.PyInt(t));
    var second := Mapping.MapUni(cli, Mapping.PyInt(t + logical), Mapping.PyInt(s));
    var sent := size.commands + first.commands + second.commands;
    assert BidiPorts(mode, size, cli, s, t).commands == sent by {
      assert first.result.Ok?;
    }
    assert Mapping.PatchPorts(first.commands[0]) == Some((t, s + logical)) by {
      Mapping.MapUniOperandOrder(cli, s + logical, t);
    }
    assert Mapping.PatchPorts(second.commands[0]) == Some((s, t + logical)) by {
      Mapping.MapUniOperandOrder(cli, t + logical, s);
    }
    assert sent[|size.commands|] == first.commands[0];
    assert sent[|size.commands| + 1] == second.commands[0];
  }

  /** In physical mode the one patch after the size query, read back:
      lower port first. */
  lemma PhysicalBidiPatch(mode: string, size: Outcome<(nat, nat)>, cli: string -> Result<string, string>, s: int, t: int)
    requires !IsLogical(mode) && BidiPorts(mode, size, cli, s, t).result.Ok?
    ensures var sent := BidiPorts(mode, size, cli, s, t).commands;
      var n := |size.commands|;
      |sent| == n + 1 && Mapping.PatchPorts(sent[n]) == Some((Min(s, t), Max(s, t)))
  {
    Mapping.MapUniOperandOrder(cli, Max(s, t), Min(s, t));
  }

  /** In physical mode the direction of a request does not matter. */
  lemma PhysicalBidiSymmetric(mode: string, size: Outcome<(nat, nat)>, cli: string -> Result<string, string>, s: int, t: int)
    requires !IsLogical(mode)
    ensures BidiPorts(mode, size, cli, s, t) == BidiPorts(mode, size, cli, t, s)
  {
    assert Max(s, t) == Max(t, s) && Min(s, t) == Min(t, s);
  }

  // ---------------------------------------------------------------------
  // map_clear_to
  // ---------------------------------------------------------------------

  /** `map_clear_to`: per destination one clear, of the destination in
      logical mode and of the lower of the two ports in physical mode. */
  function MapClearTo(d: Driver, cli: string -> Result<string, string>, src: string, dsts: seq<string>): (r: Outcome<()>)
    ensures r.driver == d
    ensures PortOf(src).Err? ==> r.commands == [] && r.result == Err(PortOf(src).error)
  {
    match PortOf(src)
    case Err(e) => Outcome(d, [], Err(e))
    case Ok(s) =>
      var (commands, result) := ClearEach(cli, IsLogical(d.mode), s, dsts);
      Outcome(d, commands, result)
  }

  /** A completed `map_clear_to` sends one clear per destination, in
      order: of the destination itself in logical mode, of the lower of
      source and destination in physical mode. */
  lemma MapClearToTargets(d: Driver, cli: string -> Result<string, string>, src: string, dsts: seq<string>)
    requires MapClearTo(d, cli, src, dsts).result.Ok?
    ensures PortOf(src).Ok? && |MapClearTo(d, cli, src, dsts).commands| == |dsts|
    ensures IsLogical(d.mode) ==> forall k :: 0 <= k < |dsts| ==>
      PortOf(dsts[k]).Ok? &&
      Mapping.ClearedPorts(MapClearTo(d, cli, src, dsts).commands[k]) == Some([PortOf(dsts[k]).value])
    ensures !IsLogical(d.mode) ==> forall k :: 0 <= k < |dsts| ==>
      PortOf(dsts[k]).Ok? &&
      Mapping.ClearedPorts(MapClearTo(d, cli, src, dsts).commands[k])
        == Some([Min(PortOf(src).value, PortOf(dsts[k]).value)])
  {
    ClearEachPorts(cli, IsLogical(d.mode), PortOf(src).value, dsts);
  }

  /** The port `map_clear_to` clears for destination `t`. */
  function ClearTarget(logical: bool, s: int, t: int): int
  {
    if logical then t else Min(s, t)
  }

  function ClearEach(cli: string -> Result<string, string>, logical: bool, s: int, dsts: seq<string>): (r: (seq<string>, Result<(), string>))
    ensures |r.0| <= |dsts|
    ensures r.1.Ok? ==> |r.0| == |dsts|
  {
    if |dsts| == 0 then ([], Ok(()))
    else
      match PortOf(dsts[0])
      case Err(e) => ([], Err(e))
      case Ok(t) =>
        var issued := Mapping.MapClearTo(cli, Mapping.PyInt(ClearTarget(logical, s, t)));
        if issued.result.Err? then (issued.commands, Err(issued.result.error))
        else
          var (rest, result) := ClearEach(cli, logical, s, dsts[1..]);
          (issued.commands + rest, result)
  }

  /** Each command of a completed `map_clear_to` loop clears exactly the
      port chosen for its destination. */
  lemma {:induction false} ClearEachPorts(cli: string -> Result<string, string>, logical: bool, s: int, dsts: seq<string>)
    requires ClearEach(cli, logical, s, dsts).1.Ok?
    ensures forall k :: 0 <= k < |dsts| ==>
      PortOf(dsts[k]).Ok? &&
      Mapping.ClearedPorts(ClearEach(cli, logical, s, dsts).0[k]) == Some([ClearTarget(logical, s, PortOf(dsts[k]).value)])
  {
    if |dsts| > 0 {
      var t := ClearEachHead(cli, logical, s, dsts);
      var port := ClearTarget(logical, s, t);
      Mapping.MapClearToNamesPort(cli, port);
      ClearEachPorts(cli, logical, s, dsts[1..]);
      EachCommand(dsts, ClearEach(cli, logical, s, dsts).0, Mapping.MapClearCommand(Mapping.PyInt(port)),
                  ClearEach(cli, logical, s, dsts[1..]).0,
                  (x, c) => PortOf(x).Ok? && Mapping.ClearedPorts(c) == Some([ClearTarget(logical, s, PortOf(x).value)]));
    }
  }

  /** A completed loop starts with the first destination's clear. */
  lemma ClearEachHead(cli: string -> Result<string, string>, logical: bool, s: int, dsts: seq<string>) returns (t: int)
    requires |dsts| > 0 && ClearEach(cli, logical, s, dsts).1.Ok?
    ensures PortOf(dsts[0]) == Ok(t) && ClearEach(cli, logical, s, dsts[1..]).1.Ok?
    ensures ClearEach(cli, logical, s, dsts).0 ==
      [Mapping.MapClearCommand(Mapping.PyInt(ClearTarget(logical, s, t)))] + ClearEach(cli, logical, s, dsts[1..]).0
  {
    t := PortOf(dsts[0]).value;
  }

  // ---------------------------------------------------------------------
  // map_clear
  // ---------------------------------------------------------------------

  /** `map_clear`: per port, in logical mode the size and then one clear
      of the pair (p, p + L) handed to `MappingActions.map_clear` as ints;
      in physical mode one clear of p. */
  function MapClear(d: Driver, cli: string -> Result<string, string>, ports: seq<string>): (r: Outcome<()>)
    ensures r.driver.mode == d.mode
    decreases |ports|
  {
    if |ports| == 0 then Outcome(d, [], Ok(()))
    else
      match PortOf(ports[0])
      case Err(e) => Outcome(d, [], Err(e))
      case Ok(p) =>
        if IsLogical(d.mode) then
          var size := DeviceSize(d, cli);
          match size.result
          case Err(e) => Outcome(size.driver, size.commands, Err(e))
          case Ok((_, logical)) =>
            var issued := Mapping.MapClear(cli, [Mapping.PyInt(p), Mapping.PyInt(p + logical)]);
            if issued.result.Err? then Outcome(size.driver, size.commands + issued.commands, Err(issued.result.error))
            else
              var rest := MapClear(size.driver, cli, ports[1..]);
              Outcome(rest.driver, size.commands + issued.commands + rest.commands, rest.result)
        else
          var issued := Mapping.MapClearTo(cli, Mapping.PyInt(p));
          if issued.result.Err? then Outcome(d, issued.commands, Err(issued.result.error))
          else
            var rest := MapClear(d, cli, ports[1..]);
            Outcome(rest.driver, issued.commands + rest.commands, rest.result)
  }

  /** In logical mode `map_clear` never sends a clear: the join of the two
      int ports raises before the first one is sent, so only the size
      query can reach the device. */
  lemma LogicalMapClearRaises(d: Driver, cli: string -> Result<string, string>, ports: seq<string>)
    requires IsLogical(d.mode) && |ports| > 0 && PortOf(ports[0]).Ok? && DeviceSize(d, cli).result.Ok?
    ensures MapClear(d, cli, ports).result == Err("sequence item 0: expected string, int found")
    ensures MapClear(d, cli, ports).commands == DeviceSize(d, cli).commands
  {
    var p := PortOf(ports[0]).value;
    var logical := DeviceSize(d, cli).result.value.1;
    Mapping.MapClearOfInts(cli, p, p + logical);
  }

  /** In physical mode a completed `map_clear` sends one clear per port,
      each naming that port. */
  lemma {:induction false} PhysicalMapClearPorts(d: Driver, cli: string -> Result<string, string>, ports: seq<string>)
    requires !IsLogical(d.mode) && MapClear(d, cli, ports).result.Ok?
    ensures |MapClear(d, cli, ports).commands| == |ports|
    ensures forall k :: 0 <= k < |ports| ==>
      PortOf(ports[k]).Ok? && Mapping.ClearedPorts(MapClear(d, cli, ports).commands[k]) == Some([PortOf(ports[k]).value])
    decreases |ports|
  {
    if |ports| > 0 {
      var p := PhysicalClearHead(d, cli, ports);
      Mapping.MapClearToNamesPort(cli, p);
      PhysicalMapClearPorts(d, cli, ports[1..]);
      EachCommand(ports, MapClear(d, cli, ports).commands, Mapping.MapClearCommand(Mapping.PyInt(p)),
                  MapClear(d, cli, ports[1..]).commands,
                  (x, c) => PortOf(x).Ok? && Mapping.ClearedPorts(c) == Some([PortOf(x).value]));
    }
  }

  /** A completed physical `map_clear` starts with the first port's clear. */
  lemma PhysicalClearHead(d: Driver, cli: string -> Result<string, string>, ports: seq<string>) returns (p: int)
    requires !IsLogical(d.mode) && |ports| > 0 && MapClear(d, cli, ports).result.Ok?
    ensures PortOf(ports[0]) == Ok(p) && MapClear(d, cli, ports[1..]).result.Ok?
    ensures MapClear(d, cli, ports).commands ==
      [Mapping.MapClearCommand(Mapping.PyInt(p))] + MapClear(d, cli, ports[1..]).commands
  {
    p := PortOf(ports[0]).value;
  }
}
