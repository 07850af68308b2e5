/** `DriverCommands.get_resource_description` (polatis/driver_commands.py):
    the chassis with one port per logical or physical port, each port's
    id, serial, wavelength and power, and the mappings read from the
    switch's patch table.

    The port entities of the L1 library become plain values: a port holds
    the readings set on it and the port its one mapping points to. */
module DriverResources {
  import opened Wrappers
  import opened Text
  import DeviceReplies
  import DC = DriverCommands

  /** A reading as `dict.get(port, 0)` yields it: the reported text, or
      the int 0 for a port the reply did not mention. */
  datatype Reading = Reported(text: string) | Zero

  /** What `add_mapping` was handed: the port with that address, or
      `None` for an address without a port. */
  datatype Link = To(address: nat) | ToMissing

  datatype Port = Port(address: nat, id: string, serial: string, wavelength: Reading,
                       tx: Option<Reading>, rx: Option<Reading>, mapping: Option<Link>)

  datatype Chassis = Chassis(address: string, model: string, version: string, serial: string, ports: seq<Port>)

  /** Raised by `switch_details["Model"]` when the type report did not
      parse. */
  const NoDetails: string := "'NoneType' object has no attribute '__getitem__'"

  /** Raised by `src_port.add_mapping` for a connection whose source has
      no port. */
  const NoPort: string := "'NoneType' object has no attribute 'add_mapping'"

  /** `dict.get(port, 0)` */
  function Get(m: map<nat, string>, port: nat): (r: Reading)
    ensures r.Reported? <==> port in m
    ensures r.Reported? ==> r.text == m[port]
  {
    if port in m then Reported(m[port]) else Zero
  }

  // ---------------------------------------------------------------------
  // Port ids: "{:0{}d}".format(port, len(str(total)))
  // ---------------------------------------------------------------------

  function Zeros(n: nat): (z: string)
    ensures |z| == n && forall k :: 0 <= k < n ==> z[k] == '0'
  {
    seq(n, _ => '0')
  }

  /** A decimal number left-padded with zeros to `width` characters, or
      left alone when it is already as wide. */
  function PadNumber(n: nat, width: nat): (r: string)
    ensures |r| == Max(width, |NatToString(n)|)
  {
    var digits := NatToString(n);
    if |digits| >= width then digits else Zeros(width - |digits|) + digits
  }

  /** The id of port `port` on a switch of `total` ports. */
  function PortId(port: nat, total: nat): string
  {
    PadNumber(port, |NatToString(total)|)
  }

  /** For every port up to the total the id has the width of the total's
      spelling and is all digits spelling the port number. */
  lemma PortIdDigits(port: nat, total: nat)
    requires port <= total
    ensures |PortId(port, total)| == |NatToString(total)|
    ensures AllDigits(PortId(port, total)) && DigitsValue(PortId(port, total)) == port
  {
    NatToStringLonger(port, total);
    var digits := NatToString(port);
    NatToStringRoundTrip(port);
    LeadingZeros(Zeros(|NatToString(total)| - |digits|), digits);
  }

  /** Ids of distinct ports differ. */
  lemma PortIdInjective(a: nat, b: nat, total: nat)
    requires a <= total && b <= total && PortId(a, total) == PortId(b, total)
    ensures a == b
  {
    PortIdDigits(a, total);
    PortIdDigits(b, total);
  }

  // ---------------------------------------------------------------------
  // One port
  // ---------------------------------------------------------------------

  /** The transmit and receive power of port `port`: in logical mode the
      port's own reading and that of its partner `port + L`; in physical
      mode the port's reading, as transmit power for the first L ports and
      as receive power for the rest. */
  function Power(logicalMode: bool, port: nat, logical: nat, power: map<nat, string>): (Option<Reading>, Option<Reading>)
  {
    if logicalMode then (Some(Get(power, port)), Some(Get(power, port + logical)))
    else if port <= logical then (Some(Get(power, port)), None)
    else (None, Some(Get(power, port)))
  }

  /** Each port's transmit and receive power, by mode. */
  lemma PowerSides(logicalMode: bool, port: nat, logical: nat, power: map<nat, string>)
    ensures var (tx, rx) := Power(logicalMode, port, logical, power);
      (logicalMode ==> tx == Some(Get(power, port)) && rx == Some(Get(power, port + logical))) &&
      (!logicalMode ==> (tx.Some? <==> port <= logical) && (rx.Some? <==> !(port <= logical)) &&
                        (tx.Some? ==> tx.value == Get(power, port)) && (rx.Some? ==> rx.value == Get(power, port)))
  {
  }

  /** The mapping the connection loop gives port `port`. */
  function LinkOf(table: map<nat, nat>, count: nat, port: nat): Option<Link>
  {
    if port !in table then None
    else if 1 <= table[port] <= count then Some(To(table[port]))
    else Some(ToMissing)
  }

  function MakePort(serial: string, total: nat, logical: nat, logicalMode: bool, count: nat,
                    power: map<nat, string>, wave: map<nat, string>, table: map<nat, nat>, port: nat): Port
  {
    var (tx, rx) := Power(logicalMode, port, logical, power);
    Port(port, PortId(port, total), serial + "." + NatToString(port), Get(wave, port), tx, rx, LinkOf(table, count, port))
  }

  /** The number of ports the chassis shows. */
  function PortCount(logicalMode: bool, total: nat, logical: nat): nat
  {
    if logicalMode then logical else total
  }

  /** The ports 1..count in order; the connection loop raises as soon as
      a connection's source has no port. Every source is looked up before
      the description is returned, so whether it raises does not depend
      on the dictionary's iteration order. */
  function Ports(serial: string, total: nat, logical: nat, logicalMode: bool,
                 power: map<nat, string>, wave: map<nat, string>, table: map<nat, nat>): (r: Result<seq<Port>, string>)
    ensures r.Err? <==> exists k :: k in table && !(1 <= k <= PortCount(logicalMode, total, logical))
    ensures r.Err? ==> r.error == NoPort
    ensures r.Ok? ==> |r.value| == PortCount(logicalMode, total, logical)
    ensures r.Ok? ==> forall i :: 0 <= i < |r.value| ==>
      r.value[i] == MakePort(serial, total, logical, logicalMode, |r.value|, power, wave, table, i + 1)
  {
    var count := PortCount(logicalMode, total, logical);
    if exists k :: k in table && !(1 <= k <= count) then Err(NoPort)
    else Ok(seq(count, i requires 0 <= i < count => MakePort(serial, total, logical, logicalMode, count, power, wave, table, i + 1)))
  }

  // ---------------------------------------------------------------------
  // Properties of the port table
  // ---------------------------------------------------------------------

  /** Port i of the table has address i + 1, the switch serial and the
      port number as its serial, and a fixed-width id spelling its
      number. */
  lemma PortsNumbered(serial: string, total: nat, logical: nat, logicalMode: bool,
                      power: map<nat, string>, wave: map<nat, string>, table: map<nat, nat>, i: nat)
    requires logical <= total
    requires Ports(serial, total, logical, logicalMode, power, wave, table).Ok?
    requires i < |Ports(serial, total, logical, logicalMode, power, wave, table).value|
    ensures var p := Ports(serial, total, logical, logicalMode, power, wave, table).value[i];
      p.address == i + 1 && p.serial == serial + "." + NatToString(i + 1) &&
      |p.id| == |NatToString(total)| && AllDigits(p.id) && DigitsValue(p.id) == i + 1 &&
      p.wavelength == Get(wave, i + 1)
  {
    PortIdDigits(i + 1, total);
  }

  /** A port is mapped iff the connection table has an entry for it: to
      the port its entry names when the chassis shows that port, and to
      `None` (`ports.get` of a missing address) when it does not, as for a
      logical partner above the logical count. */
  lemma PortsMapped(serial: string, total: nat, logical: nat, logicalMode: bool,
                    power: map<nat, string>, wave: map<nat, string>, table: map<nat, nat>, i: nat)
    requires Ports(serial, total, logical, logicalMode, power, wave, table).Ok?
    requires i < |Ports(serial, total, logical, logicalMode, power, wave, table).value|
    ensures var ports := Ports(serial, total, logical, logicalMode, power, wave, table).value;
      (ports[i].mapping.Some? <==> i + 1 in table) &&
      (ports[i].mapping == Some(ToMissing) <==> i + 1 in table && !(1 <= table[i + 1] <= |ports|)) &&
      (i + 1 in table ==> (ports[i].mapping == Some(To(table[i + 1])) <==> 1 <= table[i + 1] <= |ports|)) &&
      (ports[i].mapping.Some? && ports[i].mapping.value.To? ==> ports[i].mapping.value.address == table[i + 1])
  {
  }

  /** For a symmetric connection table the port mappings are symmetric:
      when port a maps to port b, port b maps to port a. */
  lemma MappingsSymmetric(serial: string, total: nat, logical: nat, logicalMode: bool,
                          power: map<nat, string>, wave: map<nat, string>, table: map<nat, nat>, a: nat)
    requires DeviceReplies.Involutive(table)
    requires Ports(serial, total, logical, logicalMode, power, wave, table).Ok?
    requires a < |Ports(serial, total, logical, logicalMode, power, wave, table).value|
    ensures var ports := Ports(serial, total, logical, logicalMode, power, wave, table).value;
      ports[a].mapping.Some? ==>
        ports[a].mapping.value.To? &&
        var b := ports[a].mapping.value.address - 1;
        0 <= b < |ports| && ports[b].mapping == Some(To(a + 1))
  {
    var ports := Ports(serial, total, logical, logicalMode, power, wave, table).value;
    if ports[a].mapping.Some? {
      var b: nat := table[a + 1];
      assert b in table && table[b] == a + 1;
      assert 1 <= b <= |ports|;
    }
  }

  // ---------------------------------------------------------------------
  // get_resource_description
  // ---------------------------------------------------------------------

  /** The connection table as `get_connections` returns it for the patch
      report `output`: the physical table, or in logical mode its
      remapping walked in `order`, the dictionary's iteration order. */
  function ConnectionTable(output: string, logical: nat, logicalMode: bool,
                           iteration: map<nat, nat> -> seq<nat>): (r: map<nat, nat>)
    requires forall m :: DeviceReplies.IsOrder(m, iteration(m))
    ensures !logicalMode ==> r == DeviceReplies.Connections(DeviceReplies.Pairs(output))
  {
    var m := DeviceReplies.Connections(DeviceReplies.Pairs(output));
    DeviceReplies.GetConnections(output, logical, logicalMode, iteration(m))
  }

  /** For a symmetric physical table the logical table does not depend on
      the iteration order. */
  lemma LogicalConnections(output: string, logical: nat, iteration: map<nat, nat> -> seq<nat>)
    requires forall m :: DeviceReplies.IsOrder(m, iteration(m))
    requires DeviceReplies.Involutive(DeviceReplies.Connections(DeviceReplies.Pairs(output)))
    ensures ConnectionTable(output, logical, true, iteration) ==
      DeviceReplies.LogicalTable(DeviceReplies.Connections(DeviceReplies.Pairs(output)), logical)
  {
    var m := DeviceReplies.Connections(DeviceReplies.Pairs(output));
    DeviceReplies.RemapIsLogicalTable(m, iteration(m), logical);
  }

  /** `get_resource_description(address)`: the serial, the type report,
      the size, the patch table, then the power and wavelength reports of
      all physical ports. */
  function ResourceDescription(d: DC.Driver, cli: string -> Result<string, string>, address: string,
                               iteration: map<nat, nat> -> seq<nat>): (r: DC.Outcome<Chassis>)
    requires forall m :: DeviceReplies.IsOrder(m, iteration(m))
    ensures |r.commands| >= 1 && r.commands[0] == DC.PSerial
    ensures cli(DC.PSerial).Err? ==> r == DC.Outcome(d, [DC.PSerial], Err(cli(DC.PSerial).error))
    ensures cli(DC.PSerial).Ok? && cli(DC.NeType).Err? ==>
      r == DC.Outcome(d, [DC.PSerial, DC.NeType], Err(cli(DC.NeType).error))
    ensures cli(DC.PSerial).Ok? && cli(DC.NeType).Ok? && DeviceReplies.SwitchDetails(cli(DC.NeType).value).None? ==>
      r == DC.Outcome(d, [DC.PSerial, DC.NeType], Err(NoDetails))
    ensures r.result.Ok? ==>
      cli(DC.PSerial).Ok? && cli(DC.NeType).Ok? && DeviceReplies.SwitchDetails(cli(DC.NeType).value).Some? &&
      var details := DeviceReplies.SwitchDetails(cli(DC.NeType).value).value;
      r.result.value.address == address &&
      r.result.value.serial == DeviceReplies.SwitchSerial(cli(DC.PSerial).value) &&
      "Model" in details && r.result.value.model == details["Model"] &&
      "Version" in details && r.result.value.version == details["Version"]
    ensures cli(DC.PSerial).Ok? && cli(DC.NeType).Ok? && DeviceReplies.SwitchDetails(cli(DC.NeType).value).Some? ==>
      var details := DeviceReplies.SwitchDetails(cli(DC.NeType).value).value;
      "Model" in details && "Version" in details &&
      var rest := Describe(DC.IsLogical(d.mode), DC.DeviceSize(d, cli), cli, address,
                           DeviceReplies.SwitchSerial(cli(DC.PSerial).value), details["Model"], details["Version"], iteration);
      r == DC.Outcome(rest.driver, [DC.PSerial, DC.NeType] + rest.commands, rest.result)
  {
    match cli(DC.PSerial)
    case Err(e) => DC.Outcome(d, [DC.PSerial], Err(e))
    case Ok(serialOut) =>
      match cli(DC.NeType)
      case Err(e) => DC.Outcome(d, [DC.PSerial, DC.NeType], Err(e))
      case Ok(typeOut) =>
        match DeviceReplies.SwitchDetails(typeOut)
        case None => DC.Outcome(d, [DC.PSerial, DC.NeType], Err(NoDetails))
        case Some(details) =>
          var rest := Describe(DC.IsLogical(d.mode), DC.DeviceSize(d, cli), cli, address,
                               DeviceReplies.SwitchSerial(serialOut), details["Model"], details["Version"], iteration);
          DC.Outcome(rest.driver, [DC.PSerial, DC.NeType] + rest.commands, rest.result)
  }

  /** The description after the serial and the type report, given the
      size query's outcome `size`. */
  function Describe(logicalMode: bool, size: DC.Outcome<(nat, nat)>, cli: string -> Result<string, string>,
                    address: string, serial: string, model: string, version: string,
                    iteration: map<nat, nat> -> seq<nat>): (r: DC.Outcome<Chassis>)
    requires forall m :: DeviceReplies.IsOrder(m, iteration(m))
    ensures r.driver == size.driver
    ensures size.result.Err? ==> r.commands == size.commands && r.result == Err(size.result.error)
    ensures size.result.Ok? && cli(DC.PatchQuery).Ok? ==>
      var total := size.result.value.0;
      r.commands == size.commands + [DC.PatchQuery, DC.PowerQuery(total), DC.WaveQuery(total)]
    ensures r.result.Ok? ==>
      r.result.value.address == address && r.result.value.serial == serial &&
      r.result.value.model == model && r.result.value.version == version
  {
    match size.result
    case Err(e) => DC.Outcome(size.driver, size.commands, Err(e))
    case Ok((total, logical)) =>
      match cli(DC.PatchQuery)
      case Err(e) => DC.Outcome(size.driver, size.commands + [DC.PatchQuery], Err(e))
      case Ok(patchOut) =>
        var table := ConnectionTable(patchOut, logical, logicalMode, iteration);
        var power := DeviceReplies.PortValues(cli(DC.PowerQuery(total)));
        var wave := DeviceReplies.PortWavelengths(cli(DC.WaveQuery(total)));
        var sent := size.commands + [DC.PatchQuery, DC.PowerQuery(total), DC.WaveQuery(total)];
        match Ports(serial, total, logical, logicalMode, power, wave, table)
        case Err(e) => DC.Outcome(size.driver, sent, Err(e))
        case Ok(ports) => DC.Outcome(size.driver, sent, Ok(Chassis(address, model, version, serial, ports)))
  }

  /** A description that completes shows the ports of the mode, numbered
      from 1, carrying the readings and mappings the switch reported. */
  lemma DescribedPorts(logicalMode: bool, size: DC.Outcome<(nat, nat)>, cli: string -> Result<string, string>,
                       address: string, serial: string, model: string, version: string,
                       iteration: map<nat, nat> -> seq<nat>)
    requires forall m :: DeviceReplies.IsOrder(m, iteration(m))
    requires Describe(logicalMode, size, cli, address, serial, model, version, iteration).result.Ok?
    ensures size.result.Ok? && cli(DC.PatchQuery).Ok?
    ensures var (total, logical) := size.result.value;
      var table := ConnectionTable(cli(DC.PatchQuery).value, logical, logicalMode, iteration);
      var power := DeviceReplies.PortValues(cli(DC.PowerQuery(total)));
      var wave := DeviceReplies.PortWavelengths(cli(DC.WaveQuery(total)));
      Ports(serial, total, logical, logicalMode, power, wave, table) ==
        Ok(Describe(logicalMode, size, cli, address, serial, model, version, iteration).result.value.ports)
  {
  }
}
