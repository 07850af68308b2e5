/** `PolatisDriverHandler.get_resource_description`
    (polatis/polatis_driver_handler.py): the device queries, then in tl1
    mode the chassis attributes from the model report and the serial
    number, the patch list folded into the handler's port mapping, and
    one port per line of the shutter table. The resource object and its
    XML rendering belong to a shared library outside this model; the
    description keeps the values the handler puts into it. */
module HandlerDescription {
  import opened Wrappers
  import opened Text
  import opened DriverHandler
  import opened HandlerReplies

  /** The chassis values: the four model fields and the serial number. */
  datatype Chassis = Chassis(info: ModelInfo, serial: string)

  /** What the handler describes: the address, in tl1 mode the chassis,
      and the ports in the order the shutter table lists them. */
  datatype Description = Description(address: string, chassis: Option<Chassis>, ports: seq<PortInfo>)

  const NoModelInfo: string := "Can't parse model info!"
  const NoSerialInfo: string := "Can't parse serial number info!"

  /** The tl1 part over the collected replies: the model report and the
      serial must both parse, and only then is the patch list folded into
      the mapping and the shutter table read against it. */
  function Describe(h: Handler, address: string, d: DeviceData): (r: (Handler, Result<Description, string>))
    ensures r.0 == h.(mapping := r.0.mapping)
    ensures h.mapping.Keys <= r.0.mapping.Keys
    ensures SearchModelInfo(d.netype).None? ==> r == (h, Err(NoModelInfo))
    ensures SearchModelInfo(d.netype).Some? && SearchSerial(d.inv).None? ==> r == (h, Err(NoSerialInfo))
    ensures r.1.Ok? <==> SearchModelInfo(d.netype).Some? && SearchSerial(d.inv).Some?
    ensures r.1.Ok? ==> r.0.mapping.Keys == h.mapping.Keys + Named(Split(d.patch, '\n'))
    ensures r.1.Ok? ==>
              r.1.value.address == address &&
              r.1.value.chassis == Some(Chassis(SearchModelInfo(d.netype).value, SearchSerial(d.inv).value))
    ensures r.1.Ok? ==> r.1.value.chassis.Some? && PortsAgree(r.1.value, r.0.mapping)
    ensures var sh := Shutters(Split(d.shutter, '\n'));
      r.1.Ok? ==>
        |r.1.value.ports| == |sh| &&
        forall k :: 0 <= k < |sh| ==> r.1.value.ports[k].id == sh[k].0 && (r.1.value.ports[k].enabled <==> sh[k].1)
  {
    match SearchModelInfo(d.netype)
    case None => (h, Err(NoModelInfo))
    case Some(info) =>
      match SearchSerial(d.inv)
      case None => (h, Err(NoSerialInfo))
      case Some(serial) =>
        var lines := Split(d.patch, '\n');
        var m := AddPairs(h.mapping, lines);
        AddPairsKeys(h.mapping, lines);
        var ports := HandlerReplies.Ports(address + "/", info.model, m, Split(d.shutter, '\n'));
        (h.(mapping := m), Ok(Description(address, Some(Chassis(info, serial)), ports)))
  }

  /** `get_resource_description`: the device queries' failures propagate
      (an unsupported mode among them); scpi mode describes the address
      alone; tl1 mode describes the chassis and its ports. The mapping is
      only ever extended, never cleared. */
  function GetResourceDescription(h: Handler, send: Session, address: string): (r: Step<Description>)
    ensures var data := GetDeviceData(h, send);
      r.sent == data.sent && r.handler == data.handler.(mapping := r.handler.mapping) &&
      (data.result.Err? ==> r.handler == data.handler && r.result == Err(data.result.error))
    ensures h.mapping.Keys <= r.handler.mapping.Keys
    ensures h.service.Scpi? ==> r == Step(h, [], Ok(Description(address, None, [])))
    ensures h.service.Unsupported? ==> r == Step(h, [], Err(ModeError(h.service.mode)))
  {
    var data := GetDeviceData(h, send);
    match data.result
    case Err(e) => Step(data.handler, data.sent, Err(e))
    case Ok(None) => Step(data.handler, data.sent, Ok(Description(address, None, [])))
    case Ok(Some(d)) =>
      var (h1, result) := Describe(data.handler, address, d);
      Step(h1, data.sent, result)
  }

  /** Each port of a description agrees with the mapping the handler ends
      with: it carries the chassis model name, and it is mapped exactly
      when the mapping knows its id, to the address and the partner. */
  predicate PortsAgree(desc: Description, m: map<string, string>)
    requires desc.chassis.Some?
  {
    forall k :: 0 <= k < |desc.ports| ==>
      var p := desc.ports[k];
      p.modelName == desc.chassis.value.info.model &&
      (p.mapping.Some? <==> p.id in m) &&
      (p.id in m ==> p.mapping == Some(desc.address + "/" + m[p.id]))
  }

  /** A tl1 description that succeeds has a chassis and ports that agree
      with the handler's mapping after the call. */
  lemma DescriptionPorts(h: Handler, send: Session, address: string)
    requires h.service.Tl1?
    ensures var r := GetResourceDescription(h, send, address);
      r.result.Ok? ==> r.result.value.chassis.Some? && PortsAgree(r.result.value, r.handler.mapping)
  {
    DeviceDataReplies(h, send);
  }

  /** A tl1 description fails on an unparsable model report or serial
      after the queries, leaving the mapping as it was. */
  lemma DescriptionParseErrors(h: Handler, send: Session, address: string)
    requires h.service.Tl1?
    ensures var r := GetResourceDescription(h, send, address);
      var data := GetDeviceData(h, send);
      data.result.Ok? ==>
        (data.result.value.Some? &&
         var d := data.result.value.value;
         (SearchModelInfo(d.netype).None? ==> r == Step(data.handler, data.sent, Err(NoModelInfo))) &&
         (SearchModelInfo(d.netype).Some? && SearchSerial(d.inv).None? ==> r == Step(data.handler, data.sent, Err(NoSerialInfo))))
  {
    DeviceDataReplies(h, send);
  }
}
