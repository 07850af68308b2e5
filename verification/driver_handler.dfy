/** The older TL1 driver (`PolatisDriverHandler` in
    polatis/polatis_driver_handler.py): a ctag counter that every tagged
    command pre-increments, the login, the five device queries, the
    resource description built from their replies, and the three mapping
    commands.

    The session is a parameter: the output `send_command` returns for a
    command, or the failure it raises. Every step records the commands
    handed to it, in order. An exception is modelled by its message; the
    handler raises its own failures with "PolatisDriverHandler" as the
    first argument, which the model does not keep. */
module DriverHandler {
  import opened Wrappers
  import opened Text
  import Tl1Reply
  import DeviceReplies

  /** The service mode `login` and the queries branch on: the configured
      text compared case-insensitively with "scpi" and "tl1". */
  datatype Service = Scpi | Tl1 | Unsupported(mode: string)

  function Classify(mode: string): (r: Service)
    ensures r.Unsupported? ==> r.mode == mode
  {
    if ToLower(mode) == "scpi" then Scpi
    else if ToLower(mode) == "tl1" then Tl1
    else Unsupported(mode)
  }

  /** The comparison ignores case. */
  lemma ClassifyIgnoresCase()
    ensures Classify("TL1") == Tl1 && Classify("tl1") == Tl1 && Classify("Tl1") == Tl1
    ensures Classify("SCPI") == Scpi && Classify("scpi") == Scpi
    ensures Classify("telnet") == Unsupported("telnet")
  {
    assert ToLower("TL1") == "tl1";
    assert ToLower("Tl1") == "tl1";
    assert ToLower("SCPI") == "scpi";
    assert ToLower("telnet") == "telnet";
  }

  /** The handler's state: the service mode, the last ctag used, the
      switch name and the port mapping read so far. The mode is read once
      from the configuration and never changes, so it is classified once. */
  datatype Handler = Handler(service: Service, ctag: int, switchName: string, mapping: map<string, string>)

  /** A new handler: ctag 1, no switch name, no mappings. */
  function Init(mode: string): Handler
  {
    Handler(Classify(mode), 1, "", map[])
  }

  /** What one call did: the handler after it, the commands sent and the
      result or the exception raised. */
  datatype Step<T> = Step(handler: Handler, sent: seq<Tl1Command>, result: Result<T, string>)

  /** The message raised for a service mode that is neither scpi nor tl1. */
  function ModeError(mode: string): string
  {
    "From service mode type (current mode: '" + mode + "'!"
  }

  /** `_incr_ctag`: the counter is advanced first and the new value used. */
  function IncrCtag(h: Handler): (r: (Handler, int))
    ensures r.0 == h.(ctag := h.ctag + 1) && r.1 == r.0.ctag
  {
    var next := h.ctag + 1;
    (h.(ctag := next), next)
  }

  // ---------------------------------------------------------------------
  // Commands
  // ---------------------------------------------------------------------

  /** The commands the handler formats, each with the text that ends its
      line: the login line ends with the password. */
  datatype Verb = ActUser(password: string) | RtrvHdr | RtrvNetype | RtrvEqpt | RtrvPortShutter
                | RtrvPatch | RtrvInv | EntPatch | DltPatch

  function VerbText(v: Verb): string
  {
    match v
    case ActUser(_) => "ACT-USER"
    case RtrvHdr => "RTRV-HDR"
    case RtrvNetype => "RTRV-NETYPE"
    case RtrvEqpt => "RTRV-EQPT"
    case RtrvPortShutter => "RTRV-PORT-SHUTTER"
    case RtrvPatch => "RTRV-PATCH"
    case RtrvInv => "RTRV-INV"
    case EntPatch => "ENT-PATCH"
    case DltPatch => "DLT-PATCH"
  }

  /** What follows the tag's colon. */
  function RestText(v: Verb): string
  {
    match v
    case ActUser(password) => ":" + password + ";"
    case RtrvEqpt => "::PARAMETER=SIZE;"
    case _ => ";"
  }

  /** The access identifier: literal text, the shutter query's port range
      `1&&size`, the patch's port pair `low,high`, or the one port a
      disconnect names. */
  datatype Aid = Literal(text: string) | PortRange(size: nat) | PortPair(low: int, high: int) | OnePort(port: int)

  function AidText(a: Aid): string
  {
    match a
    case Literal(text) => text
    case PortRange(size) => "1&&" + NatToString(size)
    case PortPair(low, high) => IntToString(low) + "," + IntToString(high)
    case OnePort(port) => IntToString(port)
  }

  /** A TL1 command line as the handler formats it: verb, target
      identifier, access identifier and the number in the correlation tag
      slot. */
  datatype Tl1Command = Tl1Command(verb: Verb, tid: string, aid: Aid, tag: int)

  /** The line handed to the session: the parts joined by colons, then the
      verb's ending. */
  function Render(c: Tl1Command): string
  {
    VerbText(c.verb) + ":" + c.tid + ":" + AidText(c.aid) + ":" + IntToString(c.tag) + ":" + RestText(c.verb)
  }

  /** The session: the reply to a command line, or the failure it raises.
      The session only ever sees `Render(c)`, so it is taken as a function
      of the command. */
  type Session = Tl1Command -> Result<string, string>

  /** The login line; its tag is the literal 1. */
  function UserCommand(username: string, password: string): Tl1Command
  {
    Tl1Command(ActUser(password), "", Literal(username), 1)
  }

  function HeaderQuery(tag: int): Tl1Command
  {
    Tl1Command(RtrvHdr, "", Literal(""), tag)
  }

  function NetypeQuery(name: string, tag: int): Tl1Command
  {
    Tl1Command(RtrvNetype, name, Literal(""), tag)
  }

  function SizeQuery(name: string, tag: int): Tl1Command
  {
    Tl1Command(RtrvEqpt, name, Literal("SYSTEM"), tag)
  }

  /** The shutter query for ports 1..size. */
  function ShutterQuery(name: string, size: nat, tag: int): Tl1Command
  {
    Tl1Command(RtrvPortShutter, name, PortRange(size), tag)
  }

  function PatchQuery(name: string, tag: int): Tl1Command
  {
    Tl1Command(RtrvPatch, name, Literal(""), tag)
  }

  function InventoryQuery(name: string, tag: int): Tl1Command
  {
    Tl1Command(RtrvInv, name, Literal("OCS"), tag)
  }

  /** The patch command: the lower port, a comma, the higher port. */
  function PatchCommand(name: string, low: int, high: int, tag: int): Tl1Command
  {
    Tl1Command(EntPatch, name, PortPair(low, high), tag)
  }

  /** The disconnect command. Its format has three slots for four
      arguments, so the ctag is dropped and the higher port lands where the
      ctag belongs. */
  function ClearCommand(name: string, low: int, high: int): Tl1Command
  {
    Tl1Command(DltPatch, name, OnePort(low), high)
  }

  // ---------------------------------------------------------------------
  // Reading a command back
  // ---------------------------------------------------------------------

  /** A field without colons. */
  predicate Plain(field: string) {
    ':' !in field
  }

  /** A command whose first four parts hold no colon, so that splitting
      the line at colons gives them back. */
  predicate Tagged(c: Tl1Command) {
    Plain(c.tid) && (c.aid.Literal? ==> Plain(c.aid.text))
  }

  /** No verb holds a colon. */
  lemma VerbPlain(v: Verb)
    ensures Plain(VerbText(v))
  {
  }

  /** Field `n` of a colon-separated line, `line.split(':')[n]`. */
  function Field(line: string, n: nat): (r: Option<string>)
    ensures r.Some? ==> Plain(r.value)
    decreases |line|
  {
    if ':' !in line then (if n == 0 then Some(line) else None)
    else
      var i := FirstOf(line, ':');
      if n == 0 then Some(line[..i]) else Field(line[i + 1..], n - 1)
  }

  /** The correlation tag of a TL1 line: its fourth field, as a number. */
  function TagField(line: string): Option<Result<int, string>>
  {
    match Field(line, 3)
    case None => None
    case Some(f) => Some(ParseInt(f))
  }

  /** Field 0 is the text before the first colon. */
  lemma FieldFirst(a: string, rest: string)
    requires Plain(a)
    ensures Field(a + ":" + rest, 0) == Some(a)
  {
    var s := a + ":" + rest;
    assert s[|a|] == ':';
    if FirstOf(s, ':') != |a| {
      assert false;
    }
    assert s[..|a|] == a;
  }

  /** Behind a colon-free field the fields shift by one. */
  lemma FieldNext(a: string, rest: string, n: nat)
    requires Plain(a)
    ensures Field(a + ":" + rest, n + 1) == Field(rest, n)
  {
    var s := a + ":" + rest;
    assert s[|a|] == ':';
    if FirstOf(s, ':') != |a| {
      assert false;
    }
    assert s[|a| + 1..] == rest;
  }

  lemma IntPlain(i: int)
    ensures Plain(IntToString(i))
  {
    var t := IntToString(i);
    assert forall k :: 1 <= k < |t| ==> t[k] == t[1..][k - 1];
  }

  /** Only literal text can put a colon in the access identifier. */
  lemma AidPlain(a: Aid)
    requires a.Literal? ==> Plain(a.text)
    ensures Plain(AidText(a))
  {
    match a
    case Literal(_) =>
    case PortRange(size) =>
      var t := AidText(a);
      assert forall k :: 3 <= k < |t| ==> t[k] == NatToString(size)[k - 3];
    case PortPair(low, high) =>
      IntPlain(low);
      IntPlain(high);
      var l := IntToString(low);
      var t := AidText(a);
      assert forall k :: |l| + 1 <= k < |t| ==> t[k] == IntToString(high)[k - |l| - 1];
    case OnePort(port) =>
      IntPlain(port);
  }

  /** Splitting a rendered command at its colons gives back its verb,
      target, access identifier and tag. */
  lemma FieldsOf(c: Tl1Command)
    requires Tagged(c)
    ensures Field(Render(c), 0) == Some(VerbText(c.verb)) && Field(Render(c), 1) == Some(c.tid)
    ensures Field(Render(c), 2) == Some(AidText(c.aid)) && Field(Render(c), 3) == Some(IntToString(c.tag))
  {
    var verb := VerbText(c.verb);
    var aid := AidText(c.aid);
    var tag := IntToString(c.tag);
    var r3 := tag + ":" + RestText(c.verb);
    var r2 := aid + ":" + r3;
    var r1 := c.tid + ":" + r2;
    assert Render(c) == verb + ":" + r1;
    VerbPlain(c.verb);
    AidPlain(c.aid);
    IntPlain(c.tag);
    FieldFirst(verb, r1);
    FieldFirst(c.tid, r2);
    FieldFirst(aid, r3);
    FieldFirst(tag, RestText(c.verb));
    FieldNext(verb, r1, 0);
    FieldNext(verb, r1, 1);
    FieldNext(verb, r1, 2);
    FieldNext(c.tid, r2, 0);
    FieldNext(c.tid, r2, 1);
    FieldNext(aid, r3, 0);
  }

  /** A command whose target and literal access identifier hold no colon
      reads back the number in its tag slot. */
  lemma TagOf(c: Tl1Command)
    requires Tagged(c)
    ensures TagField(Render(c)) == Some(Ok(c.tag))
  {
    FieldsOf(c);
    ParseIntRoundTrip(c.tag);
  }

  // ---------------------------------------------------------------------
  // login
  // ---------------------------------------------------------------------

  /** `login`: the session connects to the address first, in every mode,
      and its failure ends the login; `connected` is the outcome of that
      connect, which belongs to the session library. Then in tl1 mode
      `ACT-USER` with the literal ctag 1, then `RTRV-HDR` with the next
      ctag; the switch name becomes the first space-delimited alphanumeric
      token of the header reply, when there is one. scpi mode sends
      nothing more; any other mode raises after connecting. */
  function Login(h: Handler, connected: Result<(), string>, send: Session, username: string, password: string): (r: Step<()>)
    ensures r.handler.service == h.service && r.handler.mapping == h.mapping
    ensures connected.Err? ==> r == Step(h, [], Err(connected.error))
    ensures r.result.Ok? ==> connected.Ok?
    ensures connected.Ok? && h.service.Scpi? ==> r == Step(h, [], Ok(()))
    ensures connected.Ok? && h.service.Unsupported? ==> r == Step(h, [], Err(ModeError(h.service.mode)))
    ensures connected.Ok? && h.service.Tl1? && send(UserCommand(username, password)).Err? ==>
      r == Step(h, [UserCommand(username, password)], Err(send(UserCommand(username, password)).error))
  {
    if connected.Err? then Step(h, [], Err(connected.error))
    else if h.service.Scpi? then Step(h, [], Ok(()))
    else if h.service.Unsupported? then Step(h, [], Err(ModeError(h.service.mode)))
    else
      var act := UserCommand(username, password);
      match send(act)
      case Err(e) => Step(h, [act], Err(e))
      case Ok(_) =>
        var (h1, tag) := IncrCtag(h);
        var hdr := HeaderQuery(tag);
        match send(hdr)
        case Err(e) => Step(h1, [act, hdr], Err(e))
        case Ok(out) =>
          var name := match Tl1Reply.SpacedToken(out) case Some(t) => t case None => h1.switchName;
          Step(h1.(switchName := name), [act, hdr], Ok(()))
  }

  /** A tl1 login sends the user with tag 1 and the header query with the
      next tag, and takes the switch name from the header reply. */
  lemma LoginTl1(h: Handler, connected: Result<(), string>, send: Session, username: string, password: string)
    requires h.service.Tl1? && Login(h, connected, send, username, password).result.Ok?
    ensures var r := Login(h, connected, send, username, password);
      r.sent == [UserCommand(username, password), HeaderQuery(h.ctag + 1)] && r.handler.ctag == h.ctag + 1 &&
      var out := send(HeaderQuery(h.ctag + 1)).value;
      (Tl1Reply.SpacedToken(out).Some? ==> r.handler.switchName == Tl1Reply.SpacedToken(out).value) &&
      (Tl1Reply.SpacedToken(out).None? ==> r.handler.switchName == h.switchName)
  {
  }

  /** The header query reads back the ctag after the handler's. */
  lemma HeaderTag(tag: int)
    ensures TagField(Render(HeaderQuery(tag))) == Some(Ok(tag))
  {
    TagOf(HeaderQuery(tag));
  }

  /** The user command carries the literal tag 1, whatever the counter
      holds, when the user name holds no colon. */
  lemma UserTag(username: string, password: string)
    requires Plain(username)
    ensures TagField(Render(UserCommand(username, password))) == Some(Ok(1))
  {
    TagOf(UserCommand(username, password));
  }

  /** The header reply ` NAME ` names the switch when no token starts
      before it: the reply's leading line breaks and indentation start
      none. */
  lemma LoginNamesSwitch(h: Handler, send: Session, username: string, password: string,
                         pre: string, name: string, rest: string)
    requires h.service.Tl1? && send(UserCommand(username, password)).Ok?
    requires send(HeaderQuery(h.ctag + 1)) == Ok(pre + " " + name + " " + rest)
    requires forall k :: 0 <= k < |pre| ==> Tl1Reply.TokenAt(pre + " " + name + " " + rest, k).None?
    requires |name| > 0 && forall k :: 0 <= k < |name| ==> IsAlnum(name[k])
    ensures Login(h, Ok(()), send, username, password).handler.switchName == name
  {
    Tl1Reply.SpacedTokenOf(pre, name, rest);
  }

  /** The switch name stays free of colons: it starts empty and login only
      replaces it with an alphanumeric token. So every command the handler
      formats splits back into its parts. */
  lemma LoginKeepsPlain(h: Handler, connected: Result<(), string>, send: Session, username: string, password: string)
    requires Plain(h.switchName)
    ensures Plain(Login(h, connected, send, username, password).handler.switchName)
  {
    if connected.Ok? && h.service.Tl1? && send(UserCommand(username, password)).Ok? && send(HeaderQuery(h.ctag + 1)).Ok? {
      TokenPlain(send(HeaderQuery(h.ctag + 1)).value);
    }
  }

  /** A header token is alphanumeric, so it holds no colon. */
  lemma TokenPlain(out: string)
    ensures Tl1Reply.SpacedToken(out).Some? ==> Plain(Tl1Reply.SpacedToken(out).value)
  {
    var t := Tl1Reply.SpacedToken(out);
    if t.Some? {
      var i :| 0 <= i < |out| && Tl1Reply.TokenAt(out, i) == t;
      AlnumPlain(t.value);
    }
  }

  /** An alphanumeric string holds no colon. */
  lemma AlnumPlain(t: string)
    requires forall k :: 0 <= k < |t| ==> IsAlnum(t[k])
    ensures Plain(t)
  {
    assert forall k :: 0 <= k < |t| ==> t[k] != ':';
  }

  /** A new handler's name is empty, so it is plain. */
  lemma InitPlain(mode: string)
    ensures Plain(Init(mode).switchName) && Init(mode).ctag == 1 && Init(mode).mapping == map[]
  {
  }

  // ---------------------------------------------------------------------
  // _get_device_data
  // ---------------------------------------------------------------------

  /** Sends the commands in order and collects the replies; the first
      failure is raised and nothing after it is sent. The first component
      is what was sent. */
  function SendEach<C>(send: C -> Result<string, string>, cs: seq<C>): (r: (seq<C>, Result<seq<string>, string>))
    ensures |r.0| <= |cs| && r.0 == cs[..|r.0|]
    ensures r.1.Ok? ==> r.0 == cs && |r.1.value| == |cs|
    ensures r.1.Err? ==> |r.0| > 0
    decreases |cs|
  {
    if |cs| == 0 then ([], Ok([]))
    else match send(cs[0])
      case Err(e) => ([cs[0]], Err(e))
      case Ok(reply) =>
        var (sent, rest) := SendEach(send, cs[1..]);
        assert cs == [cs[0]] + cs[1..];
        ([cs[0]] + sent, match rest case Ok(replies) => Ok([reply] + replies) case Err(e) => Err(e))
  }

  /** Success is every command answered, the replies in order; a failure
      is the last command's, every one before it having been answered. */
  lemma {:induction false} SendEachReplies<C>(send: C -> Result<string, string>, cs: seq<C>)
    ensures var r := SendEach(send, cs);
      (r.1.Ok? ==> forall k :: 0 <= k < |cs| ==> send(cs[k]) == Ok(r.1.value[k])) &&
      (r.1.Err? ==> send(r.0[|r.0| - 1]) == Err(r.1.error) &&
                    forall k :: 0 <= k < |r.0| - 1 ==> send(cs[k]).Ok?)
    decreases |cs|
  {
    if |cs| > 0 && send(cs[0]).Ok? {
      SendEachReplies(send, cs[1..]);
      var rest := SendEach(send, cs[1..]);
      var r := SendEach(send, cs);
      assert r.0 == [cs[0]] + rest.0;
      if rest.1.Ok? {
        forall k | 1 <= k < |cs|
          ensures send(cs[k]) == Ok(r.1.value[k])
        {
          assert r.1.value[k] == rest.1.value[k - 1];
          assert cs[k] == cs[1..][k - 1];
        }
      } else {
        assert r.0[|r.0| - 1] == rest.0[|rest.0| - 1];
        forall k | 1 <= k < |r.0| - 1
          ensures send(cs[k]).Ok?
        {
          assert cs[k] == cs[1..][k - 1];
        }
      }
    }
  }

  /** Every command answered exactly when the run succeeds. */
  lemma SendEachOk<C>(send: C -> Result<string, string>, cs: seq<C>)
    ensures SendEach(send, cs).1.Ok? <==> forall k :: 0 <= k < |cs| ==> send(cs[k]).Ok?
  {
    SendEachReplies(send, cs);
    var r := SendEach(send, cs);
    if r.1.Err? {
      assert r.0[|r.0| - 1] == cs[|r.0| - 1];
    }
  }

  /** Sending `cs1 + cs2` is sending `cs1` and then, if every command of
      it was answered, `cs2`. */
  lemma SendEachAppend<C>(send: C -> Result<string, string>, cs1: seq<C>, cs2: seq<C>)
    ensures var first := SendEach(send, cs1);
      var whole := SendEach(send, cs1 + cs2);
      var rest := SendEach(send, cs2);
      (first.1.Err? ==> whole == first) &&
      (first.1.Ok? ==>
        whole.0 == cs1 + rest.0 &&
        whole.1 == match rest.1 case Ok(v) => Ok(first.1.value + v) case Err(e) => Err(e))
  {
    if SendEach(send, cs1).1.Err? {
      SendEachAppendErr(send, cs1, cs2);
    } else {
      SendEachAppendOk(send, cs1, cs2);
    }
  }

  /** A failure among the first commands ends the longer run there too. */
  lemma {:induction false} SendEachAppendErr<C>(send: C -> Result<string, string>, cs1: seq<C>, cs2: seq<C>)
    requires SendEach(send, cs1).1.Err?
    ensures SendEach(send, cs1 + cs2) == SendEach(send, cs1)
    decreases |cs1|
  {
    assert (cs1 + cs2)[0] == cs1[0];
    assert (cs1 + cs2)[1..] == cs1[1..] + cs2;
    if send(cs1[0]).Ok? {
      SendEachAppendErr(send, cs1[1..], cs2);
    }
  }

  /** After the first commands all succeed, the longer run continues as a
      run of the remaining ones. */
  lemma {:induction false} SendEachAppendOk<C>(send: C -> Result<string, string>, cs1: seq<C>, cs2: seq<C>)
    requires SendEach(send, cs1).1.Ok?
    ensures var first := SendEach(send, cs1);
      var whole := SendEach(send, cs1 + cs2);
      var rest := SendEach(send, cs2);
      whole.0 == cs1 + rest.0 &&
      whole.1 == match rest.1 case Ok(v) => Ok(first.1.value + v) case Err(e) => Err(e)
    decreases |cs1|
  {
    var rest := SendEach(send, cs2);
    if |cs1| == 0 {
      assert cs1 + cs2 == cs2;
      if rest.1.Ok? {
        assert [] + rest.1.value == rest.1.value;
      }
    } else {
      assert (cs1 + cs2)[0] == cs1[0];
      assert (cs1 + cs2)[1..] == cs1[1..] + cs2;
      SendEachAppendOk(send, cs1[1..], cs2);
      var tail := SendEach(send, cs1[1..]);
      ConsAssoc(cs1[0], cs1[1..], rest.0);
      assert [cs1[0]] + cs1[1..] == cs1;
      if rest.1.Ok? {
        ConsAssoc(send(cs1[0]).value, tail.1.value, rest.1.value);
      }
    }
  }

  lemma ConsAssoc<T>(x: T, a: seq<T>, b: seq<T>)
    ensures [x] + (a + b) == ([x] + a) + b
  {
  }

  /** The five replies `_get_device_data` collects. */
  datatype DeviceData = DeviceData(netype: string, eqpt: string, shutter: string, patch: string, inv: string)

  const NoSize: string := "Can't find 'size' parameter!"

  /** The number of ports the shutter query covers: both sides together. */
  function PortTotal(size: (nat, nat)): nat
  {
    size.0 + size.1
  }

  /** The first two queries of a round, `NETYPE` and the `EQPT` size, with
      the two ctags after `ctag`. */
  function HeadQueries(name: string, ctag: int): seq<Tl1Command>
  {
    [NetypeQuery(name, ctag + 1), SizeQuery(name, ctag + 2)]
  }

  /** The last three, the shutter query covering ports 1..size, then
      `PATCH` and `INV`, with the next three ctags. */
  function TailQueries(name: string, ctag: int, size: nat): seq<Tl1Command>
  {
    [ShutterQuery(name, size, ctag + 3), PatchQuery(name, ctag + 4), InventoryQuery(name, ctag + 5)]
  }

  /** The five queries of one round, in order. */
  function Round(name: string, ctag: int, size: nat): (r: seq<Tl1Command>)
    ensures |r| == 5
  {
    HeadQueries(name, ctag) + TailQueries(name, ctag, size)
  }

  /** `_get_device_data`: in tl1 mode `NETYPE`, the `EQPT` size, the
      shutters of ports 1..size, `PATCH` and `INV`, each with the next
      ctag; a size report without the size raises before the shutter
      query. The ctag advances once per command sent. scpi mode queries
      nothing; any other mode raises. */
  function GetDeviceData(h: Handler, send: Session): (r: Step<Option<DeviceData>>)
    ensures r.handler == h.(ctag := h.ctag + |r.sent|)
    ensures h.service.Scpi? ==> r == Step(h, [], Ok(None))
    ensures h.service.Unsupported? ==> r == Step(h, [], Err(ModeError(h.service.mode)))
  {
    if h.service.Scpi? then Step(h, [], Ok(None))
    else if h.service.Unsupported? then Step(h, [], Err(ModeError(h.service.mode)))
    else
      var first := SendEach(send, HeadQueries(h.switchName, h.ctag));
      match first.1
      case Err(e) => Step(h.(ctag := h.ctag + |first.0|), first.0, Err(e))
      case Ok(replies) =>
        match DeviceReplies.SearchSize(replies[1])
        case None => Step(h.(ctag := h.ctag + 2), first.0, Err(NoSize))
        case Some(size) =>
          var rest := SendEach(send, TailQueries(h.switchName, h.ctag, PortTotal(size)));
          Step(h.(ctag := h.ctag + 2 + |rest.0|), first.0 + rest.0, Collect(replies, rest.1))
  }

  /** The device data from the first two replies and the outcome of the
      last three queries. */
  function Collect(first: seq<string>, rest: Result<seq<string>, string>): Result<Option<DeviceData>, string>
    requires |first| == 2 && (rest.Ok? ==> |rest.value| == 3)
  {
    match rest
    case Err(e) => Err(e)
    case Ok(v) => Ok(Some(DeviceData(first[0], first[1], v[0], v[1], v[2])))
  }

  /** The size the switch reports to the second query, when it answers
      and the answer holds one. */
  function ReportedSize(h: Handler, send: Session): Option<(nat, nat)>
  {
    match send(SizeQuery(h.switchName, h.ctag + 2))
    case Err(_) => None
    case Ok(eqpt) => DeviceReplies.SearchSize(eqpt)
  }

  /** The port count the shutter query covers, when the round gets that
      far. */
  function RoundSize(h: Handler, send: Session): nat
  {
    match ReportedSize(h, send)
    case Some(size) => PortTotal(size)
    case None => 0
  }

  /** The answers the first two queries get hold no size: the round stops
      there. */
  predicate SizeMissing(h: Handler, send: Session)
  {
    send(NetypeQuery(h.switchName, h.ctag + 1)).Ok? && send(SizeQuery(h.switchName, h.ctag + 2)).Ok? &&
    ReportedSize(h, send).None?
  }

  /** The first two queries of a round, and what their answers say. */
  lemma FirstTwo(h: Handler, send: Session)
    ensures var first := SendEach(send, HeadQueries(h.switchName, h.ctag));
      (first.1.Ok? <==>
        send(NetypeQuery(h.switchName, h.ctag + 1)).Ok? && send(SizeQuery(h.switchName, h.ctag + 2)).Ok?) &&
      (first.1.Ok? ==> send(SizeQuery(h.switchName, h.ctag + 2)) == Ok(first.1.value[1]))
  {
    var cs := HeadQueries(h.switchName, h.ctag);
    SendEachOk(send, cs);
    SendEachReplies(send, cs);
  }

  /** The size the second answer reports. */
  lemma ReportedSizeIs(h: Handler, send: Session, eqpt: string)
    requires send(SizeQuery(h.switchName, h.ctag + 2)) == Ok(eqpt)
    ensures ReportedSize(h, send) == DeviceReplies.SearchSize(eqpt)
  {
  }

  /** Unless the size is missing, a tl1 round sends the five queries in
      order, the shutter query covering the reported ports, stops at the
      first failure, and succeeds exactly when all five are answered. */
  lemma DeviceDataRound(h: Handler, send: Session)
    requires h.service.Tl1? && !SizeMissing(h, send)
    ensures var r := GetDeviceData(h, send);
      var whole := SendEach(send, Round(h.switchName, h.ctag, RoundSize(h, send)));
      r.sent == whole.0 && (r.result.Ok? <==> whole.1.Ok?)
  {
    var head := HeadQueries(h.switchName, h.ctag);
    var tail := TailQueries(h.switchName, h.ctag, RoundSize(h, send));
    SendEachAppend(send, head, tail);
    FirstTwo(h, send);
    var first := SendEach(send, head);
    if first.1.Ok? {
      ReportedSizeIs(h, send, first.1.value[1]);
    }
  }

  /** A tl1 round that succeeds sent the five queries and holds their
      replies, in the order queried. */
  lemma DeviceDataReplies(h: Handler, send: Session)
    requires h.service.Tl1?
    ensures var r := GetDeviceData(h, send);
      r.result.Ok? ==> (r.sent == Round(h.switchName, h.ctag, RoundSize(h, send)) && r.result.value.Some? &&
        var d := r.result.value.value;
        send(r.sent[0]) == Ok(d.netype) && send(r.sent[1]) == Ok(d.eqpt) && send(r.sent[2]) == Ok(d.shutter) &&
        send(r.sent[3]) == Ok(d.patch) && send(r.sent[4]) == Ok(d.inv))
  {
    var head := HeadQueries(h.switchName, h.ctag);
    var first := SendEach(send, head);
    if first.1.Ok? {
      FirstTwo(h, send);
      ReportedSizeIs(h, send, first.1.value[1]);
      var size := DeviceReplies.SearchSize(first.1.value[1]);
      if size.Some? {
        var tail := TailQueries(h.switchName, h.ctag, PortTotal(size.value));
        SendEachReplies(send, head);
        SendEachReplies(send, tail);
      }
    }
  }

  /** When the size is missing the round raises after the first two
      queries. */
  lemma DeviceDataNoSize(h: Handler, send: Session)
    requires h.service.Tl1? && SizeMissing(h, send)
    ensures GetDeviceData(h, send) ==
      Step(h.(ctag := h.ctag + 2), [NetypeQuery(h.switchName, h.ctag + 1), SizeQuery(h.switchName, h.ctag + 2)], Err(NoSize))
  {
    FirstTwo(h, send);
    ReportedSizeIs(h, send, send(SizeQuery(h.switchName, h.ctag + 2)).value);
  }

  /** Whatever happens, a tl1 round sends a prefix of the five queries. */
  lemma DeviceDataPrefix(h: Handler, send: Session)
    requires h.service.Tl1?
    ensures var r := GetDeviceData(h, send);
      var round := Round(h.switchName, h.ctag, RoundSize(h, send));
      |r.sent| <= 5 && r.sent == round[..|r.sent|]
  {
    var round := Round(h.switchName, h.ctag, RoundSize(h, send));
    if SizeMissing(h, send) {
      DeviceDataNoSize(h, send);
      assert round[..2] == HeadQueries(h.switchName, h.ctag);
    } else {
      DeviceDataRound(h, send);
    }
  }

  /** With a plain switch name the round's queries split back into their
      fields and carry the five ctags after `ctag` in order. */
  lemma RoundTagged(name: string, ctag: int, size: nat)
    requires Plain(name)
    ensures var round := Round(name, ctag, size);
      forall k :: 0 <= k < 5 ==> Tagged(round[k]) && round[k].tag == ctag + k + 1
  {
    assert Plain("SYSTEM") && Plain("OCS") && Plain("");
  }

  /** Commands that split back into their fields and carry consecutive
      tags read back as those tags. */
  lemma CommandTags(cs: seq<Tl1Command>, t: int)
    requires forall k :: 0 <= k < |cs| ==> Tagged(cs[k]) && cs[k].tag == t + k + 1
    ensures forall k :: 0 <= k < |cs| ==> TagField(Render(cs[k])) == Some(Ok(t + k + 1))
  {
    forall k | 0 <= k < |cs|
      ensures TagField(Render(cs[k])) == Some(Ok(t + k + 1))
    {
      TagOf(cs[k]);
    }
  }

  /** So in tl1 mode with a plain switch name, the commands a round sends
      carry the consecutive ctags after the handler's and split back into
      their fields; `CommandTags` turns this into the tags they read back. */
  lemma DeviceDataTagged(h: Handler, send: Session)
    requires h.service.Tl1? && Plain(h.switchName)
    ensures var sent := GetDeviceData(h, send).sent;
      forall k :: 0 <= k < |sent| ==> Tagged(sent[k]) && sent[k].tag == h.ctag + k + 1
  {
    var sent := GetDeviceData(h, send).sent;
    var round := Round(h.switchName, h.ctag, RoundSize(h, send));
    DeviceDataPrefix(h, send);
    RoundTagged(h.switchName, h.ctag, RoundSize(h, send));
    forall k | 0 <= k < |sent|
      ensures Tagged(sent[k]) && sent[k].tag == h.ctag + k + 1
    {
      assert sent[k] == round[k];
    }
  }

  // ---------------------------------------------------------------------
  // map_bidi, map_clear_to, map_clear
  // ---------------------------------------------------------------------

  const IndexError: string := "list index out of range"

  /** `int(port[1])`: the second element of the port argument as a number. */
  function PortNumber(port: seq<string>): (r: Result<int, string>)
    ensures |port| < 2 ==> r == Err(IndexError)
    ensures |port| >= 2 ==> r == ParseInt(port[1])
  {
    if |port| < 2 then Err(IndexError) else ParseInt(port[1])
  }

  /** The lower and the higher of the two port numbers; the source's
      number is read first, so its failure is the one raised. */
  function Ports(src: seq<string>, dst: seq<string>): (r: Result<(int, int), string>)
    ensures r.Ok? <==> PortNumber(src).Ok? && PortNumber(dst).Ok?
    ensures PortNumber(src).Err? ==> r == Err(PortNumber(src).error)
    ensures PortNumber(src).Ok? && PortNumber(dst).Err? ==> r == Err(PortNumber(dst).error)
    ensures r.Ok? ==> r.value.0 <= r.value.1
    ensures r.Ok? ==> {r.value.0, r.value.1} == {PortNumber(src).value, PortNumber(dst).value}
  {
    match PortNumber(src)
    case Err(e) => Err(e)
    case Ok(a) =>
      match PortNumber(dst)
      case Err(e) => Err(e)
      case Ok(b) => Ok((Min(a, b), Max(a, b)))
  }

  /** One mapping command in tl1 mode: the ports are read, the ctag
      advanced, the command sent; other modes do nothing. */
  function MapCommand(h: Handler, send: Session, src: seq<string>, dst: seq<string>,
                      patch: bool): (r: Step<()>)
    ensures r.handler.service == h.service && r.handler.switchName == h.switchName && r.handler.mapping == h.mapping
    ensures !h.service.Tl1? ==> r == Step(h, [], Ok(()))
    ensures h.service.Tl1? && Ports(src, dst).Err? ==> r == Step(h, [], Err(Ports(src, dst).error))
    ensures h.service.Tl1? && Ports(src, dst).Ok? ==>
      |r.sent| == 1 && r.handler.ctag == h.ctag + 1 &&
      r.result == (match send(r.sent[0]) case Ok(_) => Ok(()) case Err(e) => Err(e))
  {
    if !h.service.Tl1? then Step(h, [], Ok(()))
    else
      match Ports(src, dst)
      case Err(e) => Step(h, [], Err(e))
      case Ok((low, high)) =>
        var (h1, tag) := IncrCtag(h);
        var c := if patch then PatchCommand(h.switchName, low, high, tag) else ClearCommand(h.switchName, low, high);
        match send(c)
        case Err(e) => Step(h1, [c], Err(e))
        case Ok(_) => Step(h1, [c], Ok(()))
  }

  /** `map_bidi`: `ENT-PATCH` with the lower port, a comma and the higher. */
  function MapBidi(h: Handler, send: Session, src: seq<string>, dst: seq<string>): Step<()>
  {
    MapCommand(h, send, src, dst, true)
  }

  /** `map_clear_to`: `DLT-PATCH` naming the lower port. */
  function MapClearTo(h: Handler, send: Session, src: seq<string>, dst: seq<string>): Step<()>
  {
    MapCommand(h, send, src, dst, false)
  }

  /** `map_clear`: the same command as `map_clear_to`. */
  function MapClear(h: Handler, send: Session, src: seq<string>, dst: seq<string>): Step<()>
  {
    MapCommand(h, send, src, dst, false)
  }

  /** The patch names the two ports lower first, whichever side each came
      from, and reads back the advanced ctag as its tag. */
  lemma MapBidiCommand(h: Handler, send: Session, src: seq<string>, dst: seq<string>)
    requires h.service.Tl1? && Ports(src, dst).Ok? && Plain(h.switchName)
    ensures var r := MapBidi(h, send, src, dst);
      var (low, high) := Ports(src, dst).value;
      r.sent == [PatchCommand(h.switchName, low, high, h.ctag + 1)] && r.handler.ctag == h.ctag + 1 &&
      TagField(Render(r.sent[0])) == Some(Ok(r.handler.ctag))
  {
    var (low, high) := Ports(src, dst).value;
    var c := PatchCommand(h.switchName, low, high, h.ctag + 1);
    var r := MapBidi(h, send, src, dst);
    assert r.sent == [c] && r.handler.ctag == h.ctag + 1;
    assert TagField(Render(c)) == Some(Ok(h.ctag + 1)) by {
      TagOf(c);
    }
    assert r.sent[0] == c;
  }

  /** Swapping the two ports sends the same command, when both read. */
  lemma MapSymmetric(h: Handler, send: Session, src: seq<string>, dst: seq<string>, patch: bool)
    requires Ports(src, dst).Ok?
    ensures MapCommand(h, send, src, dst, patch) == MapCommand(h, send, dst, src, patch)
  {
    var a := PortNumber(src).value;
    var b := PortNumber(dst).value;
    assert Ports(src, dst) == Ports(dst, src);
  }

  /** `map_clear` and `map_clear_to` do the same thing. */
  lemma MapClearIsClearTo(h: Handler, send: Session, src: seq<string>, dst: seq<string>)
    ensures MapClear(h, send, src, dst) == MapClearTo(h, send, src, dst)
    ensures h.service.Tl1? && Ports(src, dst).Ok? ==>
      MapClear(h, send, src, dst).sent == [ClearCommand(h.switchName, Ports(src, dst).value.0, Ports(src, dst).value.1)]
  {
  }

  /** The disconnect command advances the ctag but reads back the higher
      port as its tag. */
  lemma ClearTagIsHighPort(h: Handler, send: Session, src: seq<string>, dst: seq<string>)
    requires h.service.Tl1? && Ports(src, dst).Ok? && Plain(h.switchName)
    ensures var r := MapClearTo(h, send, src, dst);
      r.handler.ctag == h.ctag + 1 && TagField(Render(r.sent[0])) == Some(Ok(Ports(src, dst).value.1))
  {
    var (low, high) := Ports(src, dst).value;
    TagOf(ClearCommand(h.switchName, low, high));
  }

  /** With ctag 1 and ports 3 and 7, the disconnect goes out tagged 7
      while the handler moves to ctag 2. */
  lemma ClearTagMismatch(send: Session)
    ensures var h := Handler(Tl1, 1, "SW", map[]);
      var r := MapClearTo(h, send, ["a", "3"], ["b", "7"]);
      r.handler.ctag == 2 && TagField(Render(r.sent[0])) == Some(Ok(7))
  {
    var h := Handler(Tl1, 1, "SW", map[]);
    assert ParseInt("3") == Ok(3) by { ParseIntRoundTrip(3); assert IntToString(3) == "3"; }
    assert ParseInt("7") == Ok(7) by { ParseIntRoundTrip(7); assert IntToString(7) == "7"; }
    assert Ports(["a", "3"], ["b", "7"]) == Ok((3, 7));
    ClearTagIsHighPort(h, send, ["a", "3"], ["b", "7"]);
  }
}
