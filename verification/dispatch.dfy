/** Batch processing and per-command dispatch of the command-batch server
    (`process_commands` and `process_command` in l1_driver.py). The XML
    parser is outside the model: a batch arrives as the parsed sequence of
    command elements. The handler is any state machine over calls; its
    state is threaded through the batch in document order. */
module Dispatch {
  import opened Wrappers
  import ResourceInfo

  /** An element's `.text`: `None` for an empty element such as
      `<Attribute/>`. */
  type Text = Option<string>

  /** A child of the `Parameters` element: its tag and its text. */
  datatype Param = Param(tag: string, text: Text)

  /** One `Command` element: the `CommandId` and `CommandName` attributes
      (either may be absent) and the children of `Parameters` (absent when
      the element has no `Parameters` child). */
  datatype CommandNode = CommandNode(id: Option<string>, name: Option<string>, parameters: Option<seq<Param>>)

  /** The handler operations, one per recognised command name. */
  datatype Call =
    | Login(address: Text, user: Text, password: Text)
    | Logout
    | SetStateId(stateId: Text)
    | GetStateId
    | GetResourceDescription(address: Text)
    | GetAttributeValue(address: Text, attribute: Text)
    | MapBidi(portA: Text, portB: Text, group: Text)
    | MapUni(src: Text, dst: Text)
    | MapClear(portA: Text, portB: Text)
    | MapClearTo(src: Text, dst: Text)
    | SetSpeedManual(src: Text, dst: Text, speed: Text, duplex: Text)

  /** What a handler operation returns. */
  datatype HandlerValue = Nothing | Str(text: string) | Tree(resource: ResourceInfo.Resource)

  /** A handler call either returns or raises with a message (`str(e)`). */
  datatype Outcome = Returned(value: HandlerValue) | Raised(message: string)

  /** Why one command failed. */
  datatype Failure =
    | Unimplemented(command: string)     // unknown CommandName
    | NoParameters(lookup: string)       // `p` is None and `p.<lookup>` is read
    | NoParameter(tag: string)           // `p.find(tag)` is None
    | TooFewMapPorts                     // `findall('MapPort')` has fewer than two
    | NotAResource(typeName: string)     // `rv.to_string()` on a value of this type
    | NoneConcatenated                   // a string plus an empty element's `None` text
    | HandlerRaised(message: string)     // the handler raised

  /** The `Error` text of a failed command: `str(e)` of the exception,
      an attribute lookup on the wrong type for the parameter and
      resource failures. */
  function ErrorText(f: Failure): string
  {
    match f
    case Unimplemented(n) => "Unimplemented command " + n
    case NoParameters(lookup) => NoAttribute("NoneType", lookup)
    case NoParameter(_) => NoAttribute("NoneType", "text")
    case TooFewMapPorts => "list index out of range"
    case NotAResource(typeName) => NoAttribute(typeName, "to_string")
    case NoneConcatenated => NoneConcatenatedText
    case HandlerRaised(m) => m
  }

  /** The message of the `AttributeError` for `attribute` on a value of
      type `typeName`. */
  function NoAttribute(typeName: string, attribute: string): string
  {
    "'" + typeName + "' object has no attribute '" + attribute + "'"
  }

  /** The `TypeError` of `str + None` in Python 2. */
  const NoneConcatenatedText: string := "cannot concatenate 'str' and 'NoneType' objects"

  /** The type name of a returned value that is not a resource tree. */
  function TypeName(v: HandlerValue): string
  {
    match v
    case Nothing => "NoneType"
    case Str(_) => "str"
    case Tree(_) => "ResourceInfo"
  }

  /** The text of a response's `Error` element: empty on success. */
  function ErrorOf(r: Response): string
  {
    if r.failure.Some? then ErrorText(r.failure.value) else ""
  }

  /** The `ResponseInfo` payload. */
  datatype Info =
    | NoInfo
    | StateInfo(stateId: HandlerValue)
    | ResourceDescription(resource: ResourceInfo.Resource)
    | AttributeInfo(attribute: string, value: HandlerValue)

  /** One `CommandResponse`: the echoed id and name, the success flag, the
      failure behind the `Error` text and `Log` traceback (absent on
      success, when both are empty elements), and the payload. */
  datatype Response = Response(id: string, name: string, success: bool, failure: Option<Failure>, info: Info)

  /** The whole `Responses` envelope. */
  datatype Batch = Batch(success: bool, errorCode: string, responses: seq<Response>)

  /** A batch aborts (the exception escapes `process_commands`) when a
      command element lacks one of its two attributes. */
  datatype Abort = MissingAttribute(attribute: string)

  const NoErrorCode: string := "<ErrorCode />"
  const FailedErrorCode: string := "<ErrorCode>1</ErrorCode>"

  // ---------------------------------------------------------------------
  // Parameter lookup
  // ---------------------------------------------------------------------

  /** Child `k` is the first one tagged `tag`. */
  predicate FirstTagged(params: seq<Param>, tag: string, k: nat)
    requires k < |params|
  {
    params[k].tag == tag && forall j :: 0 <= j < k ==> params[j].tag != tag
  }

  /** `p.find(tag).text`: the text of the first child with that tag; what
      it finds is stated by `FindFirst` and `FindAt`. */
  function Find(params: seq<Param>, tag: string): Option<Text>
  {
    if |params| == 0 then None
    else if params[0].tag == tag then Some(params[0].text)
    else Find(params[1..], tag)
  }

  /** The first child tagged `tag`, and only it, is what `find` returns. */
  lemma {:induction false} FindAt(params: seq<Param>, tag: string, k: nat)
    requires k < |params| && FirstTagged(params, tag, k)
    ensures Find(params, tag) == Some(params[k].text)
    decreases k
  {
    if k > 0 {
      assert params[0].tag != tag;
      assert FirstTagged(params[1..], tag, k - 1) by {
        assert forall j :: 0 <= j < k - 1 ==> params[1..][j] == params[j + 1];
      }
      FindAt(params[1..], tag, k - 1);
    }
  }

  /** Without a child tagged `tag`, `find` finds nothing. */
  lemma {:induction false} FindNone(params: seq<Param>, tag: string)
    requires forall k :: 0 <= k < |params| ==> params[k].tag != tag
    ensures Find(params, tag) == None
    decreases |params|
  {
    if |params| > 0 {
      assert forall k :: 0 <= k < |params[1..]| ==> params[1..][k] == params[k + 1];
      FindNone(params[1..], tag);
    }
  }

  /** `find` succeeds exactly when some child has the tag, and then yields
      the text of the first such child in document order. */
  lemma FindFirst(params: seq<Param>, tag: string)
    ensures Find(params, tag).Some? <==> exists k :: 0 <= k < |params| && params[k].tag == tag
    ensures Find(params, tag).Some? ==>
      exists k :: 0 <= k < |params| && FirstTagged(params, tag, k) && params[k].text == Find(params, tag).value
  {
    if k :| 0 <= k < |params| && params[k].tag == tag {
      var first := FirstIndex(params, tag, k);
      FindAt(params, tag, first);
    } else {
      FindNone(params, tag);
    }
  }

  /** Below a tagged child there is a first one. */
  lemma {:induction false} FirstIndex(params: seq<Param>, tag: string, k: nat) returns (first: nat)
    requires k < |params| && params[k].tag == tag
    ensures first <= k && FirstTagged(params, tag, first)
    decreases k
  {
    if j :| 0 <= j < k && params[j].tag == tag {
      first := FirstIndex(params, tag, j);
    } else {
      first := k;
    }
  }

  /** `[x.text for x in p.findall(tag)]`, in document order. */
  function FindAll(params: seq<Param>, tag: string): (r: seq<Text>)
    ensures |r| <= |params|
  {
    if |params| == 0 then []
    else (if params[0].tag == tag then [params[0].text] else []) + FindAll(params[1..], tag)
  }

  /** `p.find(tag).text`, failing as Python does when `p` or the child is
      missing. */
  function Arg(p: Option<seq<Param>>, tag: string): (r: Result<Text, Failure>)
    ensures p.None? ==> r == Err(NoParameters("find"))
    ensures p.Some? ==> (r.Ok? <==> Find(p.value, tag).Some?)
    ensures p.Some? && r.Ok? ==> Find(p.value, tag) == Some(r.value)
    ensures p.Some? && r.Err? ==> r == Err(NoParameter(tag))
  {
    if p.None? then Err(NoParameters("find"))
    else match Find(p.value, tag)
      case None => Err(NoParameter(tag))
      case Some(t) => Ok(t)
  }

  /** The branch chain of `process_command`: the handler call a command
      name stands for, with its arguments read from the parameters. */
  function BuildCall(name: string, p: Option<seq<Param>>): (r: Result<Call, Failure>)
    ensures r.Err? && r.error.Unimplemented? ==> r.error.command == name
    ensures name == "Logout" ==> r == Ok(Logout)
    ensures name == "GetStateId" ==> r == Ok(GetStateId)
  {
    if name == "Login" then
      var address :- Arg(p, "Address");
      var user :- Arg(p, "User");
      var password :- Arg(p, "Password");
      Ok(Login(address, user, password))
    else if name == "Logout" then Ok(Logout)
    else if name == "SetStateId" then
      var id :- Arg(p, "StateId");
      Ok(SetStateId(id))
    else if name == "GetStateId" then Ok(GetStateId)
    else if name == "GetResourceDescription" then
      var address :- Arg(p, "Address");
      Ok(GetResourceDescription(address))
    else if name == "GetAttributeValue" then
      var address :- Arg(p, "Address");
      var attribute :- Arg(p, "Attribute");
      Ok(GetAttributeValue(address, attribute))
    else if name == "MapBidi" then
      var a :- Arg(p, "MapPort_A");
      var b :- Arg(p, "MapPort_B");
      var group :- Arg(p, "MappingGroupName");
      Ok(MapBidi(a, b, group))
    else if name == "MapUni" then
      var src :- Arg(p, "SrcPort");
      var dst :- Arg(p, "DstPort");
      Ok(MapUni(src, dst))
    else if name == "MapClear" then
      if p.None? then Err(NoParameters("findall"))
      else
        var ports := FindAll(p.value, "MapPort");
        if |ports| < 2 then Err(TooFewMapPorts) else Ok(MapClear(ports[0], ports[1]))
    else if name == "MapClearTo" then
      var src :- Arg(p, "SrcPort");
      var dst :- Arg(p, "DstPort");
      Ok(MapClearTo(src, dst))
    else if name == "SetSpeedManual" then
      var src :- Arg(p, "SrcPort");
      var dst :- Arg(p, "DstPort");
      var speed :- Arg(p, "Speed");
      var duplex :- Arg(p, "Duplex");
      Ok(SetSpeedManual(src, dst, speed, duplex))
    else Err(Unimplemented(name))
  }

  /** The command names the dispatcher recognises. */
  predicate Known(name: string) {
    name in {"Login", "Logout", "SetStateId", "GetStateId", "GetResourceDescription",
             "GetAttributeValue", "MapBidi", "MapUni", "MapClear", "MapClearTo", "SetSpeedManual"}
  }

  /** An unrecognised name is reported as unimplemented, whatever its
      parameters; a recognised one never is. */
  lemma UnknownNameIsUnimplemented(name: string, p: Option<seq<Param>>)
    ensures !Known(name) <==> BuildCall(name, p) == Err(Unimplemented(name))
  {
  }

  /** The tags a command reads with `p.find`, in the order it reads them;
      MapClear reads `MapPort` with `findall` instead. */
  function Reads(name: string): seq<string>
  {
    if name == "Login" then ["Address", "User", "Password"]
    else if name == "SetStateId" then ["StateId"]
    else if name == "GetResourceDescription" then ["Address"]
    else if name == "GetAttributeValue" then ["Address", "Attribute"]
    else if name == "MapBidi" then ["MapPort_A", "MapPort_B", "MappingGroupName"]
    else if name == "MapUni" || name == "MapClearTo" then ["SrcPort", "DstPort"]
    else if name == "SetSpeedManual" then ["SrcPort", "DstPort", "Speed", "Duplex"]
    else []
  }

  /** Every tag of `tags` has a child in `p`. */
  predicate AllPresent(p: seq<Param>, tags: seq<string>) {
    forall k :: 0 <= k < |tags| ==> Find(p, tags[k]).Some?
  }

  /** With every parameter present, each command name builds its own
      handler call, passing the first child of each tag in the order the
      handler takes them. */
  lemma BuildCallArguments(name: string, p: seq<Param>)
    ensures name == "Login" && Find(p, "Address").Some? && Find(p, "User").Some? && Find(p, "Password").Some? ==>
      BuildCall(name, Some(p)) == Ok(Login(Find(p, "Address").value, Find(p, "User").value, Find(p, "Password").value))
    ensures name == "SetStateId" && Find(p, "StateId").Some? ==>
      BuildCall(name, Some(p)) == Ok(SetStateId(Find(p, "StateId").value))
    ensures name == "GetResourceDescription" && Find(p, "Address").Some? ==>
      BuildCall(name, Some(p)) == Ok(GetResourceDescription(Find(p, "Address").value))
    ensures name == "GetAttributeValue" && Find(p, "Address").Some? && Find(p, "Attribute").Some? ==>
      BuildCall(name, Some(p)) == Ok(GetAttributeValue(Find(p, "Address").value, Find(p, "Attribute").value))
    ensures name == "MapBidi" && Find(p, "MapPort_A").Some? && Find(p, "MapPort_B").Some? &&
            Find(p, "MappingGroupName").Some? ==>
      BuildCall(name, Some(p))
        == Ok(MapBidi(Find(p, "MapPort_A").value, Find(p, "MapPort_B").value, Find(p, "MappingGroupName").value))
    ensures name == "MapUni" && Find(p, "SrcPort").Some? && Find(p, "DstPort").Some? ==>
      BuildCall(name, Some(p)) == Ok(MapUni(Find(p, "SrcPort").value, Find(p, "DstPort").value))
    ensures name == "MapClearTo" && Find(p, "SrcPort").Some? && Find(p, "DstPort").Some? ==>
      BuildCall(name, Some(p)) == Ok(MapClearTo(Find(p, "SrcPort").value, Find(p, "DstPort").value))
    ensures name == "SetSpeedManual" && Find(p, "SrcPort").Some? && Find(p, "DstPort").Some? &&
            Find(p, "Speed").Some? && Find(p, "Duplex").Some? ==>
      BuildCall(name, Some(p))
        == Ok(SetSpeedManual(Find(p, "SrcPort").value, Find(p, "DstPort").value,
                             Find(p, "Speed").value, Find(p, "Duplex").value))
  {
  }

  /** A command that reads its parameters with `p.find` succeeds in
      building its call exactly when every tag it reads is present, and
      otherwise fails on the first missing tag in its reading order. */
  lemma BuildCallFailsOnFirstMissing(name: string, p: seq<Param>)
    requires Known(name) && name != "MapClear"
    ensures BuildCall(name, Some(p)).Ok? <==> AllPresent(p, Reads(name))
    ensures forall k :: 0 <= k < |Reads(name)| && FirstMissing(p, Reads(name), k) ==>
      BuildCall(name, Some(p)) == Err(NoParameter(Reads(name)[k]))
  {
    var tags := Reads(name);
    ReadsEntries(name);
    if |tags| == 0 {
    } else if |tags| == 1 {
      Missing1(p, tags);
    } else if |tags| == 2 {
      Missing2(p, tags);
    } else if |tags| == 3 {
      Missing3(p, tags);
    } else {
      Missing4(p, tags);
    }
  }

  /** Tag `k` is the first of `tags` without a child in `p`. */
  predicate FirstMissing(p: seq<Param>, tags: seq<string>, k: nat)
    requires k < |tags|
  {
    Find(p, tags[k]).None? && forall j :: 0 <= j < k ==> Find(p, tags[j]).Some?
  }

  lemma Missing1(p: seq<Param>, tags: seq<string>)
    requires |tags| == 1
    ensures AllPresent(p, tags) <==> Find(p, tags[0]).Some?
    ensures forall k :: 0 <= k < 1 && FirstMissing(p, tags, k) ==> k == 0
  {
  }

  lemma Missing2(p: seq<Param>, tags: seq<string>)
    requires |tags| == 2
    ensures AllPresent(p, tags) <==> Find(p, tags[0]).Some? && Find(p, tags[1]).Some?
    ensures forall k :: 0 <= k < 2 && FirstMissing(p, tags, k) ==>
      (k == 0 && Find(p, tags[0]).None?) || (k == 1 && Find(p, tags[0]).Some? && Find(p, tags[1]).None?)
  {
  }

  lemma Missing3(p: seq<Param>, tags: seq<string>)
    requires |tags| == 3
    ensures AllPresent(p, tags) <==> Find(p, tags[0]).Some? && Find(p, tags[1]).Some? && Find(p, tags[2]).Some?
    ensures forall k :: 0 <= k < 3 && FirstMissing(p, tags, k) ==>
      (k == 0 && Find(p, tags[0]).None?) ||
      (k == 1 && Find(p, tags[0]).Some? && Find(p, tags[1]).None?) ||
      (k == 2 && Find(p, tags[0]).Some? && Find(p, tags[1]).Some? && Find(p, tags[2]).None?)
  {
  }

  lemma Missing4(p: seq<Param>, tags: seq<string>)
    requires |tags| == 4
    ensures AllPresent(p, tags) <==>
      Find(p, tags[0]).Some? && Find(p, tags[1]).Some? && Find(p, tags[2]).Some? && Find(p, tags[3]).Some?
    ensures forall k :: 0 <= k < 4 && FirstMissing(p, tags, k) ==>
      (k == 0 && Find(p, tags[0]).None?) ||
      (k == 1 && Find(p, tags[0]).Some? && Find(p, tags[1]).None?) ||
      (k == 2 && Find(p, tags[0]).Some? && Find(p, tags[1]).Some? && Find(p, tags[2]).None?) ||
      (k == 3 && Find(p, tags[0]).Some? && Find(p, tags[1]).Some? && Find(p, tags[2]).Some? && Find(p, tags[3]).None?)
  {
    forall k | 0 <= k < 4 && FirstMissing(p, tags, k)
      ensures k < 1 || Find(p, tags[0]).Some?
      ensures k < 2 || Find(p, tags[1]).Some?
      ensures k < 3 || Find(p, tags[2]).Some?
    {
    }
  }

  /** The entries of `Reads`, one by one. */
  lemma ReadsEntries(name: string)
    requires Known(name) && name != "MapClear"
    ensures var t := Reads(name);
      (name == "Login" ==> |t| == 3 && t[0] == "Address" && t[1] == "User" && t[2] == "Password") &&
      (name == "Logout" || name == "GetStateId" ==> |t| == 0) &&
      (name == "SetStateId" ==> |t| == 1 && t[0] == "StateId") &&
      (name == "GetResourceDescription" ==> |t| == 1 && t[0] == "Address") &&
      (name == "GetAttributeValue" ==> |t| == 2 && t[0] == "Address" && t[1] == "Attribute") &&
      (name == "MapBidi" ==> |t| == 3 && t[0] == "MapPort_A" && t[1] == "MapPort_B" && t[2] == "MappingGroupName") &&
      (name == "MapUni" || name == "MapClearTo" ==> |t| == 2 && t[0] == "SrcPort" && t[1] == "DstPort") &&
      (name == "SetSpeedManual" ==>
         |t| == 4 && t[0] == "SrcPort" && t[1] == "DstPort" && t[2] == "Speed" && t[3] == "Duplex")
  {
  }

  /** `findall` over a concatenation is the matches of each part in turn. */
  lemma {:induction false} FindAllAppend(a: seq<Param>, b: seq<Param>, tag: string)
    ensures FindAll(a + b, tag) == FindAll(a, tag) + FindAll(b, tag)
    decreases |a|
  {
    if |a| == 0 {
      assert a + b == b;
    } else {
      var head := if a[0].tag == tag then [a[0].text] else [];
      assert (a + b)[0] == a[0];
      assert (a + b)[1..] == a[1..] + b;
      assert FindAll(a + b, tag) == head + FindAll(a[1..] + b, tag);
      FindAllAppend(a[1..], b, tag);
      assert head + (FindAll(a[1..], tag) + FindAll(b, tag)) == (head + FindAll(a[1..], tag)) + FindAll(b, tag);
    }
  }

  /** Without a child tagged `tag`, `findall` is empty. */
  lemma {:induction false} FindAllNone(a: seq<Param>, tag: string)
    requires forall k :: 0 <= k < |a| ==> a[k].tag != tag
    ensures FindAll(a, tag) == []
    decreases |a|
  {
    if |a| > 0 {
      FindAllNone(a[1..], tag);
    }
  }

  /** When child `i` is the first tagged `tag`, `findall` starts with its
      text and goes on past it. */
  lemma FindAllAt(p: seq<Param>, tag: string, i: nat)
    requires i < |p| && FirstTagged(p, tag, i)
    ensures FindAll(p, tag) == [p[i].text] + FindAll(p[i+1..], tag)
  {
    assert p == p[..i] + p[i..];
    FindAllAppend(p[..i], p[i..], tag);
    FindAllNone(p[..i], tag);
    assert p[i..][0] == p[i] && p[i..][1..] == p[i+1..];
  }

  /** MapClear passes the first two `MapPort` children, in document order:
      the children at `i` and `j` when no other `MapPort` child precedes
      `j`. */
  lemma MapClearTakesFirstTwoPorts(p: seq<Param>, i: nat, j: nat)
    requires i < j < |p| && p[i].tag == "MapPort" && p[j].tag == "MapPort"
    requires forall k :: 0 <= k < j && k != i ==> p[k].tag != "MapPort"
    ensures BuildCall("MapClear", Some(p)) == Ok(MapClear(p[i].text, p[j].text))
  {
    var tag := "MapPort";
    var rest := p[i+1..];
    FindAllAt(p, tag, i);
    assert FirstTagged(rest, tag, j - i - 1) by {
      assert forall k :: 0 <= k < |rest| ==> rest[k] == p[i + 1 + k];
    }
    FindAllAt(rest, tag, j - i - 1);
    assert rest[j - i - 1] == p[j];
    assert FindAll(p, tag)[0] == p[i].text && FindAll(p, tag)[1] == p[j].text;
  }

  /** With at most one `MapPort` child, MapClear fails on the second index. */
  lemma MapClearTooFewPorts(p: seq<Param>)
    requires forall k, l :: 0 <= k < l < |p| && p[k].tag == "MapPort" ==> p[l].tag != "MapPort"
    ensures BuildCall("MapClear", Some(p)) == Err(TooFewMapPorts)
  {
    var tag := "MapPort";
    if i :| 0 <= i < |p| && p[i].tag == tag {
      assert p == p[..i] + ([p[i]] + p[i+1..]);
      FindAllAppend(p[..i], [p[i]] + p[i+1..], tag);
      FindAllAppend([p[i]], p[i+1..], tag);
      FindAllNone(p[..i], tag);
      FindAllNone(p[i+1..], tag);
      assert FindAll([p[i]], tag) == [p[i].text];
    } else {
      FindAllNone(p, tag);
    }
  }

  // ---------------------------------------------------------------------
  // One command
  // ---------------------------------------------------------------------

  /** The payload built from a successful handler return. */
  function Payload(call: Call, v: HandlerValue): Result<Info, Failure>
  {
    match call
    case GetStateId => Ok(StateInfo(v))
    case GetResourceDescription(_) => if v.Tree? then Ok(ResourceDescription(v.resource)) else Err(NotAResource(TypeName(v)))
    case GetAttributeValue(_, attribute) =>
      if attribute.None? then Err(NoneConcatenated) else Ok(AttributeInfo(attribute.value, v))
    case _ => Ok(NoInfo)
  }

  function Failed(id: string, name: string, f: Failure): Response
  {
    Response(id, name, false, Some(f), NoInfo)
  }

  /** The body of `process_command` once both attributes are known: every
      failure after that point is caught and becomes a failed response. */
  function Handle<S>(h: (S, Call) -> (S, Outcome), s: S, id: string, name: string,
                     params: Option<seq<Param>>): (r: (S, Response))
    ensures r.1.id == id && r.1.name == name
    ensures r.1.success <==> r.1.failure.None?
    ensures !r.1.success ==> r.1.info == NoInfo
    ensures !Known(name) ==> r == (s, Failed(id, name, Unimplemented(name)))
  {
    UnknownNameIsUnimplemented(name, params);
    match BuildCall(name, params)
    case Err(f) => (s, Failed(id, name, f))
    case Ok(call) =>
      var (s', out) := h(s, call);
      match out
      case Raised(m) => (s', Failed(id, name, HandlerRaised(m)))
      case Returned(v) =>
        match Payload(call, v)
        case Err(f) => (s', Failed(id, name, f))
        case Ok(info) => (s', Response(id, name, true, None, info))
  }

  /** Every failure once the attributes are known stays inside its own
      response: a parameter that cannot be read fails the command before
      the handler runs, a handler exception becomes the `Error` text
      `str(e)`, and a returned value succeeds with the payload the command
      asks for, a state id for `GetStateId` and none for the commands that
      only act. */
  lemma HandleContained<S>(h: (S, Call) -> (S, Outcome), s: S, id: string, name: string,
                           params: Option<seq<Param>>)
    ensures BuildCall(name, params).Err? ==>
      Handle(h, s, id, name, params) == (s, Failed(id, name, BuildCall(name, params).error))
    ensures BuildCall(name, params).Ok? && h(s, BuildCall(name, params).value).1.Raised? ==>
      var (s', out) := h(s, BuildCall(name, params).value);
      Handle(h, s, id, name, params) == (s', Failed(id, name, HandlerRaised(out.message)))
    ensures BuildCall(name, params).Ok? && h(s, BuildCall(name, params).value).1.Returned? ==>
      var call := BuildCall(name, params).value;
      var (s', out) := h(s, call);
      Handle(h, s, id, name, params).0 == s' &&
      (Payload(call, out.value).Ok? ==>
         Handle(h, s, id, name, params).1 == Response(id, name, true, None, Payload(call, out.value).value)) &&
      (Payload(call, out.value).Err? ==>
         Handle(h, s, id, name, params).1 == Failed(id, name, Payload(call, out.value).error))
    ensures name == "GetStateId" && h(s, GetStateId).1.Returned? ==>
      Handle(h, s, id, name, params)
        == (h(s, GetStateId).0, Response(id, name, true, None, StateInfo(h(s, GetStateId).1.value)))
    ensures BuildCall(name, params).Ok? && h(s, BuildCall(name, params).value).1.Returned? &&
            !BuildCall(name, params).value.GetStateId? &&
            !BuildCall(name, params).value.GetResourceDescription? &&
            !BuildCall(name, params).value.GetAttributeValue? ==>
      Handle(h, s, id, name, params).1 == Response(id, name, true, None, NoInfo)
  {
  }

  /** The `Error` text of a failed command, for each way it fails: an
      unknown name names itself; a command that reads parameters but has
      no `Parameters` child fails on `p.find`, or on `p.findall` for
      MapClear; a missing child fails on `.text`; too few `MapPort`
      children index out of range; a resource description that is not a
      resource fails on `to_string` with its type's name; an empty
      `Attribute` element fails when its `None` text is concatenated into
      the payload, after the handler ran; and a handler exception passes
      its own message through. */
  lemma HandleErrorText<S>(h: (S, Call) -> (S, Outcome), s: S, id: string, name: string,
                           params: Option<seq<Param>>)
    ensures !Known(name) ==>
      ErrorOf(Handle(h, s, id, name, params).1) == "Unimplemented command " + name
    ensures Known(name) && name != "Logout" && name != "GetStateId" && params.None? ==>
      ErrorOf(Handle(h, s, id, name, params).1) ==
        NoAttribute("NoneType", if name == "MapClear" then "findall" else "find")
    ensures BuildCall(name, params).Err? && BuildCall(name, params).error.NoParameter? ==>
      ErrorOf(Handle(h, s, id, name, params).1) == NoAttribute("NoneType", "text")
    ensures name == "MapClear" && params.Some? && |FindAll(params.value, "MapPort")| < 2 ==>
      ErrorOf(Handle(h, s, id, name, params).1) == "list index out of range"
    ensures BuildCall(name, params).Ok? && h(s, BuildCall(name, params).value).1.Raised? ==>
      ErrorOf(Handle(h, s, id, name, params).1) == h(s, BuildCall(name, params).value).1.message
    ensures name == "GetResourceDescription" && BuildCall(name, params).Ok? &&
            h(s, BuildCall(name, params).value).1 == Returned(Nothing) ==>
      ErrorOf(Handle(h, s, id, name, params).1) == NoAttribute("NoneType", "to_string")
    ensures name == "GetResourceDescription" && BuildCall(name, params).Ok? &&
            h(s, BuildCall(name, params).value).1.Returned? &&
            h(s, BuildCall(name, params).value).1.value.Str? ==>
      ErrorOf(Handle(h, s, id, name, params).1) == NoAttribute("str", "to_string")
    ensures name == "GetAttributeValue" && BuildCall(name, params).Ok? &&
            BuildCall(name, params).value.attribute.None? &&
            h(s, BuildCall(name, params).value).1.Returned? ==>
      ErrorOf(Handle(h, s, id, name, params).1) == NoneConcatenatedText
  {
    if BuildCall(name, params).Err? {
      BuildErrorText(h, s, id, name, params);
    } else {
      HandlerErrorText(h, s, id, name, params);
      var call := BuildCall(name, params).value;
      if h(s, call).1.Returned? && call.GetAttributeValue? && call.attribute.None? {
        NoneAttributeText(h, s, id, name, params);
      }
    }
  }

  /** `GetAttributeValue` with an empty `Attribute` element: the handler
      is called with `None` and its state change stays, but the command
      fails building its payload. */
  lemma EmptyAttributeFails<S>(h: (S, Call) -> (S, Outcome), s: S, id: string, address: Text)
    requires h(s, GetAttributeValue(address, None)).1.Returned?
    ensures var params := Some([Param("Address", address), Param("Attribute", None)]);
      Handle(h, s, id, "GetAttributeValue", params)
        == (h(s, GetAttributeValue(address, None)).0, Failed(id, "GetAttributeValue", NoneConcatenated))
  {
    var p := [Param("Address", address), Param("Attribute", None)];
    assert Find(p, "Address") == Some(address);
    assert Find(p, "Attribute") == Some(None) by {
      assert p[1..] == [Param("Attribute", None)];
    }
  }

  /** The error texts of the failures met once the handler has run. */
  lemma HandlerErrorText<S>(h: (S, Call) -> (S, Outcome), s: S, id: string, name: string,
                            params: Option<seq<Param>>)
    requires BuildCall(name, params).Ok?
    ensures h(s, BuildCall(name, params).value).1.Raised? ==>
      ErrorOf(Handle(h, s, id, name, params).1) == h(s, BuildCall(name, params).value).1.message
    ensures h(s, BuildCall(name, params).value).1.Returned? &&
            BuildCall(name, params).value.GetResourceDescription? &&
            !h(s, BuildCall(name, params).value).1.value.Tree? ==>
      ErrorOf(Handle(h, s, id, name, params).1) ==
        NoAttribute(TypeName(h(s, BuildCall(name, params).value).1.value), "to_string")
  {
    HandleContained(h, s, id, name, params);
  }

  /** The error text of an attribute read whose `Attribute` element was
      empty. */
  lemma NoneAttributeText<S>(h: (S, Call) -> (S, Outcome), s: S, id: string, name: string,
                             params: Option<seq<Param>>)
    requires BuildCall(name, params).Ok? && h(s, BuildCall(name, params).value).1.Returned?
    requires BuildCall(name, params).value.GetAttributeValue? && BuildCall(name, params).value.attribute.None?
    ensures ErrorOf(Handle(h, s, id, name, params).1) == NoneConcatenatedText
  {
  }

  /** The error texts of the failures found before the handler runs. */
  lemma BuildErrorText<S>(h: (S, Call) -> (S, Outcome), s: S, id: string, name: string,
                          params: Option<seq<Param>>)
    requires BuildCall(name, params).Err?
    ensures ErrorOf(Handle(h, s, id, name, params).1) == ErrorText(BuildCall(name, params).error)
    ensures !Known(name) ==> BuildCall(name, params) == Err(Unimplemented(name))
    ensures Known(name) && name != "Logout" && name != "GetStateId" && params.None? ==>
      BuildCall(name, params) == Err(NoParameters(if name == "MapClear" then "findall" else "find"))
    ensures name == "MapClear" && params.Some? && |FindAll(params.value, "MapPort")| < 2 ==>
      BuildCall(name, params) == Err(TooFewMapPorts)
  {
    var b := BuildCall(name, params);
    assert Handle(h, s, id, name, params).1 == Failed(id, name, b.error);
    if params.None? && Known(name) && name != "Logout" && name != "GetStateId" {
      NoParametersFails(name);
    }
    UnknownNameIsUnimplemented(name, params);
  }

  /** Without a `Parameters` child, every command that reads a parameter
      fails on the first lookup in `p`. */
  lemma NoParametersFails(name: string)
    requires Known(name) && name != "Logout" && name != "GetStateId"
    ensures BuildCall(name, None) == Err(NoParameters(if name == "MapClear" then "findall" else "find"))
  {
  }

  predicate WellFormed(node: CommandNode) {
    node.id.Some? && node.name.Some?
  }

  /** The abort raised for an element lacking an attribute; `CommandId` is
      read first. */
  function MissingOf(node: CommandNode): Abort
  {
    MissingAttribute(if node.id.None? then "CommandId" else "CommandName")
  }

  /** `process_command`: the attributes are read first, outside the `try`,
      so a missing one aborts the batch. */
  function ProcessCommand<S>(h: (S, Call) -> (S, Outcome), s: S, node: CommandNode): (r: Result<(S, Response), Abort>)
    ensures node.id.None? ==> r == Err(MissingAttribute("CommandId"))
    ensures node.id.Some? && node.name.None? ==> r == Err(MissingAttribute("CommandName"))
    ensures r.Ok? <==> WellFormed(node)
  {
    if WellFormed(node) then Ok(Handle(h, s, node.id.value, node.name.value, node.parameters))
    else Err(MissingOf(node))
  }

  // ---------------------------------------------------------------------
  // A batch
  // ---------------------------------------------------------------------

  /** The responses of a batch in document order, together with the handler
      state after the last command handled (also when a later element
      aborts the batch). */
  function Responses<S>(h: (S, Call) -> (S, Outcome), s: S, nodes: seq<CommandNode>): (r: (S, Result<seq<Response>, Abort>))
    ensures r.1.Ok? <==> forall k :: 0 <= k < |nodes| ==> WellFormed(nodes[k])
    ensures r.1.Ok? ==> |r.1.value| == |nodes|
    ensures r.1.Ok? ==> forall k :: 0 <= k < |nodes| ==>
      r.1.value[k].id == nodes[k].id.value && r.1.value[k].name == nodes[k].name.value
    decreases |nodes|
  {
    if |nodes| == 0 then (s, Ok([]))
    else if !WellFormed(nodes[0]) then (s, Err(MissingOf(nodes[0])))
    else
      var first := Handle(h, s, nodes[0].id.value, nodes[0].name.value, nodes[0].parameters);
      var rest := Responses(h, first.0, nodes[1..]);
      (rest.0, Join([first.1], rest.1))
  }

  /** Responses already produced, followed by those of a later part of the
      batch (or that part's abort). */
  function Join(done: seq<Response>, later: Result<seq<Response>, Abort>): (r: Result<seq<Response>, Abort>)
    ensures r.Ok? <==> later.Ok?
    ensures r.Ok? ==> r.value == done + later.value
  {
    if later.Ok? then Ok(done + later.value) else later
  }

  predicate AllSucceeded(rs: seq<Response>) {
    forall k :: 0 <= k < |rs| ==> rs[k].success
  }

  /** `process_commands`: the envelope's `Success` is the AND of the
      per-command flags and its error code is set when any command failed. */
  function ProcessCommands<S>(h: (S, Call) -> (S, Outcome), s: S, nodes: seq<CommandNode>): (r: (S, Result<Batch, Abort>))
    ensures r.1.Ok? <==> forall k :: 0 <= k < |nodes| ==> WellFormed(nodes[k])
    ensures r.1.Ok? ==> |r.1.value.responses| == |nodes|
    ensures r.1.Ok? ==> (r.1.value.success <==> forall k :: 0 <= k < |nodes| ==> r.1.value.responses[k].success)
    ensures r.1.Ok? ==> (r.1.value.errorCode == FailedErrorCode <==>
                         exists k :: 0 <= k < |nodes| && !r.1.value.responses[k].success)
    ensures r.1.Ok? ==> (r.1.value.errorCode == NoErrorCode <==> r.1.value.success)
  {
    var (s', rs) := Responses(h, s, nodes);
    match rs
    case Err(a) => (s', Err(a))
    case Ok(responses) =>
      var ok := AllSucceeded(responses);
      (s', Ok(Batch(ok, if ok then NoErrorCode else FailedErrorCode, responses)))
  }

  /** The `Success` attribute text of the envelope. */
  function SuccessText(b: Batch): string
  {
    if b.success then "true" else "false"
  }

  // ---------------------------------------------------------------------
  // Containment of failures
  // ---------------------------------------------------------------------

  /** Processing a batch in two halves gives the same responses as
      processing it at once: each command sees only the handler state its
      predecessors left, never their outcomes. */
  lemma {:induction false} ResponsesAppend<S>(h: (S, Call) -> (S, Outcome), s: S, a: seq<CommandNode>, b: seq<CommandNode>)
    requires forall k :: 0 <= k < |a| ==> WellFormed(a[k])
    ensures Responses(h, s, a).1.Ok?
    ensures Responses(h, s, a + b).0 == Responses(h, Responses(h, s, a).0, b).0
    ensures Responses(h, s, a + b).1
      == Join(Responses(h, s, a).1.value, Responses(h, Responses(h, s, a).0, b).1)
    decreases |a|
  {
    if |a| == 0 {
      assert a + b == b;
      var rb := Responses(h, s, b).1;
      if rb.Ok? {
        assert [] + rb.value == rb.value;
      }
    } else {
      var ab := a + b;
      assert ab[0] == a[0];
      assert ab[1..] == a[1..] + b;
      var first := Handle(h, s, a[0].id.value, a[0].name.value, a[0].parameters);
      ResponsesAppend(h, first.0, a[1..], b);
      var tailA := Responses(h, first.0, a[1..]);
      var tailB := Responses(h, tailA.0, b);
      if tailB.1.Ok? {
        assert [first.1] + (tailA.1.value + tailB.1.value) == ([first.1] + tailA.1.value) + tailB.1.value;
      }
    }
  }

  /** An element with an unknown command name anywhere in a batch yields
      its own failed response and changes nothing for the others: the
      responses around it are those of the batch without it. */
  lemma UnknownCommandIsContained<S>(h: (S, Call) -> (S, Outcome), s: S,
                                     a: seq<CommandNode>, bad: CommandNode, b: seq<CommandNode>)
    requires forall k :: 0 <= k < |a| ==> WellFormed(a[k])
    requires WellFormed(bad) && !Known(bad.name.value)
    ensures var whole := Responses(h, s, a + [bad] + b);
      var without := Responses(h, s, a + b);
      whole.0 == without.0 &&
      (without.1.Ok? ==>
         whole.1.Ok? &&
         whole.1.value == without.1.value[..|a|]
                          + [Failed(bad.id.value, bad.name.value, Unimplemented(bad.name.value))]
                          + without.1.value[|a|..])
  {
    var failed := Failed(bad.id.value, bad.name.value, Unimplemented(bad.name.value));
    ResponsesAppend(h, s, a, b);
    var s1 := Responses(h, s, a).0;
    var ra := Responses(h, s, a).1.value;
    var rb := Responses(h, s1, b);
    var mid := Responses(h, s1, [bad] + b);
    assert Responses(h, s, a + [bad] + b) == (mid.0, Join(ra, mid.1)) by {
      InsertAssoc(a, bad, b);
      ResponsesAppend(h, s, a, [bad] + b);
    }
    assert mid == (rb.0, Join([failed], rb.1)) by {
      UnknownHead(h, s1, bad, b);
    }
    if rb.1.Ok? {
      Splice(ra, failed, rb.1.value);
    }
  }

  lemma InsertAssoc<T>(x: seq<T>, m: T, y: seq<T>)
    ensures x + [m] + y == x + ([m] + y)
  {
  }

  lemma Splice<T>(x: seq<T>, m: T, y: seq<T>)
    ensures x + ([m] + y) == (x + y)[..|x|] + [m] + (x + y)[|x|..]
  {
    assert (x + y)[..|x|] == x;
    assert (x + y)[|x|..] == y;
  }

  /** A batch led by an unknown command: its failed response, then the rest
      processed from the unchanged state. */
  lemma UnknownHead<S>(h: (S, Call) -> (S, Outcome), s: S, bad: CommandNode, b: seq<CommandNode>)
    requires WellFormed(bad) && !Known(bad.name.value)
    ensures Responses(h, s, [bad] + b)
      == (Responses(h, s, b).0,
          Join([Failed(bad.id.value, bad.name.value, Unimplemented(bad.name.value))], Responses(h, s, b).1))
  {
    assert ([bad] + b)[0] == bad;
    assert ([bad] + b)[1..] == b;
  }

  /** A missing `CommandId` or `CommandName` on any element aborts the whole
      batch rather than failing that one command, although every earlier
      command has already reached the handler. */
  lemma MissingAttributeAbortsBatch<S>(h: (S, Call) -> (S, Outcome), s: S, nodes: seq<CommandNode>, k: nat)
    requires k < |nodes| && !WellFormed(nodes[k])
    ensures ProcessCommands(h, s, nodes).1.Err?
  {
  }

  // ---------------------------------------------------------------------
  // Scenarios of the protocol description
  // ---------------------------------------------------------------------

  /** A batch of one `GetStateId` whose handler returns "-1" answers with a
      successful `StateId` payload of "-1" and an empty error code. */
  lemma GetStateIdScenario<S>(h: (S, Call) -> (S, Outcome), s: S, id: string)
    requires h(s, GetStateId).1 == Returned(Str("-1"))
    ensures var b := ProcessCommands(h, s, [CommandNode(Some(id), Some("GetStateId"), None)]).1;
      b.Ok? && b.value.success && b.value.errorCode == NoErrorCode &&
      b.value.responses == [Response(id, "GetStateId", true, None, StateInfo(Str("-1")))]
  {
    var nodes := [CommandNode(Some(id), Some("GetStateId"), None)];
    assert nodes[1..] == [];
  }
}
