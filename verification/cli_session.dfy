/** The CLI-library TL1 session (`TL1Session_Polatis` in
    polatis/cli/l1_cli_handler.py) and the guards of `L1CliHandler` that
    choose and configure the candidate sessions. The base session's own
    send-and-read is not visible: what it returns for a command is a
    parameter, as are the login hook and the runtime configuration. */
module CliSession {
  import opened Wrappers
  import opened Text
  import Tl1Reply

  /** The session's TL1 state: correlation counter, switch name and
      whether it has finished its connect actions. */
  datatype Session = Session(counter: nat, switchName: string, active: bool)

  /** Why `hardware_expect` raised: no reply carries the expected tag
      (the `m.groups()` of a failed search), or its status is not COMPLD. */
  datatype ExpectFault = NoPrompt(output: string) | BadStatus(status: string, output: string)

  /** One `hardware_expect` call: the session after it, the text handed to
      the base session and the outcome. */
  datatype Expect = Expect(session: Session, sent: string, result: Result<string, ExpectFault>)

  const Completed: string := "COMPLD"

  /** The status captured for tag `tag` in the base session's output, with
      the upper-case status pattern of this session. */
  function StatusOf(output: string, tag: nat): Option<string>
  {
    match Tl1Reply.SearchReply(output, tag, true)
    case None => None
    case Some((_, status)) => Some(status)
  }

  /** `<counter>` first, then `<name>`. */
  function Substitute(command: string, counter: nat, name: string): string
  {
    Replace(Replace(command, "<counter>", NatToString(counter)), "<name>", name)
  }

  /** `hardware_expect`: advance the counter, substitute the placeholders,
      let the base session read `output`, and accept it only if the reply
      tagged with the new counter reports COMPLD. The counter advances
      whatever the outcome. */
  function HardwareExpect(s: Session, command: string, output: string): (r: Expect)
    ensures r.session == s.(counter := s.counter + 1)
    ensures r.sent == Substitute(command, s.counter + 1, s.switchName)
    ensures r.result.Ok? <==> StatusOf(output, s.counter + 1) == Some(Completed)
    ensures r.result.Ok? ==> r.result.value == output
    ensures r.result.Err? && r.result.error.NoPrompt? ==>
      r.result.error.output == output && StatusOf(output, s.counter + 1).None?
    ensures r.result.Err? && r.result.error.BadStatus? ==>
      r.result.error.output == output && r.result.error.status != Completed &&
      StatusOf(output, s.counter + 1) == Some(r.result.error.status)
  {
    var tag := s.counter + 1;
    var sent := Substitute(command, tag, s.switchName);
    var s' := s.(counter := tag);
    match StatusOf(output, tag)
    case None => Expect(s', sent, Err(NoPrompt(output)))
    case Some(status) =>
      if status != Completed then Expect(s', sent, Err(BadStatus(status, output)))
      else Expect(s', sent, Ok(output))
  }

  /** No reply tagged with the counter, no status. */
  lemma NoTagNoStatus(output: string, tag: nat)
    requires forall i :: 0 <= i < |output| ==> Tl1Reply.TagAt(output, i) != Some(tag)
    ensures StatusOf(output, tag).None?
  {
    Tl1Reply.OtherTagsNeverComplete(output, tag, true);
  }

  /** Output whose only replies carry other tags never satisfies the
      call, whatever their status. */
  lemma StaleReplyRejected(s: Session, command: string, output: string)
    requires forall i :: 0 <= i < |output| ==> Tl1Reply.TagAt(output, i) != Some(s.counter + 1)
    ensures HardwareExpect(s, command, output).result == Err(NoPrompt(output))
  {
    NoTagNoStatus(output, s.counter + 1);
    NoStatusNoPrompt(s, command, output);
  }

  /** Without a status for the call's counter the call raises the
      missing-prompt fault on the whole output. */
  lemma NoStatusNoPrompt(s: Session, command: string, output: string)
    requires StatusOf(output, s.counter + 1).None?
    ensures HardwareExpect(s, command, output).result == Err(NoPrompt(output))
  {
  }

  /** A reply line tagged with the call's counter decides the outcome by its
      status alone: COMPLD returns the output, anything else raises with
      that status. */
  lemma TaggedReplyDecides(s: Session, command: string, pre: string, status: string)
    requires forall k :: 0 <= k < |pre| ==> pre[k] != 'M'
    requires |status| > 0 && status[0] != ' '
    requires forall k :: 0 <= k < |status| ==> Tl1Reply.StatusChar(true, status[k])
    ensures var output := pre + "M " + NatToString(s.counter + 1) + " " + status + "\r\n;";
      (status == Completed ==> HardwareExpect(s, command, output).result == Ok(output)) &&
      (status != Completed ==> HardwareExpect(s, command, output).result == Err(BadStatus(status, output)))
  {
    var output := pre + "M " + NatToString(s.counter + 1) + " " + status + "\r\n;";
    CanonicalStatus(pre, s.counter + 1, status);
    if status == Completed {
      StatusCompletes(s, command, output);
    } else {
      StatusRejects(s, command, output, status);
    }
  }

  /** The status read from a canonical reply line is the line's own. */
  lemma CanonicalStatus(pre: string, tag: nat, status: string)
    requires forall k :: 0 <= k < |pre| ==> pre[k] != 'M'
    requires |status| > 0 && status[0] != ' '
    requires forall k :: 0 <= k < |status| ==> Tl1Reply.StatusChar(true, status[k])
    ensures StatusOf(pre + "M " + NatToString(tag) + " " + status + "\r\n;", tag) == Some(status)
  {
    Tl1Reply.CanonicalReply(pre, tag, status, true);
  }

  /** A COMPLD status for the call's counter returns the output. */
  lemma StatusCompletes(s: Session, command: string, output: string)
    requires StatusOf(output, s.counter + 1) == Some(Completed)
    ensures HardwareExpect(s, command, output).result == Ok(output)
  {
  }

  /** Any other status for the call's counter raises with that status. */
  lemma StatusRejects(s: Session, command: string, output: string, status: string)
    requires StatusOf(output, s.counter + 1) == Some(status) && status != Completed
    ensures HardwareExpect(s, command, output).result == Err(BadStatus(status, output))
  {
  }

  /** The name is substituted after the counter, so a switch name that
      itself reads `<counter>` reaches the device verbatim. */
  lemma NameSubstitutedLast(counter: nat)
    ensures Substitute("<name>", counter, "<counter>") == "<counter>"
  {
    ReplaceShort("<name>", "<counter>", NatToString(counter));
    ReplaceHead("", "<name>", "<counter>");
    ReplaceShort("", "<name>", "<counter>");
  }

  // ---------------------------------------------------------------------
  // _connect_actions
  // ---------------------------------------------------------------------

  /** The login command before substitution. */
  function LoginCommand(user: string, password: string): string
  {
    "ACT-USER::" + user + ":<counter>::" + password + ";"
  }

  /** The switch name read from the login output: '' for `( nil )`,
      otherwise the stripped text before the first whitespace-digits-dash
      on some line, and '' when there is none. */
  function NameFromLogin(output: string): (r: string)
    ensures Contains(output, "( nil )") ==> r == ""
    ensures !Contains(output, "( nil )") && Tl1Reply.HeaderGroup(output).None? ==> r == ""
    ensures !Contains(output, "( nil )") && Tl1Reply.HeaderGroup(output).Some? ==>
      r == Strip(Tl1Reply.HeaderGroup(output).value)
  {
    if Contains(output, "( nil )") then ""
    else match Tl1Reply.HeaderGroup(output)
      case Some(g) => Strip(g)
      case None => ""
  }

  /** A login output whose header line is `<indent><name> <digits>-...`,
      after lines the header pattern skips, names the switch `<name>`. */
  lemma NameFromHeaderLine(pre: string, indent: string, name: string, digits: string, rest: string)
    requires |pre| == 0 || pre[|pre| - 1] == '\n'
    requires forall i :: 0 <= i < |pre| ==>
      Tl1Reply.HeaderAt(pre + indent + name + " " + digits + "-" + rest, i).None?
    requires forall k :: 0 <= k < |indent| ==> IsSpace(indent[k]) && indent[k] != '\n'
    requires |name| > 0 && NoSpace(name)
    requires |digits| > 0 && AllDigits(digits)
    requires forall k :: 0 <= k < |rest| ==> !Tl1Reply.DashAfter(rest, k)
    requires !Contains(pre + indent + name + " " + digits + "-" + rest, "( nil )")
    ensures NameFromLogin(pre + indent + name + " " + digits + "-" + rest) == name
  {
    var group := indent + name;
    assert pre + indent + name + " " + digits + "-" + rest == pre + group + " " + digits + "-" + rest;
    assert forall k :: 0 <= k < |group| ==> group[k] != '\n' by {
      assert forall k :: |indent| <= k < |group| ==> group[k] == name[k - |indent|];
    }
    Tl1Reply.HeaderGroupOf(pre, group, digits, rest);
    StripIndented(indent, name);
  }

  /** The login step of `_connect_actions`, before the hook runs: one
      `hardware_expect`; on success the switch name is set. */
  function LoginStep(s: Session, user: string, password: string, output: string): (r: Expect)
    ensures r.sent == Substitute(LoginCommand(user, password), s.counter + 1, s.switchName)
    ensures r.session.active == s.active
    ensures r.result.Ok? <==> StatusOf(output, s.counter + 1) == Some(Completed)
    ensures r.result.Ok? ==> r.session == Session(s.counter + 1, NameFromLogin(output), s.active)
    ensures r.result.Err? ==> r.session == s.(counter := s.counter + 1)
  {
    var e := HardwareExpect(s, LoginCommand(user, password), output);
    if e.result.Err? then e
    else e.(session := e.session.(switchName := NameFromLogin(output)))
  }

  /** What `_connect_actions` does after the login step: on success run
      the start hook if there is one, and only then mark the session
      active; a failed login leaves the session as the step left it. */
  function Activate(e: Expect, hook: Option<Session -> Session>): (r: Expect)
    requires !e.session.active
    ensures r.sent == e.sent && r.result == e.result
    ensures r.result.Ok? <==> r.session.active
    ensures r.result.Ok? && hook.None? ==> r.session == e.session.(active := true)
    ensures r.result.Ok? && hook.Some? ==> r.session == hook.value(e.session).(active := true)
    ensures r.result.Err? ==> r.session == e.session
  {
    if e.result.Err? then e
    else match hook
      case None => e.(session := e.session.(active := true))
      case Some(h) => e.(session := h(e.session).(active := true))
  }

  /** `_connect_actions`: log in, name the switch, run the start hook if
      there is one, and only then mark the session active. */
  function ConnectActions(s: Session, user: string, password: string, output: string,
                          hook: Option<Session -> Session>): (r: Expect)
    requires !s.active
  {
    Activate(LoginStep(s, user, password, output), hook)
  }

  /** The connect actions succeed exactly when the login reply for the
      new counter reports COMPLD, and the session is active exactly then. */
  lemma ConnectAccepted(s: Session, user: string, password: string, output: string,
                        hook: Option<Session -> Session>)
    requires !s.active
    ensures var r := ConnectActions(s, user, password, output, hook);
      (r.result.Ok? <==> StatusOf(output, s.counter + 1) == Some(Completed)) &&
      (r.result.Ok? <==> r.session.active)
  {
    var e := LoginStep(s, user, password, output);
    LoginAccepted(s, user, password, output);
    ActivateKeeps(e, hook);
  }

  /** The login step succeeds exactly on a COMPLD reply. */
  lemma LoginAccepted(s: Session, user: string, password: string, output: string)
    ensures var e := LoginStep(s, user, password, output);
      e.session.active == s.active &&
      (e.result.Ok? <==> StatusOf(output, s.counter + 1) == Some(Completed))
  {
  }

  /** Activation keeps the step's outcome and marks exactly success. */
  lemma ActivateKeeps(e: Expect, hook: Option<Session -> Session>)
    requires !e.session.active
    ensures var r := Activate(e, hook);
      r.result == e.result && (r.result.Ok? <==> r.session.active)
  {
  }

  /** A successful connect leaves the named session, passed through the
      hook, active; a failed one only advanced the counter. */
  lemma ConnectSession(s: Session, user: string, password: string, output: string,
                       hook: Option<Session -> Session>)
    requires !s.active
    ensures var r := ConnectActions(s, user, password, output, hook);
      var named := Session(s.counter + 1, NameFromLogin(output), false);
      (r.result.Ok? && hook.None? ==> r.session == named.(active := true)) &&
      (r.result.Ok? && hook.Some? ==> r.session == hook.value(named).(active := true)) &&
      (r.result.Err? ==> r.session == s.(counter := s.counter + 1))
  {
    var e := LoginStep(s, user, password, output);
    LoginNamed(s, user, password, output);
    ActivateSession(e, hook);
  }

  /** The login step names the switch on success and otherwise only
      advances the counter. */
  lemma LoginNamed(s: Session, user: string, password: string, output: string)
    requires !s.active
    ensures var e := LoginStep(s, user, password, output);
      !e.session.active &&
      (e.result.Ok? ==> e.session == Session(s.counter + 1, NameFromLogin(output), false)) &&
      (e.result.Err? ==> e.session == s.(counter := s.counter + 1))
  {
  }

  /** The session activation leaves behind. */
  lemma ActivateSession(e: Expect, hook: Option<Session -> Session>)
    requires !e.session.active
    ensures var r := Activate(e, hook);
      (r.result.Ok? && hook.None? ==> r.session == e.session.(active := true)) &&
      (r.result.Ok? && hook.Some? ==> r.session == hook.value(e.session).(active := true)) &&
      (r.result.Err? ==> r.session == e.session)
  {
  }

  // ---------------------------------------------------------------------
  // L1CliHandler
  // ---------------------------------------------------------------------

  /** The connection attributes; None until `Login` stored them. */
  datatype Handler = Handler(host: Option<string>, username: Option<string>, password: Option<string>)

  /** Python truthiness of an optional string. */
  predicate Truthy(v: Option<string>) {
    v.Some? && v.value != ""
  }

  /** `define_session_attributes`: an address with a ':' in it (one that
      `split(':')` cuts into several pieces) is refused; otherwise the
      three values are stored as given. */
  function DefineSessionAttributes(h: Handler, address: string, username: string, password: string): (r: Result<Handler, string>)
    ensures r.Err? <==> ':' in address
    ensures r.Ok? ==> r.value == Handler(Some(address), Some(username), Some(password))
  {
    if ':' in address then Err("Incorrect resource address")
    else Ok(Handler(Some(address), Some(username), Some(password)))
  }

  /** The session kinds the handler knows. */
  const DefinedTypes: seq<string> := ["SSH", "TELNET", "TL1", "SCPI"]

  /** One candidate session: its kind, the stored attributes and the
      configured port for that kind, if any. */
  datatype Candidate = Candidate(kind: string, host: Option<string>, username: Option<string>,
                                 password: Option<string>, port: Option<int>)

  /** The message for a session type outside the table. */
  function UndefinedType(kind: string): string
  {
    "Session type " + kind + " is not defined"
  }

  /** Raised by `self._ports.get(...)` when no `CLI.PORTS` is configured. */
  const NoPorts: string := "'NoneType' object has no attribute 'get'"

  /** The port configured for a kind: `dict.get`. */
  function PortFor(ports: map<string, int>, kind: string): Option<int>
  {
    if kind in ports then Some(ports[kind]) else None
  }

  /** `_new_sessions`: one candidate per configured type, in order. Each
      type is first looked up in the table, and the first one outside it
      raises; then its port is read from the configured ports, which
      raises at the first defined type when no ports are configured. */
  function NewSessions(h: Handler, types: seq<string>, ports: Option<map<string, int>>): (r: Result<seq<Candidate>, string>)
    ensures r.Ok? <==> (forall i :: 0 <= i < |types| ==> types[i] in DefinedTypes) && (types == [] || ports.Some?)
    ensures r.Ok? ==> |r.value| == |types|
    ensures r.Ok? ==> forall i :: 0 <= i < |types| ==>
      ports.Some? && r.value[i] == Candidate(types[i], h.host, h.username, h.password, PortFor(ports.value, types[i]))
    ensures ports.None? && types != [] && types[0] in DefinedTypes ==> r == Err(NoPorts)
    ensures r.Err? && r.error != NoPorts ==> exists i :: (0 <= i < |types| && types[i] !in DefinedTypes &&
      (forall k :: 0 <= k < i ==> types[k] in DefinedTypes) && r.error == UndefinedType(types[i]))
    decreases |types|
  {
    if |types| == 0 then Ok([])
    else if types[0] !in DefinedTypes then Err(UndefinedType(types[0]))
    else if ports.None? then Err(NoPorts)
    else
      var port := PortFor(ports.value, types[0]);
      match NewSessions(h, types[1..], ports)
      case Err(e) => Err(e)
      case Ok(rest) => Ok([Candidate(types[0], h.host, h.username, h.password, port)] + rest)
  }

  /** An iteration order of the table's keys, as `keys()` returns them:
      Python 2 promises each key once and no particular order. */
  predicate KeyOrder(keys: seq<string>) {
    multiset(keys) == multiset(DefinedTypes)
  }

  /** The configured type list, or the table's keys in the order `keys`
      when none is set. */
  function SessionTypes(configured: seq<string>, keys: seq<string>): (r: seq<string>)
    requires KeyOrder(keys)
    ensures configured != [] ==> r == configured
    ensures configured == [] ==> r == keys
    ensures configured == [] ==> multiset(r) == multiset(DefinedTypes)
    ensures configured == [] ==> forall k :: 0 <= k < |r| ==> r[k] in DefinedTypes
  {
    if configured == [] then
      assert forall k :: 0 <= k < |keys| ==> keys[k] in DefinedTypes by {
        forall k | 0 <= k < |keys| ensures keys[k] in DefinedTypes {
          assert keys[k] in multiset(keys);
        }
      }
      keys
    else configured
  }

  /** `get_cli_service`, up to the session pool: nothing is attempted until
      host, user name and password are all set and non-empty; then the
      candidate sessions are built. */
  function GetCliService(h: Handler, configured: seq<string>, keys: seq<string>, ports: Option<map<string, int>>): (r: Result<seq<Candidate>, string>)
    requires KeyOrder(keys)
    ensures !(Truthy(h.host) && Truthy(h.username) && Truthy(h.password)) ==>
      r == Err("Cli Attributes is not defined, call Login command first")
    ensures Truthy(h.host) && Truthy(h.username) && Truthy(h.password) ==>
      r == NewSessions(h, SessionTypes(configured, keys), ports)
  {
    if !(Truthy(h.host) && Truthy(h.username) && Truthy(h.password)) then
      Err("Cli Attributes is not defined, call Login command first")
    else NewSessions(h, SessionTypes(configured, keys), ports)
  }

  /** Attributes accepted by `define_session_attributes` with a non-empty
      host, user and password yield, under the default type list and with
      ports configured, one candidate per kind of the table, in the keys'
      order, each carrying them; with no ports configured the first
      candidate raises. */
  lemma DefinedAttributesServe(address: string, username: string, password: string, keys: seq<string>,
                               ports: Option<map<string, int>>)
    requires KeyOrder(keys)
    requires ':' !in address && address != "" && username != "" && password != ""
    ensures var h := Handler(Some(address), Some(username), Some(password));
      DefineSessionAttributes(Handler(None, None, None), address, username, password) == Ok(h) &&
      match GetCliService(h, [], keys, ports)
      case Ok(cs) =>
        ports.Some? && |cs| == |DefinedTypes| && multiset(KindsOf(cs)) == multiset(DefinedTypes) &&
        forall i :: 0 <= i < |cs| ==> cs[i].host == Some(address) && cs[i].kind == keys[i]
      case Err(e) => ports.None? && e == NoPorts
  {
    var h := Handler(Some(address), Some(username), Some(password));
    var types := SessionTypes([], keys);
    assert |keys| == |DefinedTypes| by {
      assert |multiset(keys)| == |multiset(DefinedTypes)|;
    }
    assert GetCliService(h, [], keys, ports) == NewSessions(h, types, ports);
    if ports.Some? {
      var cs := NewSessions(h, types, ports).value;
      assert KindsOf(cs) == keys;
    } else {
      assert keys[0] in multiset(keys);
    }
  }

  /** The kinds of a candidate list, in order. */
  function KindsOf(cs: seq<Candidate>): (ks: seq<string>)
    ensures |ks| == |cs| && forall i :: 0 <= i < |cs| ==> ks[i] == cs[i].kind
  {
    seq(|cs|, i requires 0 <= i < |cs| => cs[i].kind)
  }

  /** Types all from the table, with ports configured, give one candidate
      each, in order, each carrying the stored host. */
  lemma CandidatesFor(h: Handler, types: seq<string>, ports: map<string, int>)
    requires forall i :: 0 <= i < |types| ==> types[i] in DefinedTypes
    ensures match NewSessions(h, types, Some(ports))
      case Ok(cs) =>
        |cs| == |types| &&
        forall i :: 0 <= i < |cs| ==> cs[i].host == h.host && cs[i].kind == types[i] &&
                                      cs[i].port == PortFor(ports, types[i])
      case Err(_) => false
  {
  }
}
