/** The direct TL1 connection (`PolatisRawConnection` in
    polatis_l1_handler.py) and the mapping commands of `PolatisL1Handler`
    built on it. The socket is replaced by a script of what the peer does:
    the outcome of each connection attempt, of each send call and the
    chunks each receive call returns. Everything sent is appended to a
    wire. When the script runs out the real call would block; the model
    reports that as `Stalled`. */
module RawConnection {
  import opened Wrappers
  import opened Text
  import Tl1Reply

  /** A send call either accepts some prefix of the text or raises. */
  datatype SendResult = Accepted(count: nat) | SendRaised

  datatype Io = Io(opens: seq<bool>, sends: seq<SendResult>, chunks: seq<string>, wire: string)

  /** The scripted calls still available: every connection attempt and
      every send consumes one. */
  function Budget(io: Io): nat
  {
    |io.opens| + |io.sends|
  }

  /** The connection's state: the account it logs in with, the
      correlation counter, the switch name and whether a socket is open. */
  datatype Conn = Conn(user: string, password: string, counter: nat, switchName: string, connected: bool)

  const InitialSwitchName: string := "bad-switch-name"

  datatype Fault =
    | OpenFailed                           // socket connect raised
    | SendFailed                           // the retried send raised
    | EndOfStream                          // empty recv before the reply
    | DeviceStatus(status: string, reply: string)  // reply status other than COMPLD
    | BadPort(message: string)             // int() of a port address failed
    | Stalled                              // the script ran out

  /** The connection and peer after an operation, and its result. */
  datatype Run = Run(conn: Conn, io: Io, result: Result<string, Fault>)

  const LoginTemplate: string := "ACT - USER::"
  const HeaderTemplate: string := "RTRV-HDR:::{counter}:;"
  const Completed: string := "COMPLD"

  /** `ACT - USER::<user>:{counter}::<password>;`, formatted before the
      placeholders are substituted. */
  function LoginLine(user: string, password: string): string
  {
    LoginTemplate + user + ":{counter}::" + password + ";"
  }

  /** The placeholder substitution of `command()`: `{name}` first, then
      `{counter}`. */
  function Render(template: string, name: string, counter: nat): string
  {
    Replace(Replace(template, "{name}", name), "{counter}", NatToString(counter))
  }

  /** The text `command()` sends: the rendered command and a newline. */
  function Line(template: string, name: string, counter: nat): string
  {
    Render(template, name, counter) + "\n"
  }

  /** The switch name taken from the header reply, given the current one. */
  function NameFromHeader(reply: string, current: string): (r: string)
    ensures Contains(reply, "( nil )") ==> r == ""
    ensures !Contains(reply, "( nil )") && Tl1Reply.FirstWord(reply).Some? ==> r == Tl1Reply.FirstWord(reply).value
    ensures !Contains(reply, "( nil )") && Tl1Reply.FirstWord(reply).None? ==> r == current
  {
    if Contains(reply, "( nil )") then ""
    else match Tl1Reply.FirstWord(reply)
      case Some(w) => w
      case None => current
  }

  // ---------------------------------------------------------------------
  // _read_until
  // ---------------------------------------------------------------------

  /** Whether the prompt pattern of the command tagged `tag` occurs in a
      buffer (the `re.search` of `_read_until`). */
  function Prompt(tag: nat): string -> bool
  {
    (b: string) => Tl1Reply.SearchReply(b, tag, false).Some?
  }

  /** The receive loop of `_read_until` with termination test `found`,
      from buffer `buf` over the remaining chunks: the result and how many
      chunks it consumed. */
  function ReadFrom(buf: string, chunks: seq<string>, found: string -> bool): (r: (Result<string, Fault>, nat))
    ensures r.1 <= |chunks|
    ensures r.0.Ok? ==> found(r.0.value)
    ensures r.0.Err? ==> r.0.error == EndOfStream || r.0.error == Stalled
    decreases |chunks|
  {
    if |chunks| == 0 then (Err(Stalled), 0)
    else
      var next := buf + chunks[0];
      if found(next) then (Ok(next), 1)
      else if chunks[0] == "" then (Err(EndOfStream), 1)
      else
        var rest := ReadFrom(next, chunks[1..], found);
        (rest.0, rest.1 + 1)
  }

  /** The buffer `_read_until` holds after `m` chunks. */
  function Received(buf: string, chunks: seq<string>, m: nat): string
    requires m <= |chunks|
  {
    buf + Concat(chunks[..m])
  }

  /** `_read_until` returns the buffer after the first chunk that makes the
      pattern match, having found no match after any earlier chunk; it
      raises at the first empty chunk before that, and blocks when the
      chunks run out. */
  lemma {:induction false} ReadFromSpec(buf: string, chunks: seq<string>, found: string -> bool)
    ensures ReadFrom(buf, chunks, found).0.Ok? ==>
      ReadFrom(buf, chunks, found).1 >= 1 &&
      ReadFrom(buf, chunks, found).0.value == Received(buf, chunks, ReadFrom(buf, chunks, found).1)
    ensures ReadFrom(buf, chunks, found).0 == Err(EndOfStream) ==>
      ReadFrom(buf, chunks, found).1 >= 1 && chunks[ReadFrom(buf, chunks, found).1 - 1] == ""
    ensures ReadFrom(buf, chunks, found).0 == Err(Stalled) ==> ReadFrom(buf, chunks, found).1 == |chunks|
    ensures forall m :: 1 <= m < ReadFrom(buf, chunks, found).1 ==>
      !found(Received(buf, chunks, m)) && chunks[m - 1] != ""
    decreases |chunks|
  {
    if |chunks| > 0 {
      var next := buf + chunks[0];
      assert Received(buf, chunks, 1) == next by {
        ReceivedShift(buf, chunks, 0);
        assert chunks[1..][..0] == [];
      }
      if !found(next) && chunks[0] != "" {
        ReadFromSpec(next, chunks[1..], found);
        var rest := ReadFrom(next, chunks[1..], found);
        assert ReadFrom(buf, chunks, found) == (rest.0, rest.1 + 1);
        forall m | 1 <= m < rest.1 + 1
          ensures !found(Received(buf, chunks, m)) && chunks[m - 1] != ""
        {
          if m > 1 {
            ReceivedShift(buf, chunks, m - 1);
          }
        }
        if rest.0.Ok? {
          ReceivedShift(buf, chunks, rest.1);
        }
      }
    }
  }

  lemma ReceivedShift(buf: string, chunks: seq<string>, m: nat)
    requires m < |chunks|
    ensures Received(buf, chunks, m + 1) == Received(buf + chunks[0], chunks[1..], m)
  {
    assert chunks[..m + 1] == [chunks[0]] + chunks[1..][..m];
    assert ([chunks[0]] + chunks[1..][..m])[1..] == chunks[1..][..m];
  }

  // ---------------------------------------------------------------------
  // connect, command, _write
  // ---------------------------------------------------------------------

  predicate SameAccount(a: Conn, b: Conn) {
    a.user == b.user && a.password == b.password
  }

  /** `connect()`: open a socket, reset the counter, log in, and take the
      switch name from the header reply. */
  function Connect(c: Conn, io: Io): (r: Run)
    ensures Budget(r.io) <= Budget(io) && |r.io.opens| <= |io.opens|
    ensures r.result.Ok? ==> |r.io.opens| < |io.opens|
    ensures SameAccount(r.conn, c)
    ensures r.result.Ok? ==> r.conn.connected && r.conn.counter >= 2
    decreases Budget(io), 1
  {
    if |io.opens| == 0 then Run(c.(connected := false), io, Err(Stalled))
    else if !io.opens[0] then Run(c.(connected := false), io.(opens := io.opens[1..]), Err(OpenFailed))
    else
      var reset := c.(connected := true, counter := 0);
      var io1 := io.(opens := io.opens[1..]);
      var login := Command(reset, io1, LoginLine(c.user, c.password));
      if login.result.Err? then login
      else
        var hdr := Command(login.conn, login.io, HeaderTemplate);
        if hdr.result.Err? then hdr
        else
          var named := hdr.conn.(switchName := NameFromHeader(hdr.result.value, hdr.conn.switchName));
          Run(named, hdr.io, Ok(""))
  }

  /** `reconnect()`: drop the socket, then `connect()` again. */
  function Reconnect(c: Conn, io: Io): (r: Run)
    ensures Budget(r.io) <= Budget(io) && |r.io.opens| <= |io.opens|
    ensures r.result.Ok? ==> |r.io.opens| < |io.opens|
    ensures SameAccount(r.conn, c)
    ensures r.result.Ok? ==> r.conn.connected && r.conn.counter >= 2
    decreases Budget(io), 2
  {
    Connect(Disconnect(c), io)
  }

  /** `command()`: advance the counter, render the line, send it and read
      until the reply tagged with the new counter; the command fails unless
      that reply's status is COMPLD. The tag waited for is fixed before the
      line is written, so a reconnect during the send does not change it. */
  function Command(c: Conn, io: Io, template: string): (r: Run)
    ensures Budget(r.io) <= Budget(io) && |r.io.opens| <= |io.opens|
    ensures SameAccount(r.conn, c)
    ensures r.result.Ok? ==> r.conn.connected && (r.conn.counter == c.counter + 1 || r.conn.counter >= 2)
    ensures r.result.Ok? ==> Completes(r.result.value, c.counter + 1)
    decreases Budget(io), 5
  {
    var tag := c.counter + 1;
    Exchange(c.(counter := tag), io, Line(template, c.switchName, tag), tag)
  }

  /** Send a line, then wait for the reply tagged `tag`. */
  function Exchange(c: Conn, io: Io, line: string, tag: nat): (r: Run)
    ensures Budget(r.io) <= Budget(io) && |r.io.opens| <= |io.opens|
    ensures SameAccount(r.conn, c)
    ensures r.result.Ok? && |line| > 0 ==> r.conn.connected
    ensures r.result.Ok? ==> r.conn.counter == c.counter || r.conn.counter >= 2
    ensures r.result.Ok? ==> Completes(r.result.value, tag)
    decreases Budget(io), 4
  {
    var w := Write(c, io, line);
    if w.result.Err? then w
    else Await(w.conn, w.io, tag)
  }

  /** The status of the reply tagged `counter` in a buffer, if any. */
  function StatusOf(reply: string, counter: nat): Option<string>
  {
    match Tl1Reply.SearchReply(reply, counter, false)
    case None => None
    case Some((_, status)) => Some(status)
  }

  /** A reply buffer that completes a command: its reply for `counter`
      carries the status COMPLD. */
  predicate Completes(reply: string, counter: nat) {
    StatusOf(reply, counter) == Some(Completed)
  }

  /** The reading half of `command()`: `_read_until`, then the status
      check of the reply found. */
  function Await(c: Conn, io: Io, tag: nat): (r: Run)
    ensures r.conn == c && r.io.opens == io.opens && r.io.sends == io.sends && r.io.wire == io.wire
    ensures r.result.Ok? <==> ReadFrom("", io.chunks, Prompt(tag)).0.Ok? && Completes(ReadFrom("", io.chunks, Prompt(tag)).0.value, tag)
    ensures r.result.Ok? ==> r.result.value == ReadFrom("", io.chunks, Prompt(tag)).0.value
    ensures r.result.Err? && !r.result.error.DeviceStatus? ==> ReadFrom("", io.chunks, Prompt(tag)).0 == r.result
    ensures r.result.Err? && r.result.error.DeviceStatus? ==>
      r.result.error.status != Completed && StatusOf(r.result.error.reply, tag) == Some(r.result.error.status)
  {
    var (res, used) := ReadFrom("", io.chunks, Prompt(tag));
    var io2 := io.(chunks := io.chunks[used..]);
    match res
    case Err(f) => Run(c, io2, Err(f))
    case Ok(reply) =>
      var status := StatusOf(reply, tag).value;
      if status != Completed then Run(c, io2, Err(DeviceStatus(status, reply)))
      else Run(c, io2, Ok(reply))
  }

  /** `_write()`: send until nothing is left; a send that raises (or a
      closed socket) triggers one reconnect and one unguarded retry. */
  function Write(c: Conn, io: Io, s: string): (r: Run)
    ensures Budget(r.io) <= Budget(io) && |r.io.opens| <= |io.opens|
    ensures SameAccount(r.conn, c)
    ensures r.result.Ok? && |s| > 0 ==> r.conn.connected
    ensures r.result.Ok? ==> r.conn.counter == c.counter || r.conn.counter >= 2
    ensures |s| == 0 ==> r == Run(c, io, Ok(""))
    decreases Budget(io), 3
  {
    if |s| == 0 then Run(c, io, Ok(""))
    else if c.connected && |io.sends| > 0 && io.sends[0].Accepted? then
      var n := Min(io.sends[0].count, |s|);
      Write(c, io.(sends := io.sends[1..], wire := io.wire + s[..n]), s[n..])
    else if c.connected && |io.sends| == 0 then Run(c, io, Err(Stalled))
    else
      var io1 := if c.connected then io.(sends := io.sends[1..]) else io;
      var rc := Reconnect(c, io1);
      if rc.result.Err? then rc
      else if |rc.io.sends| == 0 then Run(rc.conn, rc.io, Err(Stalled))
      else if rc.io.sends[0].SendRaised? then Run(rc.conn, rc.io.(sends := rc.io.sends[1..]), Err(SendFailed))
      else
        var n := Min(rc.io.sends[0].count, |s|);
        Write(rc.conn, rc.io.(sends := rc.io.sends[1..], wire := rc.io.wire + s[..n]), s[n..])
  }

  /** A write that completes without reconnecting sends exactly its text,
      in order, and leaves the connection as it was. */
  lemma {:induction false} WriteStable(c: Conn, io: Io, s: string)
    requires Write(c, io, s).result.Ok? && |Write(c, io, s).io.opens| == |io.opens|
    ensures Write(c, io, s).conn == c && Write(c, io, s).io.wire == io.wire + s
    decreases |io.sends|
  {
    if |s| > 0 {
      if c.connected && |io.sends| > 0 && io.sends[0].Accepted? {
        var n := Min(io.sends[0].count, |s|);
        WriteStable(c, io.(sends := io.sends[1..], wire := io.wire + s[..n]), s[n..]);
        assert io.wire + s[..n] + s[n..] == io.wire + s;
      }
    }
  }

  /** A command that succeeds without reconnecting advances the counter by
      exactly one and sends the line rendered with the new value. */
  lemma CommandStable(c: Conn, io: Io, template: string)
    requires Command(c, io, template).result.Ok? && |Command(c, io, template).io.opens| == |io.opens|
    ensures Command(c, io, template).conn == c.(counter := c.counter + 1)
    ensures Command(c, io, template).io.wire == io.wire + Line(template, c.switchName, c.counter + 1)
  {
    var c' := c.(counter := c.counter + 1);
    var line := Line(template, c.switchName, c.counter + 1);
    CommandIsExchange(c, io, template);
    ExchangeStable(c', io, line, c.counter + 1);
  }

  lemma CommandIsExchange(c: Conn, io: Io, template: string)
    ensures Command(c, io, template)
      == Exchange(c.(counter := c.counter + 1), io, Line(template, c.switchName, c.counter + 1), c.counter + 1)
  {
  }

  lemma ExchangeStable(c: Conn, io: Io, line: string, tag: nat)
    requires Exchange(c, io, line, tag).result.Ok? && |Exchange(c, io, line, tag).io.opens| == |io.opens|
    ensures Exchange(c, io, line, tag).conn == c && Exchange(c, io, line, tag).io.wire == io.wire + line
  {
    WriteStable(c, io, line);
  }

  /** A connect that opens one socket and needs no reconnect of its own
      sends the login line tagged 1, then the header request tagged 2,
      leaves the counter at 2, and takes the switch name from the reply to
      the header request. */
  lemma ConnectStable(c: Conn, io: Io)
    requires Connect(c, io).result.Ok? && |Connect(c, io).io.opens| == |io.opens| - 1
    ensures Connect(c, io).conn.counter == 2
    ensures Connect(c, io).io.wire == io.wire + Line(LoginLine(c.user, c.password), c.switchName, 1)
                                              + Line(HeaderTemplate, c.switchName, 2)
    ensures var login := Command(c.(connected := true, counter := 0), io.(opens := io.opens[1..]),
                                 LoginLine(c.user, c.password));
      var header := Command(login.conn, login.io, HeaderTemplate);
      header.result.Ok? && Connect(c, io).conn.switchName == NameFromHeader(header.result.value, c.switchName)
  {
    var reset := c.(connected := true, counter := 0);
    var io1 := io.(opens := io.opens[1..]);
    var login := Command(reset, io1, LoginLine(c.user, c.password));
    CommandStable(reset, io1, LoginLine(c.user, c.password));
    CommandStable(login.conn, login.io, HeaderTemplate);
  }

  /** `disconnect()`: the socket is closed and dropped. */
  function Disconnect(c: Conn): (r: Conn)
    ensures !r.connected && r.counter == c.counter && r.switchName == c.switchName && SameAccount(r, c)
  {
    c.(connected := false)
  }


  /** A new connection object: counter 0 and the placeholder switch name,
      then `connect()` as its constructor does. */
  function Open(user: string, password: string, io: Io): (r: Run)
    ensures SameAccount(r.conn, Conn(user, password, 0, InitialSwitchName, false))
    ensures r.result.Ok? ==> r.conn.connected && r.conn.counter >= 2
  {
    Connect(Conn(user, password, 0, InitialSwitchName, false), io)
  }

  /** A send that raises part-way through a command reconnects, and the
      reconnect's fresh counter replaces the command's own: after a single
      clean reconnect the counter is 2, whatever it was, while the reply
      the command accepted is still the one tagged with its old counter. */
  lemma ReconnectMidCommand(c: Conn, io: Io, template: string)
    requires c.connected && |io.sends| > 0 && io.sends[0] == SendRaised
    requires Command(c, io, template).result.Ok? && |Command(c, io, template).io.opens| == |io.opens| - 1
    ensures Command(c, io, template).conn.counter == 2
    ensures Completes(Command(c, io, template).result.value, c.counter + 1)
  {
    var c' := c.(counter := c.counter + 1);
    var line := Line(template, c.switchName, c.counter + 1);
    CommandIsExchange(c, io, template);
    WriteReconnect(c', io, line);
  }

  /** The write half of the above: one clean reconnect, then a write that
      needs none, leaves the connection with the counter of a fresh login. */
  lemma WriteReconnect(c: Conn, io: Io, s: string)
    requires c.connected && |io.sends| > 0 && io.sends[0] == SendRaised && |s| > 0
    requires Write(c, io, s).result.Ok? && |Write(c, io, s).io.opens| == |io.opens| - 1
    ensures Write(c, io, s).conn.counter == 2
  {
    var io1 := io.(sends := io.sends[1..]);
    var rc := Connect(c.(connected := false), io1);
    var n := Min(rc.io.sends[0].count, |s|);
    var io2 := rc.io.(sends := rc.io.sends[1..], wire := rc.io.wire + s[..n]);
    ConnectStable(c.(connected := false), io1);
    WriteStable(rc.conn, io2, s[n..]);
  }

  /** The failure half of the single retry: a reconnect that fails ends
      the write with its own failure, and a retried send that raises again
      is not caught. */
  lemma WriteRetryFails(c: Conn, io: Io, s: string)
    requires c.connected && |io.sends| > 0 && io.sends[0] == SendRaised && |s| > 0
    ensures var rc := Reconnect(c, io.(sends := io.sends[1..]));
      (rc.result.Err? ==> Write(c, io, s) == rc) &&
      (rc.result.Ok? && |rc.io.sends| > 0 && rc.io.sends[0] == SendRaised ==> Write(c, io, s).result == Err(SendFailed))
  {
  }

  // ---------------------------------------------------------------------
  // PolatisL1Handler mapping commands
  // ---------------------------------------------------------------------

  /** `int(address.split('/')[-1])` */
  function PortNumber(address: string): Result<int, Fault>
  {
    match ParseInt(AfterLast(address, '/'))
    case Ok(n) => Ok(n)
    case Err(m) => Err(BadPort(m))
  }

  /** The two port numbers of a mapping request, lower first; the source
      address is converted first. */
  function Ordered(src: string, dst: string): (r: Result<(int, int), Fault>)
    ensures r.Ok? ==> r.value.0 <= r.value.1
    ensures r.Ok? <==> PortNumber(src).Ok? && PortNumber(dst).Ok?
    ensures r.Ok? ==> {r.value.0, r.value.1} == {PortNumber(src).value, PortNumber(dst).value}
  {
    var a :- PortNumber(src);
    var b :- PortNumber(dst);
    Ok((Min(a, b), Max(a, b)))
  }

  function PatchTemplate(lo: int, hi: int): string
  {
    "ENT-PATCH:{name}:" + IntToString(lo) + "," + IntToString(hi) + ":{counter}:;"
  }

  function UnpatchTemplate(port: int): string
  {
    "DLT-PATCH:{name}:" + IntToString(port) + ":{counter}:;"
  }

  /** `map_bidi`: one ENT-PATCH command with the lower port first. */
  function MapBidi(c: Conn, io: Io, src: string, dst: string): (r: Run)
    ensures Ordered(src, dst).Err? ==> r == Run(c, io, Err(Ordered(src, dst).error))
    ensures Ordered(src, dst).Ok? ==>
      r == Command(c, io, PatchTemplate(Ordered(src, dst).value.0, Ordered(src, dst).value.1))
  {
    match Ordered(src, dst)
    case Err(f) => Run(c, io, Err(f))
    case Ok((lo, hi)) => Command(c, io, PatchTemplate(lo, hi))
  }

  /** `map_clear_to`: one DLT-PATCH command naming only the lower port. */
  function MapClearTo(c: Conn, io: Io, src: string, dst: string): (r: Run)
    ensures Ordered(src, dst).Err? ==> r == Run(c, io, Err(Ordered(src, dst).error))
    ensures Ordered(src, dst).Ok? ==> r == Command(c, io, UnpatchTemplate(Ordered(src, dst).value.0))
  {
    match Ordered(src, dst)
    case Err(f) => Run(c, io, Err(f))
    case Ok((lo, _)) => Command(c, io, UnpatchTemplate(lo))
  }

  /** `map_clear` delegates to `map_clear_to`. */
  function MapClear(c: Conn, io: Io, src: string, dst: string): (r: Run)
    ensures r == MapClearTo(c, io, src, dst)
  {
    MapClearTo(c, io, src, dst)
  }

  /** The direction of a bidirectional mapping request does not matter: both
      orders send the same command. */
  lemma MapBidiSymmetric(c: Conn, io: Io, a: string, b: string)
    requires PortNumber(a).Ok? && PortNumber(b).Ok?
    ensures MapBidi(c, io, a, b) == MapBidi(c, io, b, a)
    ensures MapClearTo(c, io, a, b) == MapClearTo(c, io, b, a)
  {
    assert Ordered(a, b) == Ordered(b, a);
  }
}
