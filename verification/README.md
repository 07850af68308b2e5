# Polatis L1 driver, modelled in Dafny

This project models the core of the CloudShell L1 driver for Polatis optical
switches. CloudShell sends the driver XML command batches over TCP. The
driver answers each batch with a `Responses` envelope, and it drives the
switch over TL1, the line protocol of the switch.

The model covers these layers:

- **Server loop** (`l1_driver.py`). Received chunks are assembled into
  batches at the `</Commands>` marker (`framing.dfy`). Each command element
  is dispatched to a handler, and the envelope is computed from the
  per-command outcomes (`dispatch.dfy`). One connection is modelled end to
  end (`server.dfy`).
- **Resource tree** (`l1_driver_resource_info.py`). This covers the autoload
  resource, its attribute table and the shape of its XML rendering
  (`resource_info.dfy`).
- **Direct TL1 driver** (`polatis_l1_handler.py`). This covers the raw
  connection: login, the ctag counter and its `<counter>` substitution,
  reading up to the completion line, and reconnecting. It also covers the
  mapping commands built on it (`raw_connection.dfy`). The reply patterns
  are reproduced by hand-written matchers (`tl1_reply.dfy`).
- **Older TL1 handler** (`polatis/polatis_driver_handler.py`). This covers
  the ctag counter, the login, the five device queries, the resource
  description with its reply parsers, and the mapping commands
  (`driver_handler.dfy`, `handler_replies.dfy`, `handler_description.dfy`).
- **CLI-based driver** (`polatis/driver_commands.py` and its helpers). This
  covers the TL1 session of the CLI library and the session guards
  (`cli_session.dfy`), the system and autoload reply parsers
  (`device_replies.dfy`), the mapping actions and templates
  (`mapping.dfy`), and the driver itself: port mode, cached size,
  mappings, and the logical/physical port arithmetic (`driver_commands.dfy`,
  `driver_resources.dfy`).

`wrappers.dfy` holds `Option` and `Result`, and `text.dfy` holds the
string operations of Python 2 that the model needs.

Sockets, the CLI library's transport and the switch are parameters: a
script of peer behaviour, or a function from the command sent to the
output or exception it produces. Every step records the commands it sent,
in order. Exceptions are modelled by their messages.

## Model

| member | source | states |
|---|---|---|
| Framing.Feed | l1_driver.py:34-56 | a timeout leaves the buffer as it was; any other receive error ends the loop with nothing dispatched; data completes a batch exactly when buffer plus data contains `</Commands>`, and that batch is dispatched whole with the buffer cleared; otherwise the data is appended; the loop ends exactly when the data is empty |
| Framing.Loop | l1_driver.py:34-56 | the loop reads at most the events it is given and stops only after reading one; every batch it dispatches contains the marker |
| Framing.LoopConservesData | l1_driver.py:33-52 | no byte is lost or invented: the batches dispatched followed by the buffer equal the starting buffer followed by the data of every event read |
| Framing.LoopBufferHasNoMarker | l1_driver.py:46-52 | the buffer kept between reads never holds a complete marker while the loop runs |
| Framing.SplitBatchAssembledOnce | l1_driver.py:36-52 | a batch whose only marker ends its third chunk is dispatched exactly once, whole, after the third read |
| Server.Serve | l1_driver.py:30-56 | one reply is sent per batch handed to the dispatcher, except for the batch whose decoding or dispatch raised, which ends the connection thread; every batch holds the marker |
| Server.ServeFramesLikeLoop | l1_driver.py:46-52 | dispatching never changes framing: while nothing raises, the connection dispatches exactly the batches the bare receive loop assembles and keeps the same buffer; after a failure it has dispatched a prefix of them |
| Server.TimeoutsKeepConnectionIdle | l1_driver.py:35-38 | a connection that only times out stays open, sends nothing and leaves the handler untouched |
| Dispatch.FindFirst | l1_driver.py:94 | `p.find(tag)` succeeds exactly when some child has the tag, and yields the text of the first such child in document order (`None` for an empty element) |
| Dispatch.FindAt | l1_driver.py:94 | when child `k` is the first with the tag, `find` returns child `k`'s text, whatever later children hold |
| Dispatch.FindNone | l1_driver.py:94 | `find` returns nothing when no child has the tag |
| Dispatch.Arg | l1_driver.py:87-96 | a command without `Parameters` fails on its first parameter read; otherwise a read fails with that tag exactly when no child has it, and a successful read is the first matching child's text |
| Dispatch.BuildCall | l1_driver.py:92-172 | `Logout` and `GetStateId` need no parameters; an unimplemented-command failure names the command |
| Dispatch.BuildCallArguments | l1_driver.py:92-169 | with its parameters present, each of the nine parameter-reading names other than MapClear builds its own handler call, with the first child of each tag as argument in the handler's order: Login (Address, User, Password), MapBidi (MapPort_A, MapPort_B, MappingGroupName), MapUni and MapClearTo (SrcPort, DstPort), GetAttributeValue (Address, Attribute) and so on |
| Dispatch.BuildCallFailsOnFirstMissing | l1_driver.py:92-169 | for every recognised name except MapClear, building the call succeeds exactly when every tag the name reads is present; otherwise it fails naming the first missing tag in the order the source reads them |
| Dispatch.UnknownNameIsUnimplemented | l1_driver.py:171-172 | a name outside the eleven recognised ones, and only such a name, fails as unimplemented whatever its parameters |
| Dispatch.FindAllAppend | l1_driver.py:150-151 | `findall` over concatenated children is the matches of each part in turn, so its results keep document order |
| Dispatch.FindAllNone | l1_driver.py:150-151 | `findall` finds nothing when no child has the tag |
| Dispatch.FindAllAt | l1_driver.py:150-151 | when child `i` is the first with the tag, `findall` starts with child `i`'s text and continues with the matches after it |
| Dispatch.MapClearTakesFirstTwoPorts | l1_driver.py:148-152 | when children `i < j` are the first two `MapPort` children, `MapClear` is called with child `i`'s text and then child `j`'s |
| Dispatch.MapClearTooFewPorts | l1_driver.py:150-151 | with at most one `MapPort` child, `MapClear` fails with the index error |
| Dispatch.EmptyAttributeFails | l1_driver.py:124-131 | with an empty `Attribute` element, `GetAttributeValue` calls the handler with `None`, keeps its state change, and fails with Python 2's `str + None` TypeError |
| Dispatch.NoParametersFails | l1_driver.py:87-169 | without a `Parameters` child every recognised command except Logout and GetStateId fails on its first lookup in `p`: `findall` for MapClear, `find` for the others |
| Dispatch.Handle | l1_driver.py:88-192 | the response echoes the id and name; it succeeds exactly when no failure is recorded, and a failed one has no payload; an unknown name fails without calling the handler |
| Dispatch.HandleContained | l1_driver.py:88-192 | a parameter that cannot be read fails the command with the handler state untouched; a handler exception becomes a failed response whose error is its message; a returned value succeeds with the payload the command asks for: the state id for `GetStateId`, nothing for the commands that only act, and a non-resource description fails |
| Dispatch.HandleErrorText | l1_driver.py:91-182 | the `Error` text of a failed command: `Unimplemented command <name>` for an unknown name; the `AttributeError` on `find`, or `findall` for MapClear, on a `NoneType` when `Parameters` is missing; on `text` when a child is missing; `list index out of range` with fewer than two `MapPort` children; the handler's own message when it raises; and the `AttributeError` on `to_string` naming `NoneType` or `str` when a resource description returns no resource |
| Dispatch.ProcessCommand | l1_driver.py:84-86 | a missing `CommandId` aborts with that name first, then a missing `CommandName`; with both present the command is handled |
| Dispatch.Responses | l1_driver.py:67-72 | the batch produces responses exactly when every element has both attributes, one per element, in document order, echoing each element's id and name |
| Dispatch.ProcessCommands | l1_driver.py:62-81 | the envelope's `Success` is the conjunction of the per-command flags; the error code is `<ErrorCode>1</ErrorCode>` exactly when some command failed, and `<ErrorCode />` exactly when all succeeded |
| Dispatch.ResponsesAppend | l1_driver.py:67-72 | processing a batch in two halves, the second from the handler state the first left, gives the same state and responses as processing it at once |
| Dispatch.UnknownCommandIsContained | l1_driver.py:171-183 | an unknown command anywhere in a batch adds only its own failed response; the responses around it and the final handler state are those of the batch without it |
| Dispatch.MissingAttributeAbortsBatch | l1_driver.py:85-86 | an element lacking either attribute aborts the whole batch, wherever it sits |
| Dispatch.GetStateIdScenario | l1_driver.py:110-114 | a lone `GetStateId` whose handler returns "-1" gives a successful `StateId` payload of "-1" and the empty error code |
| ResourceInfo.NewResource | l1_driver_resource_info.py:10-26 | a new resource keeps its four identifying fields, has serial "-1", no mapping, no children and no attributes |
| ResourceInfo.NewResourceWith | l1_driver_resource_info.py:10-26 | the mapping path and serial given are stored as they are |
| ResourceInfo.AddSubresource | l1_driver_resource_info.py:30-35 | the child is appended after the existing children, which keep their positions; nothing else changes |
| ResourceInfo.SetAttribute | l1_driver_resource_info.py:37-44 | the attribute names grow by exactly the name set; children, mapping and serial are unchanged |
| ResourceInfo.GetAttribute | l1_driver_resource_info.py:46-51 | a lookup succeeds exactly when the name has been set, and raises otherwise |
| ResourceInfo.GetAfterSet | l1_driver_resource_info.py:37-51 | reading a name back gives the value last set for it; setting one name leaves every other lookup as it was |
| ResourceInfo.FreshResourceHasNoAttributes | l1_driver_resource_info.py:26 | every lookup on a fresh resource raises |
| ResourceInfo.Render | l1_driver_resource_info.py:53-91 | the rendering is at the given indentation, with one rendered child per child and one rendered attribute per stored name; the mapping element appears exactly when the map path is truthy |
| ResourceInfo.RenderKeepsShape | l1_driver_resource_info.py:58-75 | the resource at any child path is rendered at the same path, with a `tabs` argument four spaces longer per level |
| ResourceInfo.RenderAttribute | l1_driver_resource_info.py:76-86 | each stored attribute is rendered with its type name and its value as `str()` prints it |
| ResourceInfo.RenderSetAttribute | l1_driver_resource_info.py:37-44 | an attribute set with the default type renders as ("String", str(value)) |
| RawConnection.Open | polatis_l1_handler.py:14-23 | a new connection keeps the account it was given; when its constructor's connect succeeds it is connected with the counter of a fresh login |
| RawConnection.NameFromHeader | polatis_l1_handler.py:37-46 | a header reply holding `( nil )` blanks the switch name; otherwise the first run of non-whitespace becomes the name, and a reply of only whitespace keeps the current name |
| RawConnection.Connect | polatis_l1_handler.py:28-48 | a successful connect consumes a socket, is connected and leaves the counter at 2 or more; the account never changes and no scripted call is invented |
| RawConnection.ConnectStable | polatis_l1_handler.py:32-46 | a connect that needs no reconnect of its own resets the counter, sends the login line tagged 1 and the header request tagged 2, ends with the counter at 2, and takes the switch name from the reply to the header request |
| RawConnection.ReadFrom | polatis_l1_handler.py:61-72 | the read consumes at most the chunks it has; a returned buffer satisfies the termination pattern; it fails only by the stream ending or by blocking |
| RawConnection.ReadFromSpec | polatis_l1_handler.py:61-72 | the buffer returned is the concatenation of the chunks up to the first one after which the pattern matches; no earlier chunk was empty or completed the read; it raises at the first empty chunk before a match |
| RawConnection.Await | polatis_l1_handler.py:80-86 | the command succeeds exactly when the read completes and the reply tagged with the counter reports COMPLD, returning the whole buffer; a read failure propagates; any other status raises with that status |
| RawConnection.Command | polatis_l1_handler.py:74-86 | a successful command returns a buffer whose reply for the advanced counter is COMPLD, and the connection is connected afterwards |
| RawConnection.CommandStable | polatis_l1_handler.py:74-80 | a command that succeeds without reconnecting advances the counter by exactly one and sends the template with `{name}` and `{counter}` replaced and a newline, nothing else |
| RawConnection.Exchange | polatis_l1_handler.py:80-86 | a successful exchange completes the tag it waited for; the counter is kept unless a reconnect reset it to a fresh login's |
| RawConnection.ExchangeStable | polatis_l1_handler.py:80-81 | without a reconnect the line sent is exactly the one given and the connection is unchanged |
| RawConnection.Write | polatis_l1_handler.py:50-59 | writing nothing does nothing; a successful write of text leaves the socket connected and the counter either kept or reset by a reconnect |
| RawConnection.WriteStable | polatis_l1_handler.py:50-59 | a write that needs no reconnect puts exactly its text on the wire, in order, whatever the sizes of the partial sends |
| RawConnection.WriteRetryFails | polatis_l1_handler.py:54-57 | after a send raises, a reconnect that fails ends the write with its failure, and a retried send that raises again is not caught |
| RawConnection.WriteReconnect | polatis_l1_handler.py:54-57 | a send that raises makes the write reconnect, and after that reconnect the counter is that of a fresh login |
| RawConnection.ReconnectMidCommand | polatis_l1_handler.py:54-81 | a reconnect during a command's send resets the counter to 2, yet the reply awaited and accepted is still the one tagged with the counter computed before the send |
| RawConnection.Disconnect | polatis_l1_handler.py:88-95 | the socket is dropped and nothing else about the connection changes |
| RawConnection.Ordered | polatis_l1_handler.py:257-258 | both port numbers must parse; the pair returned is the two numbers, lower first |
| RawConnection.MapBidi | polatis_l1_handler.py:257-259 | an unparsable port raises before anything is sent; otherwise one ENT-PATCH command names the lower port, then the higher |
| RawConnection.MapClearTo | polatis_l1_handler.py:261-271 | an unparsable port raises before anything is sent; otherwise one DLT-PATCH command names only the lower port |
| RawConnection.MapClear | polatis_l1_handler.py:274-281 | `map_clear` does exactly what `map_clear_to` does for the same two ports |
| RawConnection.MapBidiSymmetric | polatis_l1_handler.py:257-271 | swapping source and destination changes neither the command sent nor its outcome, for mapping and for clearing |
| Tl1Reply.ReplyAt | polatis_l1_handler.py:78 | a status captured by the completion pattern is non-empty and made of the status group's characters only |
| Tl1Reply.ReplyIsTagged | polatis_l1_handler.py:78 | the pattern matches only at a reply whose tag is exactly the counter: whitespace must end the digits, so tag 1 never matches a reply tagged 12 |
| Tl1Reply.SearchReply | polatis_l1_handler.py:82-83 | the search finds the leftmost position where the pattern matches, with the status captured there, and fails exactly when it matches nowhere |
| Tl1Reply.OtherTagsNeverComplete | polatis_l1_handler.py:68-78 | a buffer in which no reply carries the counter's tag never completes the read, however many well-formed replies for other tags it holds |
| Tl1Reply.CanonicalReply | polatis/cli/l1_cli_handler.py:45-52 | a reply line `M <counter> <status>` closed by `;`, after text free of 'M', is found with exactly its status |
| Tl1Reply.ReplyLineMatches | polatis_l1_handler.py:78 | the canonical reply line matches where it starts, capturing its status |
| Tl1Reply.FirstWord | polatis_l1_handler.py:41-43 | the first word is absent exactly when the text is all whitespace, and is otherwise a non-empty run without whitespace |
| Tl1Reply.FirstWordOf | polatis_l1_handler.py:41-43 | after leading whitespace the first word is the run that the next whitespace ends |
| Tl1Reply.HeaderAt | polatis/cli/l1_cli_handler.py:28 | a group found at a position starts a line, lies within that line, and is followed by whitespace, digits and a dash |
| Tl1Reply.HeaderGroup | polatis/cli/l1_cli_handler.py:28-29 | the header pattern fails exactly when it matches at no line start; otherwise the group is the one matched at the first line start where the pattern matches |
| Tl1Reply.HeaderGroupOf | polatis/cli/l1_cli_handler.py:28-30 | a line `group digits-rest` after lines where the pattern matches nowhere yields `group`, when the group stays on its line and nothing after the dash has the shape whitespace, digits, dash |
| Tl1Reply.SpacedToken | polatis/polatis_driver_handler.py:41-43 | the token search fails exactly when no position holds a space-delimited alphanumeric token; otherwise it returns the token at the leftmost such position |
| Tl1Reply.SpacedTokenOf | polatis/polatis_driver_handler.py:41-43 | after a prefix that holds no space-delimited token, the token between the next two spaces is the one returned |
| Tl1Reply.NoTokenInPrefix | polatis/polatis_driver_handler.py:41-43 | a prefix made only of whitespace, or holding no space at all, holds no space-delimited token, whatever follows it |
| CliSession.HardwareExpect | polatis/cli/l1_cli_handler.py:39-55 | the counter advances whatever the outcome; `<counter>` and then `<name>` are substituted; the call returns the output exactly when the reply tagged with the new counter reports COMPLD, raises with the status otherwise, and raises when no such reply exists |
| CliSession.StaleReplyRejected | polatis/cli/l1_cli_handler.py:45-52 | output whose replies all carry other tags always raises, whatever their status |
| CliSession.TaggedReplyDecides | polatis/cli/l1_cli_handler.py:51-55 | a reply line tagged with the call's counter decides the outcome by its status alone: COMPLD returns the output, anything else raises with that status |
| CliSession.NameSubstitutedLast | polatis/cli/l1_cli_handler.py:43-44 | a switch name that itself reads `<counter>` reaches the device verbatim, because the counter is substituted first |
| CliSession.NameFromLogin | polatis/cli/l1_cli_handler.py:24-34 | `( nil )` anywhere gives the blank name; otherwise the stripped header group, and the blank name when the pattern is not found |
| CliSession.NameFromHeaderLine | polatis/cli/l1_cli_handler.py:28-30 | a login output whose first header-matching line is `indent name digits-...` names the switch `name`, the indentation stripped |
| CliSession.LoginStep | polatis/cli/l1_cli_handler.py:21-34 | the login command is sent with the new counter; on COMPLD the switch is named from the output, otherwise only the counter moved |
| CliSession.Activate | polatis/cli/l1_cli_handler.py:35-37 | after a successful login the start hook runs, if any, and only then is the session marked active; a failed login leaves the session inactive |
| CliSession.ConnectAccepted | polatis/cli/l1_cli_handler.py:20-37 | the connect actions succeed exactly when the login reply for the new counter reports COMPLD, and the session is active exactly then |
| CliSession.ConnectSession | polatis/cli/l1_cli_handler.py:20-37 | a successful connect leaves the named session, passed through the hook, active; a failed one has only advanced the counter |
| CliSession.DefineSessionAttributes | polatis/cli/l1_cli_handler.py:96-101 | an address containing ':' is refused; any other is stored with the user name and password as given |
| CliSession.NewSessions | polatis/cli/l1_cli_handler.py:75-84 | the candidate list exists exactly when every configured type is in the table and, unless there are none, ports are configured; it then has one candidate per type, in order, with the stored attributes and the type's configured port; without configured ports the first defined type raises; otherwise the error names the first unknown type |
| CliSession.SessionTypes | polatis/cli/l1_cli_handler.py:68 | a configured list is used as it is; without one the result is the table's keys in the dictionary's key order, so every kind of the table is tried exactly once |
| CliSession.GetCliService | polatis/cli/l1_cli_handler.py:109-112 | nothing is attempted unless host, user name and password are all set and non-empty; then the candidates are those of the configured types |
| CliSession.DefinedAttributesServe | polatis/cli/l1_cli_handler.py:96-112 | attributes accepted by the address check, all non-empty, yield under the default type list one candidate per known kind, in the key order, each with the stored host, when ports are configured, and raise at the first candidate when they are not |
| CliSession.CandidatesFor | polatis/cli/l1_cli_handler.py:75-84 | types all taken from the table, with ports configured, give one candidate each, in order, each carrying the stored host and the type's port |
| DriverHandler.Classify | polatis/polatis_driver_handler.py:30-46 | a mode that is neither scpi nor tl1 is kept for the error message |
| DriverHandler.ClassifyIgnoresCase | polatis/polatis_driver_handler.py:30-32 | the mode is compared after lower-casing, so `TL1`, `Tl1` and `tl1` all select tl1 |
| DriverHandler.IncrCtag | polatis/polatis_driver_handler.py:23-25 | the counter is advanced first and the new value is the one used |
| DriverHandler.FieldsOf | polatis/polatis_driver_handler.py:33-77 | splitting a formatted command at its colons gives back the verb, the switch name, the access identifier and the tag, as long as those hold no colon |
| DriverHandler.TagOf | polatis/polatis_driver_handler.py:37-77 | such a command reads back the number in its tag slot as its correlation tag |
| DriverHandler.Login | polatis/polatis_driver_handler.py:27-46 | the session's connect comes first in every mode and its failure ends the login with nothing sent; after it, scpi sends nothing, an unsupported mode raises before sending, and in tl1 a failed `ACT-USER` ends the login after that one command; service and mapping never change |
| DriverHandler.LoginTl1 | polatis/polatis_driver_handler.py:33-43 | a tl1 login sends the user with the literal tag 1, then the header query with the advanced ctag; the switch name becomes the header's first space-delimited token, and stays as it was when there is none |
| DriverHandler.UserTag | polatis/polatis_driver_handler.py:33 | the user command is tagged 1 whatever the counter holds |
| DriverHandler.LoginNamesSwitch | polatis/polatis_driver_handler.py:37-43 | a header reply with ` NAME ` after a prefix holding no space-delimited token names the switch NAME |
| DriverHandler.LoginKeepsPlain | polatis/polatis_driver_handler.py:41-43 | a login never puts a colon into the switch name, so later commands still split back into their fields |
| DriverHandler.SendEach | polatis/polatis_driver_handler.py:54-78 | the commands sent are a prefix of those given; a success sent all of them and has one reply each; a failure sent at least one |
| DriverHandler.SendEachReplies | polatis/polatis_driver_handler.py:54-78 | a success holds each command's reply at its position; a failure is the last command's, every earlier one having been answered |
| DriverHandler.SendEachOk | polatis/polatis_driver_handler.py:54-78 | the run succeeds exactly when every command is answered |
| DriverHandler.SendEachAppend | polatis/polatis_driver_handler.py:54-78 | sending two lists one after the other is sending the second only if every command of the first was answered |
| DriverHandler.Round | polatis/polatis_driver_handler.py:54-78 | a device-data round is five queries |
| DriverHandler.GetDeviceData | polatis/polatis_driver_handler.py:48-83 | the ctag advances by exactly the number of commands sent; scpi collects nothing; an unsupported mode raises before sending anything |
| DriverHandler.FirstTwo | polatis/polatis_driver_handler.py:54-60 | the round starts with `NETYPE` and the size query on the next two ctags, and the size is the one the second reply reports |
| DriverHandler.ReportedSizeIs | polatis/polatis_driver_handler.py:57-60 | the size used is the one found in the answer to the size query |
| DriverHandler.DeviceDataRound | polatis/polatis_driver_handler.py:54-78 | unless the size is missing, a tl1 round sends the five queries in order up to the first failure, with the shutter query covering both sides together, and succeeds exactly when all five are answered |
| DriverHandler.DeviceDataReplies | polatis/polatis_driver_handler.py:54-78 | a successful tl1 round sent the five queries and keeps each one's reply under its own key |
| DriverHandler.DeviceDataNoSize | polatis/polatis_driver_handler.py:60-68 | a size reply without `SYSTEM:SIZE=<n>x<m>` raises after exactly the first two queries, with the ctag advanced by two |
| DriverHandler.DeviceDataPrefix | polatis/polatis_driver_handler.py:54-78 | whatever happens, a tl1 round sends a prefix of the five queries |
| DriverHandler.RoundTagged | polatis/polatis_driver_handler.py:54-77 | with a colon-free switch name the round's queries split back into their fields and carry the five ctags after the current one, in order |
| DriverHandler.CommandTags | polatis/polatis_driver_handler.py:54-77 | commands with consecutive tags read back exactly those tags |
| DriverHandler.DeviceDataTagged | polatis/polatis_driver_handler.py:54-77 | every command a tl1 round sends carries the ctag after the previous one |
| DriverHandler.PortNumber | polatis/polatis_driver_handler.py:178 | a port argument with fewer than two elements raises an index error; otherwise the number is its second element as `int()` parses it |
| DriverHandler.Ports | polatis/polatis_driver_handler.py:178-179 | both numbers must parse, the source's failure winning; the pair is the two numbers, lower first |
| DriverHandler.MapCommand | polatis/polatis_driver_handler.py:173-210 | outside tl1 mode nothing happens; a port that does not parse raises before the ctag moves; otherwise exactly one command is sent, the ctag advances by one, and the send's failure is the result |
| DriverHandler.MapBidiCommand | polatis/polatis_driver_handler.py:178-183 | the patch names the two ports lower first, whichever side each came from, and carries the advanced ctag as its tag |
| DriverHandler.MapSymmetric | polatis/polatis_driver_handler.py:178-192 | swapping the two ports sends the same command, when both parse |
| DriverHandler.MapClearIsClearTo | polatis/polatis_driver_handler.py:186-210 | `map_clear` does exactly what `map_clear_to` does: one `DLT-PATCH` with the lower and the higher port |
| DriverHandler.ClearTagIsHighPort | polatis/polatis_driver_handler.py:194-195 | the disconnect command advances the ctag, but its third slot holds the higher port, so the tag it reads back is that port, not the ctag |
| DriverHandler.ClearTagMismatch | polatis/polatis_driver_handler.py:194-195 | with ctag 1 and ports 3 and 7 the disconnect goes out tagged 7 while the handler moves to ctag 2 |
| HandlerReplies.SearchModelInfo | polatis/polatis_driver_handler.py:97-98 | the model search fails exactly when the pattern matches at no position; otherwise it returns the fields of the match at the leftmost position where it matches, the version a non-empty run without whitespace |
| HandlerReplies.ShapeMatch | polatis/polatis_driver_handler.py:97-98 | a report whose first line is a quote, three commas and a whitespace-free version is matched at its start with the fields between the commas |
| HandlerReplies.ModelInfoOf | polatis/polatis_driver_handler.py:97-110 | a report `"vendor,model,type,version` followed by a new line gives those four fields |
| HandlerReplies.VersionKeepsQuote | polatis/polatis_driver_handler.py:97 | in the switch's own report the version keeps its closing quote |
| HandlerReplies.NoCommaNoModel | polatis/polatis_driver_handler.py:97-114 | a reply without commas names no model |
| HandlerReplies.SearchSerial | polatis/polatis_driver_handler.py:116 | the serial search fails exactly when `SN=` occurs nowhere; otherwise the serial is the digit run after the first `SN=` |
| HandlerReplies.SerialOf | polatis/polatis_driver_handler.py:116-120 | the digits after the first `SN=` are the serial, even when there are none; the text before it may hold anything except `SN=` |
| HandlerReplies.SerialOfInventoryLine | polatis/polatis_driver_handler.py:116-120 | an inventory line `   "OCS:SN=<digits>` followed by a non-digit reads back as those digits |
| HandlerReplies.NoSerialKey | polatis/polatis_driver_handler.py:116-122 | a reply without `SN=` has no serial |
| HandlerReplies.LinePair | polatis/polatis_driver_handler.py:130 | a patch line yields a pair exactly when the pattern matches at some position; the pair is the one matched at the leftmost such position, and both ports are non-empty |
| HandlerReplies.LinePairOf | polatis/polatis_driver_handler.py:130-136 | a line `a,b` connects `a` and `b` |
| HandlerReplies.LineShutter | polatis/polatis_driver_handler.py:144 | a port line yields a state exactly when the pattern matches at some position; the result is the one matched at the leftmost such position |
| HandlerReplies.Connect | polatis/polatis_driver_handler.py:137-138 | a pair is recorded both ways, the destination written last; no other entry changes |
| HandlerReplies.AddPairsKeys | polatis/polatis_driver_handler.py:129-138 | the mapping keeps every port it knew and gains exactly the ports the patch lines name: it is never cleared |
| HandlerReplies.AddPairsKeep | polatis/polatis_driver_handler.py:129-138 | lines that do not name a port leave its entry alone |
| HandlerReplies.AddPairsLast | polatis/polatis_driver_handler.py:129-138 | a port holds the partner from the last line that names it |
| HandlerReplies.StaleEntry | polatis/polatis_driver_handler.py:129-138 | re-patching port a from b to c leaves b pointing at a: the stale entry stays |
| HandlerReplies.LineShutterOf | polatis/polatis_driver_handler.py:144 | a line `id:OPEN` or `id:CLOSED` reports that port and state |
| HandlerReplies.ShuttersAppend | polatis/polatis_driver_handler.py:141-147 | lines are read independently: the ports of a concatenation are the ports of each part |
| HandlerReplies.ShuttersEveryLine | polatis/polatis_driver_handler.py:141-147 | where every line matches there is one port per line, in order |
| HandlerReplies.ShuttersNoLine | polatis/polatis_driver_handler.py:141-147 | lines that match nothing report no ports |
| HandlerReplies.Ports | polatis/polatis_driver_handler.py:143-166 | one port per shutter line that matches, in order, each with the chassis model name, enabled exactly when the shutter is open, and mapped exactly when the mapping knows its id, to the address prefix and the partner |
| HandlerDescription.Describe | polatis/polatis_driver_handler.py:96-166 | the model report and then the serial must parse, and a failure of either leaves the handler as it was; on success the mapping gains exactly the ports the patch list names, and there is one port per shutter line that matches, agreeing with the mapping |
| HandlerDescription.GetResourceDescription | polatis/polatis_driver_handler.py:85-171 | the queries' commands and failures come first; scpi describes the address alone; an unsupported mode raises before sending; the mapping is only ever extended |
| HandlerDescription.DescriptionPorts | polatis/polatis_driver_handler.py:143-166 | a successful tl1 description has a chassis and ports that agree with the handler's mapping after the call |
| HandlerDescription.DescriptionParseErrors | polatis/polatis_driver_handler.py:102-122 | after the queries, an unparsable model report or serial fails with its own message and leaves the mapping as it was |
| DeviceReplies.SearchSize | polatis/command_actions/system_actions.py:30 | the size search fails exactly when the pattern matches nowhere, and otherwise returns the values of the leftmost match |
| DeviceReplies.DeviceSize | polatis/command_actions/system_actions.py:29-36 | the size is found exactly when the size pattern matches, and is then the two numbers of the first match; otherwise the error quotes the whole output |
| DeviceReplies.DeviceSizeOfReport | polatis/command_actions/system_actions.py:30-34 | a `SYSTEM:SIZE=<n>x<m>` report reads back as n and m, whatever text without `SYSTEM:SIZE=` precedes it |
| DeviceReplies.SizeAtReport | polatis/command_actions/system_actions.py:30 | the size pattern matches at the key of a report and takes both digit runs whole |
| DeviceReplies.SwitchSerial | polatis/command_actions/autoload_actions.py:25-36 | the serial is "-1" exactly when no `SN=` is followed by a word character, and otherwise the word after the first one that is |
| DeviceReplies.SwitchSerialOf | polatis/command_actions/autoload_actions.py:28-31 | the first `SN=` field names the serial, up to the first character that is not a word character, whatever text without `SN=` precedes it |
| DeviceReplies.DetailsDict | polatis/command_actions/autoload_actions.py:47-50 | the dictionary has exactly the four keys, each holding its field |
| DeviceReplies.SwitchDetails | polatis/command_actions/autoload_actions.py:38-52 | the details are absent exactly when neither the quoted nor the unquoted pattern matches; otherwise they hold exactly the four keys, taken from the quoted pattern's first match when there is one and from the unquoted pattern's first match otherwise |
| DeviceReplies.FirstDetails | polatis/command_actions/autoload_actions.py:42-44 | the search fails exactly when no position matches, and otherwise returns the leftmost match |
| DeviceReplies.NoCommaNoDetails | polatis/command_actions/autoload_actions.py:42-52 | a reply without commas yields no details |
| DeviceReplies.UnquotedFallback | polatis/command_actions/autoload_actions.py:43-44 | where no quote occurs, the unquoted pattern decides |
| DeviceReplies.SwitchDetailsOfReport | polatis/command_actions/autoload_actions.py:42-50 | a report whose first quote opens a one-line quoted span reads back as that span's fields, split at its last three commas |
| DeviceReplies.Collect | polatis/command_actions/autoload_actions.py:80-81 | storing entries into a dictionary gives exactly the keys the entries name |
| DeviceReplies.CollectLast | polatis/command_actions/autoload_actions.py:80-81 | a key holds the value of the last entry that names it |
| DeviceReplies.BothWays | polatis/command_actions/autoload_actions.py:59-60 | each pair becomes two entries, the pair itself and then its reverse |
| DeviceReplies.Connections | polatis/command_actions/autoload_actions.py:57-60 | the physical table holds exactly the ports some pair names |
| DeviceReplies.ConnectionsLast | polatis/command_actions/autoload_actions.py:57-60 | a port is in the connection table when a pair names it, paired with its partner in the last pair that names it |
| DeviceReplies.DisjointPairsSymmetric | polatis/command_actions/autoload_actions.py:57-60 | when no port appears in two pairs, every port is paired back with the port it is paired with |
| DeviceReplies.Shifted | polatis/command_actions/autoload_actions.py:62-68 | the logical ports are exactly those whose physical port, the logical count above, has a partner |
| DeviceReplies.LogicalTable | polatis/command_actions/autoload_actions.py:62-70 | the logical table has an entry exactly for those logical ports, each with its partner |
| DeviceReplies.Remap | polatis/command_actions/autoload_actions.py:62-70 | the loop keeps every entry it started from and adds only logical ports from 1 up whose physical port, the logical count above, appears in the table |
| DeviceReplies.GetConnections | polatis/command_actions/autoload_actions.py:54-72 | the physical table outside logical mode; in logical mode, for a symmetric physical table, the logical table, whatever the iteration order |
| DeviceReplies.RemapIsLogicalTable | polatis/command_actions/autoload_actions.py:62-72 | for a symmetric table the remapping loop gives the logical table whatever order the dictionary yields its keys in |
| DeviceReplies.RemapSound | polatis/command_actions/autoload_actions.py:64-68 | every entry the loop writes agrees with the logical table |
| DeviceReplies.RemapCovers | polatis/command_actions/autoload_actions.py:64-68 | every key above the logical count that the loop visits ends up in the result, shifted down |
| DeviceReplies.PortAt | polatis/command_actions/autoload_actions.py:80 | the port group is a digit run ended by a colon |
| DeviceReplies.PortValues | polatis/command_actions/autoload_actions.py:74-94 | a failed query gives an empty dictionary instead of raising, because the `finally` returns what was collected; a successful one stores every entry found, a later entry for a port replacing an earlier one |
| DeviceReplies.PortWavelengths | polatis/command_actions/autoload_actions.py:96-105 | likewise for wavelengths: an empty dictionary on a failed query, and otherwise every entry found, the lazy token ended by the first comma |
| DeviceReplies.ValueAtEntry | polatis/command_actions/autoload_actions.py:80 | an entry `"<digits>:<token>"` matches with the port's value and the token |
| DeviceReplies.WaveAtEntry | polatis/command_actions/autoload_actions.py:102 | a wavelength entry matches with the token up to its first comma and runs to the line's last quote |
| DeviceReplies.PortValuesOfEntry | polatis/command_actions/autoload_actions.py:78-83 | a reply holding one entry gives that port its value and nothing else |
| DeviceReplies.PortValuesOfListing | polatis/command_actions/autoload_actions.py:74-94 | a reply of entries `"p:v"` separated by whitespace, in quote-free text, maps exactly the listed ports, each to the value of its last entry |
| DeviceReplies.PortWavelengthsOfListing | polatis/command_actions/autoload_actions.py:96-105 | a reply of entries `"p:w,..."`, one per line, in quote-free text, maps exactly the listed ports, each to the text before the first comma of its last entry |
| Mapping.MapUni | polatis/command_actions/mapping_actions.py:20-29 | one command is handed to the CLI service and its output or failure is the result |
| Mapping.MapClearTo | polatis/command_actions/mapping_actions.py:31-39 | one command is handed to the CLI service and its output or failure is the result |
| Mapping.JoinPorts | polatis/command_actions/mapping_actions.py:47 | the join raises exactly when some element is not a string |
| Mapping.MapClear | polatis/command_actions/mapping_actions.py:41-51 | nothing is sent exactly when the join raises, and its error is then the result; otherwise one command is sent and its outcome is the result |
| Mapping.Operands | polatis/command_templates/mapping.py:19-20 | the operands found lie exactly between the command's head and its tail |
| Mapping.ParseAllSpellings | polatis/command_templates/mapping.py:20 | the decimal spellings of numbers parse back to the same numbers |
| Mapping.MapUniOperandOrder | polatis/command_templates/mapping.py:19 | `map_uni(src, dst)` writes the destination first: read back, the patch command's first port is dst and its second src |
| Mapping.MapClearToNamesPort | polatis/command_actions/mapping_actions.py:37-38 | `map_clear_to(port)` names exactly that port |
| Mapping.MapClearOfInts | polatis/command_actions/mapping_actions.py:47 | `map_clear` given int ports raises and sends nothing |
| Mapping.MapClearOfStrings | polatis/command_actions/mapping_actions.py:47-50 | given the ports' decimal strings, `map_clear` sends one command naming both, in order |
| DriverCommands.PortMode | polatis/driver_commands.py:19-29 | without a configured `DRIVER.PORT_MODE` the driver is in logical mode; a configured value is kept as given |
| DriverCommands.LogicalSpellings | polatis/driver_commands.py:34-36 | logical mode is exactly the spellings of "logical" in any case |
| DriverCommands.DeviceSize | polatis/driver_commands.py:38-51 | the device is queried exactly when either cached count is falsy; a success caches and returns both counts; a failure changes nothing; the logical count never exceeds half the total |
| DriverCommands.SizeOfReply | polatis/driver_commands.py:44-49 | a report of n x m gives the total n + m and the logical count min(n, m) |
| DriverCommands.SizeCached | polatis/driver_commands.py:44-51 | once both counts are non-zero later calls send nothing and return the cached counts, whatever the switch would answer; a zero logical count is queried again every time |
| DriverCommands.PortOfAddress | polatis/driver_commands.py:177 | the port number of an address is its last `/` segment |
| DriverCommands.MapUni | polatis/driver_commands.py:161-183 | in physical mode the request raises before any command is sent; in logical mode it is the size query followed by the patches from the parsed source |
| DriverCommands.UniFrom | polatis/driver_commands.py:175-180 | a failed size query fails with its commands only; then an unparsable source address fails before any patch is sent |
| DriverCommands.LogicalMapUniPatches | polatis/driver_commands.py:171-180 | in logical mode a completed `map_uni` sends the size query, then exactly one patch per destination, each connecting `src + L` to that destination, where L is the logical count the size query returned |
| DriverCommands.UniEach | polatis/driver_commands.py:178-180 | the loop sends at most one command per destination, and one for each when it completes |
| DriverCommands.UniEachPatches | polatis/driver_commands.py:175-180 | each command of a completed `map_uni` patches its destination from the source shifted by the logical count, the destination written first |
| DriverCommands.MapBidi | polatis/driver_commands.py:185-210 | both addresses are read before anything is sent, the source's failure winning; then the size is read and the ports are patched |
| DriverCommands.LogicalBidiPatches | polatis/driver_commands.py:203-207 | in logical mode two patches follow the size query: the destination from the shifted source, then the source from the shifted destination |
| DriverCommands.PhysicalBidiPatch | polatis/driver_commands.py:209-210 | in physical mode one patch follows the size query, the lower port written first |
| DriverCommands.PhysicalBidiSymmetric | polatis/driver_commands.py:209-210 | in physical mode the direction of a request does not matter |
| DriverCommands.MapClearTo | polatis/driver_commands.py:212-232 | the size cache is untouched; an unparsable source address raises before anything is sent |
| DriverCommands.MapClearToTargets | polatis/driver_commands.py:222-232 | a completed `map_clear_to` sends exactly one clear per destination: of the destination in logical mode, of the lower of source and destination in physical mode |
| DriverCommands.ClearEach | polatis/driver_commands.py:225-232 | the loop sends at most one command per destination, and one for each when it completes |
| DriverCommands.ClearEachPorts | polatis/driver_commands.py:225-232 | each clear of a completed `map_clear_to` names exactly one port: the destination in logical mode, the lower of source and destination in physical mode |
| DriverCommands.MapClear | polatis/driver_commands.py:234-264 | the port mode never changes |
| DriverCommands.LogicalMapClearRaises | polatis/driver_commands.py:256-261 | in logical mode `map_clear` never sends a clear: joining the two int ports raises, so only the size query can reach the device |
| DriverCommands.PhysicalMapClearPorts | polatis/driver_commands.py:256-264 | in physical mode a completed `map_clear` sends one clear per port, in order, each naming that port |
| DriverResources.Get | polatis/driver_commands.py:142-152 | a reading is the reported text exactly when the reply mentioned the port, and 0 otherwise |
| DriverResources.PadNumber | polatis/driver_commands.py:136 | the padded number is as wide as the width asked for, or as its own spelling when that is wider |
| DriverResources.PortIdDigits | polatis/driver_commands.py:132-136 | every port id has the width of the total's spelling and is all digits spelling the port number |
| DriverResources.PortIdInjective | polatis/driver_commands.py:132-136 | distinct ports have distinct ids |
| DriverResources.PowerSides | polatis/driver_commands.py:144-152 | in logical mode a port gets its own reading as transmit power and its partner's as receive power; in physical mode the first L ports get transmit power only and the rest receive power only |
| DriverResources.Ports | polatis/driver_commands.py:131-157 | the connection loop raises exactly when the table names a source outside the ports shown; otherwise there is one port per address, in order |
| DriverResources.PortsNumbered | polatis/driver_commands.py:133-142 | port i has address i + 1, the serial `<switch serial>.<i + 1>`, a fixed-width id spelling its number and its own wavelength reading |
| DriverResources.PortsMapped | polatis/driver_commands.py:154-157 | a port is mapped exactly when the connection table has an entry for it: to the port its entry names when the chassis shows that port, and to `None` when it does not, as for a logical partner above the logical count |
| DriverResources.MappingsSymmetric | polatis/driver_commands.py:154-157 | for a symmetric connection table, when port a maps to port b, port b maps to port a |
| DriverResources.ConnectionTable | polatis/driver_commands.py:123-124 | in physical mode the table is the patch report's pairs both ways |
| DriverResources.LogicalConnections | polatis/command_actions/autoload_actions.py:62-72 | for a symmetric physical table the logical table does not depend on the dictionary's iteration order |
| DriverResources.ResourceDescription | polatis/driver_commands.py:110-159 | the serial query is always sent first, and its failure ends the description, as does a failed type query after it; a type report that does not parse raises after the second query; otherwise the rest is the description after the size query, and a completed chassis carries the address, the serial read from the serial report and the model and version read from the type report |
| DriverResources.Describe | polatis/driver_commands.py:121-159 | a size failure propagates; after a patch report the power and wavelength queries of all physical ports follow, in that order; a completed chassis carries the address, model, version and serial it was given |
| DriverResources.DescribedPorts | polatis/driver_commands.py:121-157 | a completed description holds exactly the port table built from the connection table and the power and wavelength readings |
| Text.NatToStringRoundTrip | polatis/driver_commands.py:136 | a natural number's decimal spelling reads back as the number |
| Text.FindAllFound | polatis/command_actions/autoload_actions.py:80 | every value `re.findall` collects is the value of a match at some position from where the search starts |
| Text.ParseIntRoundTrip | polatis_l1_handler.py:257 | `int(str(i))` is `i` for every integer |
| Text.SplitJoin | polatis/polatis_driver_handler.py:127 | joining the pieces `split` cuts a text into, with the separator between them, gives the text back |
| Text.AfterLast | polatis/driver_commands.py:177 | `split(sep)[-1]` is a suffix of the text holding no separator, preceded by a separator unless it is the whole text |
| Text.AfterLastSuffix | polatis/driver_commands.py:177 | the last segment of `prefix + sep + tail` is `tail` when `tail` holds no separator |

Some of what the code does is easy to misread, and the model follows the
code as written:

- A reconnect inside `_write` resets the raw connection's counter, but the
  command that triggered it still waits for the reply tagged with its old
  counter (`RawConnection.ReconnectMidCommand`). Correlation does not
  restart with the new connection.
- The older handler's `DLT-PATCH` puts the higher port in the ctag slot,
  while the ctag itself still advances (`DriverHandler.ClearTagIsHighPort`).
- The older handler's port mapping is only ever extended, so stale entries
  survive a re-patch (`HandlerReplies.StaleEntry`).
- `CommandId` and `CommandName` are read outside the per-command error
  handling, so a missing attribute aborts the whole batch
  (`Dispatch.MissingAttributeAbortsBatch`).
- In logical mode `map_clear` joins two ints with `'&'`, which raises before
  any clear is sent (`DriverCommands.LogicalMapClearRaises`).

## Left out

- Sockets, the accept loop, `SO_REUSEADDR` and the thread per connection (l1_driver.py:16-59): I/O and concurrency. The receive loop is modelled over a script of receive events, and each raw-connection call over a script of connection attempts, send results and received chunks.
- The XML parser and the `xmlns` stripping (l1_driver.py:63, 67): a library parser. Batches are taken as already parsed elements with their attributes and parameter children; an empty child keeps its `None` text.
- Timestamps, the traceback text of `Log`, and all logging: a clock, interpreter internals and side effects. A failed response keeps the exception's message.
- JSON configuration loading in `PolatisL1Handler` (polatis_l1_handler.py:117-125): file I/O. The port mode, the service mode, the session types and ports are parameters.
- Python's `re` in general: every pattern the core uses is reproduced by a dedicated matcher for that fixed pattern.
- The CLI library (`CLI`, `SessionPoolManager`, the base `TL1Session` and how it starts its counter, `CommandTemplateExecutor`, the session pool), `RuntimeConfiguration`, the response classes and `common.*`: their code is not part of this model. A session is a function from the command sent to its output or the exception raised.
- The resource object of the older handler (`common.resource_info.ResourceInfo`) and its XML: not part of this model. The description keeps the values the handler puts into it. Depth, index and the constant "Protocol Type" attribute are left out.
- The order in which a Python 2 dictionary is iterated: unspecified, so it is a parameter. For the connection table it is any order of the keys, and the table is proved not to depend on it when it is symmetric. For the session table's `keys()` it is any permutation of the four kinds. The order in which `to_string` emits attributes is not modelled: the rendering holds them as a map.
- The whitespace and indentation of the emitted XML text. The model keeps the `tabs` argument, which grows by four spaces per level. It does not keep the indentation that results from re-indenting each child's whole text with its parent's `tabs`.
- `PolatisL1Handler.get_resource_description`, `login`, `logout`, `map_uni`, `set_speed_manual`, `get_state_id` and `get_attribute_value` in polatis_l1_handler.py: outside the modelled core. Only the three mapping commands and the connection they use are modelled.
- `DriverCommands.login`, `map_tap`, `set_speed_manual`, `get_attribute_value`, `set_attribute_value`, `get_state_id` and `set_state_id` (polatis/driver_commands.py:53-75, 266-366): session set-up glue or stubs that raise or return constants.
- main.py, polatis.cpp, l1_handler_base.py, polatis/cli/polatis_cli_handler.py, polatis/cli/polatis_command_modes.py and the tests: start-up glue and interface signatures, with no logic to state.
- The first argument of the exceptions the older handler raises: only the message is kept.
- DriverHandler.RoundSize: it is 0 when the size reply holds no size. The round then stops before the shutter query, so the value is never used.
- CliSession.ConnectActions: it has no contract of its own. Its behaviour is stated by `CliSession.ConnectAccepted` and `CliSession.ConnectSession`.
- Dispatch.Find: it carries no contract of its own. What it returns is stated by `Dispatch.FindFirst`, `Dispatch.FindAt` and `Dispatch.FindNone`.
- DriverCommands.MapUni: its own contract states only the physical-mode refusal. The logical-mode commands, with the shifted source, are stated about `MapUni` itself by `DriverCommands.LogicalMapUniPatches`.
- DriverCommands.MapClearTo: its own contract states only the untouched cache and the source-address failure. The clears in each mode are stated about `MapClearTo` itself by `DriverCommands.MapClearToTargets`.
- DriverCommands.MapClear: its contract states only that the port mode is kept. Its commands are stated by `DriverCommands.LogicalMapClearRaises` and `DriverCommands.PhysicalMapClearPorts`.
- RawConnection.Connect: its contract does not give the lines sent or the switch name. Both are stated by `RawConnection.ConnectStable` for a connect that needs no reconnect of its own. A connect whose own commands reconnect nests a second login, and no separate statement is made for that case.
- RawConnection.ReadFrom: a script that runs out of chunks is reported as a stalled read, because the real `recv` would block forever.
- DeviceReplies.PortValuesOfListing: it covers replies whose text around the listing holds no quote and whose values hold no whitespace or quote. Other replies are covered only by `DeviceReplies.PortValues`, which follows the matcher.
- DeviceReplies.PortWavelengthsOfListing: it covers replies with one entry per line, text around the listing without quotes, and wavelengths without whitespace or commas. Other replies are covered only by `DeviceReplies.PortWavelengths`.
