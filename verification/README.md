# wpanctl `getprop`: a Dafny model of the property-query client

This project models the client side of `wpanctl getprop`, the command that
asks the wpantund daemon for one property, for several, or for all of them
over D-Bus. The model covers four parts:

- the **batch logic**. A call with no names fetches every property. A call with
  several names runs once per name, left to right. A name given together with
  `-a`, or a call with no interface selected, is rejected before anything is sent.
- the **request logic**. One property-get request goes out per call, and a
  failed reply is reported with a message that is never empty.
- the **line scanner**. It reads the rendered value of the `connecteddevices`
  property line by line. Lines that begin with a digit are device addresses,
  and a line containing `Last IPs` means the routing table is complete.
- the **polling loop**. It re-requests `connecteddevices` until the scanner
  sees the sentinel, keeps a duplicate-free list of at most 1000 devices in
  first-seen order, prints that list with its count, and then empties it.

Modules, leaf first:

| module | file | what it holds |
|---|---|---|
| `Wrappers` | wrappers.dfy | `Option`, for the values that are NULL pointers in C |
| `Text` | text.dfy | `strstr` (`Contains`) and `getline` (`Lines`) |
| `Devices` | devices.dfy | the device list as a sequence: `Add`, `AddAll`, first-seen order |
| `Slots` | slots.dfy | the C array `connected_devices` itself, its relation to `Devices`, and the reset |
| `Scanner` | scanner.dfy | `parse_connected_devices_output` |
| `Reassembly` | reassembly.dfy | the polling rounds, seen from the device list alone |
| `GetpropCommand` | getprop.dfy | `tool_cmd_getprop` once its options are parsed |
| `GetpropFacts` | getprop_facts.dfy | what the command guarantees, as lemmas |
| `Scenarios` | scenarios.dfy | a worked two-round example of the device table |

`tool_cmd_getprop` calls itself in three places. A batch calls it once per
name. A get-all reply calls it once per listed property. Each new polling
round calls it again. The model keeps that shape with three mutually
recursive functions, `Getprop`, `Each` and `Fetch`, and passes a `World`
through them. The world holds:

- the global device list;
- the exchanges still to come;
- the requests sent so far;
- the output written so far.

Each request consumes one `Exchange`. An exchange records whether the
system-bus connection opened, what the interface lookup returned, and the
reply, or no reply together with the transport's error text. The C loop has
no round limit. The model polls only as long as exchanges remain. Once they
run out, the result is `Unanswered`.

Behaviour of the code worth noting:

- The sentinel `Last IPs` may appear anywhere in a line (`strstr`), and
  lines after it are still scanned.
- A batch returns the status of its last call, even when that status is 0,
  and so does the get-all loop (`BatchRunsLastAfterRest`,
  `GetAllRunsLastAfterRest`).
- With `-v`, a single property prints nothing at all (line 264).
- The device list is reset only when a poll completes, and the reset clears
  only the first 125 slots (see ## Findings). If a round fails, for example
  on a timeout, the collected devices stay in the list and the next
  `getprop connecteddevices` starts from them (`FailedPollKeepsDevices`).
- With the corrected reset (see ## Findings) the list stays duplicate-free
  and within 1000 entries (`GetpropKeepsValid`). As written, a fetch after
  one that recorded more than 125 devices can print a duplicate
  (`Slots.ResetAsWrittenLeaks`).
- The per-property calls of a get-all reply are made with the default options
  (10 s timeout, no `-v`). The C code passes them only the program name and
  the property name.
- If the system bus cannot be opened, the call returns 0. The `require_string`
  jump leaves `ret` at its initial value.

## Model

| member | source | states |
|---|---|---|
| `Text.Contains` | src/wpanctl/tool-cmd-getprop.c:75-78 | the sentinel test is true exactly when the pattern occurs at some position of the line, not only at its start |
| `Text.FindFrom` | src/wpanctl/tool-cmd-getprop.c:75 | the scan behind `strstr` returns a position where the pattern occurs and no earlier one, or none when it occurs nowhere |
| `Text.FirstLineLength` | src/wpanctl/tool-cmd-getprop.c:72 | one `getline` call takes a non-empty piece of text up to and including the first newline, or the rest of the text |
| `Text.Lines` | src/wpanctl/tool-cmd-getprop.c:72 | successive `getline` calls return non-empty lines, each newline-terminated except possibly the last |
| `Text.ConcatLines` | src/wpanctl/tool-cmd-getprop.c:70-72 | reading the scratch text line by line loses nothing and adds nothing: the lines concatenate back to the text |
| `Text.LinesConcat` | src/wpanctl/tool-cmd-getprop.c:70-72 | well-formed lines written to the file and read back come out as the same lines |
| `Devices.Add` | src/wpanctl/tool-cmd-getprop.c:43-61 | adding keeps the list within 1000 entries and duplicate-free, never changes or reorders existing entries, and adds at most one entry; a string ends up present iff it was present or it is the new string and there was room, so on a full list a new string is silently dropped |
| `Devices.AddAll` | src/wpanctl/tool-cmd-getprop.c:72-85 | adding lines one after another keeps the list valid and its old entries as a prefix, brings in only the lines given, and, while the list is not full, every one of them |
| `Devices.AddAllAppend` | src/wpanctl/tool-cmd-getprop.c:48-61 | adding two batches one after the other is the same as adding their concatenation, which is why rounds can be accumulated one by one |
| `Devices.AddAllFirstSeen` | src/wpanctl/tool-cmd-getprop.c:51-59 | the accumulated list is ordered by each device's first sighting in the old entries followed by the new lines, however often a device recurs |
| `Slots.Printed` | src/wpanctl/tool-cmd-getprop.c:279-284 | the printing loop lists slot entries from slot 0 up to the first NULL or the end of the array, and its count is the length of that list |
| `Slots.AddSlot` | src/wpanctl/tool-cmd-getprop.c:48-61 | `add_to_connected_devices_array` on the array: it changes at most one slot, only an empty one, which then holds the new string; filled slots never change |
| `Slots.AddEach` | src/wpanctl/tool-cmd-getprop.c:80-84 | the adds of one scan, one after another: the array keeps its size and no filled slot ever changes (the list it prints is given by `Slots.AddEachRefinesAddAll`) |
| `Slots.ResetAsWrittenMeaning` | src/wpanctl/tool-cmd-getprop.c:286 | the `memset` as written (`Slots.ResetAsWritten`) empties a table of at most 125 entries and keeps its prefix shape, but on a longer table it leaves slot 0 empty with entries after slot 124, so the filled slots no longer form a prefix |
| `Slots.AddFrom` | src/wpanctl/tool-cmd-getprop.c:51-60 | the C loop changes at most one slot, only a NULL one, and that slot then holds the new string; filled slots never change |
| `Slots.AddSlotRefinesAdd` | src/wpanctl/tool-cmd-getprop.c:48-61 | on an array whose filled slots form a prefix, the C routine does to the printed list exactly what `Devices.Add` does, and the prefix shape is kept |
| `Slots.AddEachRefinesAddAll` | src/wpanctl/tool-cmd-getprop.c:48-61 | after any sequence of adds, the array and the list model are still in step |
| `Slots.ResetAsWrittenLeaks` | src/wpanctl/tool-cmd-getprop.c:286 | the reset as written clears only 125 slots. If the first fetch recorded more than 125 devices, a later fetch that sees 125 new devices prints at least 126 entries: its own 125, then the old entries from slot 125 up to the first empty slot. Entry 126 is left over from the first fetch, and it is a duplicate when the later fetch also saw it |
| `Slots.ResetClearsAll` | src/wpanctl/tool-cmd-getprop.c:286 | with every slot cleared, as intended, the next fetch prints exactly its own devices, deduplicated and in first-seen order |
| `Slots.Cleared` | src/wpanctl/tool-cmd-getprop.c:286 | the intended reset: a full-size array with the prefix shape and nothing to print |
| `Scanner.Records` | src/wpanctl/tool-cmd-getprop.c:80-84 | the lines handed to the accumulator are exactly the lines whose first character is a decimal digit |
| `Scanner.Scan` | src/wpanctl/tool-cmd-getprop.c:68-78 | "more needed" is reported iff no line contains `Last IPs` anywhere |
| `Scanner.ScanDevices` | src/wpanctl/tool-cmd-getprop.c:72-85 | the pass adds every digit-led line, in order, and nothing else, whether the line comes before or after the sentinel |
| `Scanner.ScanText` | src/wpanctl/tool-cmd-getprop.c:63-89 | `parse_connected_devices_output` over the lines of the rewound scratch file; its contract is carried by `Scanner.ScanTextMeaning` |
| `Scanner.ScanTextMeaning` | src/wpanctl/tool-cmd-getprop.c:63-89 | the pass over the rendered text asks for another round exactly when none of the text's `getline` lines contains `Last IPs`, and adds the text's digit-led lines to the list |
| `Reassembly.SentinelDecided` | src/wpanctl/tool-cmd-getprop.c:68-78 | whether a round ends the poll depends on its text alone, not on the devices collected so far, and it ends exactly when some line holds the sentinel |
| `Reassembly.Reassemble` | src/wpanctl/tool-cmd-getprop.c:266-288 | the polling loop seen from the device list: a completed poll used at least one round and no more rounds than were answered (what it stops at and what it holds are `Reassembly.ReassembleStops` and `Reassembly.ReassembleTable`) |
| `Reassembly.ReassembleStops` | src/wpanctl/tool-cmd-getprop.c:271-276 | polling stops exactly after the first round whose text has a sentinel line, and goes on while no text has one |
| `Reassembly.ReassembleTable` | src/wpanctl/tool-cmd-getprop.c:266-283 | the finished table, or the list still being collected, is what adding every address line of the rounds so far, in order, to the starting list gives |
| `Reassembly.EachDeviceOnce` | src/wpanctl/tool-cmd-getprop.c:277-284 | a completed table has no duplicates, lists devices in first-seen order across the rounds, and has at most 1000 entries. If it is not full, it contains every address line of those rounds |
| `Scenarios.TwoRounds` | src/wpanctl/tool-cmd-getprop.c:266-288 | a round listing a and b followed by a round listing b and c and the sentinel gives the table [a, b, c] after two rounds |
| `GetpropCommand.Classify` | src/wpanctl/tool-cmd-getprop.c:125-179 | `-h` means help. Otherwise a name together with `-a` is rejected, then a missing interface is rejected. Two or more names make a batch. Zero names mean get-all for property "". One name is a single fetch of that name |
| `GetpropCommand.ErrorMessage` | src/wpanctl/tool-cmd-getprop.c:232-246 | the failure message is the reply's string when present and non-empty, else `strerror(-status)` for a negative status, else "Get failed"; by its type it is never empty |
| `GetpropCommand.Getprop` | src/wpanctl/tool-cmd-getprop.c:91-311 | a call only consumes exchanges from the front and only appends requests and output; nothing already sent or written is changed |
| `GetpropCommand.Each` | src/wpanctl/tool-cmd-getprop.c:170-179 | calling once per name, in order, keeps the same discipline: exchanges consumed from the front, requests and output only appended |
| `GetpropCommand.Fetch` | src/wpanctl/tool-cmd-getprop.c:182-294 | one request and its consequences (including get-all sub-calls and further polling rounds) keep the same discipline |
| `GetpropFacts.RejectedBeforeAnyRequest` | src/wpanctl/tool-cmd-getprop.c:154-168 | a name with `-a`, or no interface, gives BadArgument and one error line, and sends, consumes and changes nothing else |
| `GetpropFacts.NoNamesMeansAll` | src/wpanctl/tool-cmd-getprop.c:149-152 | `getprop` with no names behaves exactly as `getprop -a` |
| `GetpropFacts.EachAppend` | src/wpanctl/tool-cmd-getprop.c:173-177 | a run over names followed by x equals the run over the names followed by a single call for x on the resulting state |
| `GetpropFacts.BatchRunsLastAfterRest` | src/wpanctl/tool-cmd-getprop.c:170-179 | `getprop a ... y z` is `getprop a ... y` followed by `getprop z` with the same options, and its status is that of `getprop z` whatever the earlier names returned |
| `GetpropFacts.SingleTakesOneExchange` | src/wpanctl/tool-cmd-getprop.c:182-225 | one non-polled name uses one exchange and sends one request, for that name with the call's timeout, exactly when the bus opened and the lookup succeeded |
| `GetpropFacts.EachSendsOnePerName` | src/wpanctl/tool-cmd-getprop.c:170-179 | a run over names, with the bus up each time, uses one exchange per name and sends one request per name, in order, each with the call's timeout |
| `GetpropFacts.BatchSendsOnePerName` | src/wpanctl/tool-cmd-getprop.c:170-179 | the same for a batch `getprop n1 n2 ...`: the number of requests equals the number of names, and the options are kept |
| `GetpropFacts.FailureReported` | src/wpanctl/tool-cmd-getprop.c:232-247 | a reply with a non-zero status returns that status and writes one `<name>: <message> (<status>)` line with a non-empty message; the device list is untouched |
| `GetpropFacts.ValueReported` | src/wpanctl/tool-cmd-getprop.c:264-292 | a status-0 reply for an ordinary name returns 0 and writes no error; it writes `<name> = <value>`, or nothing with `-v` or an empty name |
| `GetpropFacts.TimeoutReported` | src/wpanctl/tool-cmd-getprop.c:214-225 | no reply gives Timeout and writes the transport's error text |
| `GetpropFacts.PollOutcome` | src/wpanctl/tool-cmd-getprop.c:266-288 | `getprop connecteddevices` against rounds answered with given texts stops at the first sentinel round with status 0, one table equal to the Reassemble result, and an emptied list; it sends the same request once per round |
| `GetpropFacts.PollCompletes` | src/wpanctl/tool-cmd-getprop.c:277-287 | a completed poll prints a duplicate-free table in first-seen order with its own length as the count, and the list is empty afterwards with the corrected reset (see ## Findings) |
| `GetpropFacts.FailedPollKeepsDevices` | src/wpanctl/tool-cmd-getprop.c:221-225 | a poll interrupted by a missing reply returns Timeout and leaves the devices collected so far in the list |
| `GetpropFacts.EachReportsValues` | src/wpanctl/tool-cmd-getprop.c:256-262 | a run over ordinary names, each answered with status 0, writes one `<name> = <value>` line per name in order and ends with status 0 |
| `GetpropFacts.GetAllReportsEach` | src/wpanctl/tool-cmd-getprop.c:253-262 | `getprop` with no names sends a request for "" and then fetches each listed property in turn. It writes one line per listed property, in the daemon's order, and returns 0 |
| `GetpropFacts.GetAllRunsLastAfterRest` | src/wpanctl/tool-cmd-getprop.c:253-262 | `getprop` with no names is the request for "", the default-option calls for all listed names but the last, then `getprop <last>`, whose result is the command's whatever the earlier calls returned |
| `GetpropFacts.GetAllNothingListed` | src/wpanctl/tool-cmd-getprop.c:253-262 | when the daemon lists no properties, `getprop` with no names returns 0 after its one request and writes nothing |
| `GetpropFacts.GetpropKeepsValid` | src/wpanctl/tool-cmd-getprop.c:48-89 | every command, whatever its exchanges, leaves a valid device list (at most 1000 entries, none twice) when it found one, so the validity that `PollCompletes` assumes holds for any list left by earlier commands |
| `GetpropFacts.BatchReportsValues` | src/wpanctl/tool-cmd-getprop.c:170-179 | `getprop foo bar` with both answered writes `foo = ...` and then `bar = ...` and returns 0 |

## Findings

| source | as written | input that shows it | evidently intended | confidence | as-written member | corrected member |
|---|---|---|---|---|---|---|
| src/wpanctl/tool-cmd-getprop.c:286 | `memset(connected_devices, '\0', MAX_CONNECTED_DEVICES)` clears 1000 bytes. With 8-byte pointers that is only slots 0 to 124 | a completed `getprop connecteddevices` that recorded 126 devices, then one that records 125 new devices: the second table lists 126 entries, the last from the first run | clear every slot (`sizeof connected_devices` bytes) | not executed; assumes 8-byte pointers (on 32-bit targets 250 slots are cleared) | `Slots.ResetAsWrittenLeaks` | `Slots.ResetClearsAll` |

The rest of the model, `GetpropCommand.Fetch`, uses the corrected reset: the
device list becomes empty.

## Left out

- D-Bus: the connection, message construction, argument iterators and
  reference counting are not modelled. Each request's outcome is an
  `Exchange` input.
- `lookup_dbus_name_from_interface` is not part of this model. Its status is
  a field of the exchange.
- `dump_info_from_iter` is not part of this model. The text it renders is a
  field of the reply. So is the list of leading string elements that the
  get-all loop reads.
- `strerror` is not modelled. It is a function parameter that returns a
  non-empty string.
- `getopt_long`, `strtol` and the help text are not modelled. The model
  starts from the parsed options and names. A name that begins with `-` and
  is re-parsed by a sub-call is not modelled.
- Output text is not modelled. The `fprintf` formats are represented by
  structured `Event` values, and the `%d` rendering of numbers is omitted.
- The message `require_string` prints when the bus cannot be opened is not
  modelled. That macro is not part of this model, so only the 0 result is kept.
- The scratch file is not modelled. It is replaced by the text held in memory.
  A failed `fopen` is not modelled either: the code then hands a NULL stream
  to `dump_info_from_iter` (line 270), whose behaviour on it is unknown here.
- C strings end at their first NUL byte. The model assumes texts and names
  contain no NUL.
- The reply status is an unbounded integer, not a 32-bit one. The undefined
  `-INT_MIN` in the `strerror` argument is not modelled.
- GetpropCommand.Getprop: polling is bounded by the finite sequence of
  exchanges. The C loop's unbounded polling, and the fact that it may never
  terminate, are represented only by the `Unanswered` status.
- GetpropCommand.Fetch: a completed poll empties the device list, which is
  the corrected reset. The `memset` as written leaves entries from slot 125 on
  in place. `Slots.ResetAsWrittenLeaks` shows the effect, so
  `GetpropFacts.PollCompletes` promises the empty list only for the
  corrected code.
- Memory ownership is not modelled. This includes the `strdup` copies that
  are never freed.
- ti-wisun-webapp/client/src/components/PingConfig.tsx is a React component
  and is not part of the getprop client.
- src/wpanctl/tool-cmd-commissioner.h only declares a function.
