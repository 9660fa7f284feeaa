# Golem Unlimited provider menu-bar client: the control-plane core

The macOS menu-bar application `gu-provider-ui` drives a local provider process through a
control channel. The channel is HTTP/1.0 over a Unix domain socket: one request per connection,
and the response ends when the peer closes the connection. The client does the following:

- chooses the socket;
- lists the hubs found on the local network and the hubs saved earlier, with a selection flag
  for each;
- switches a hub, or the automatic connection mode, on and off with two fixed calls;
- adds a hub by address once that hub has answered with its node id and host name;
- writes launchd property lists for the provider.

This project models that core in Dafny and proves what each operation promises.

| module | file | content |
|---|---|---|
| `Wrappers` | `wrappers.dfy` | `Option` |
| `Text` | `text.dfy` | Foundation's string operations as the client uses them: `components(separatedBy:)` and `joined(separator:)`, `split(separator:)` (which omits empty pieces), trimming of `.whitespaces`, ASCII lower-casing, `String(n)` for a count, UTF-8 encoding |
| `Http` | `http.dfy` | the request message, the body extraction, and the exchange over the socket with the socket library as an oracle |
| `Nodes` | `nodes.dfy` | the two hub records, `nodeId()`, `dataToBool`, and the two-token reading of a hub's `/node_id/` reply |
| `Pass` | `pass.dfy` | one `reloadHubList` pass as functions of the channel: which calls it makes, and the hub list and flags it leaves |
| `Delegate` | `delegate.dfy` | class `AppDelegate`, with the fields the operations update and a ghost `trace` of every control-channel call; the socket-path choice, the two toggles, adding a hub, and `reloadHubList` with its two loops |
| `PList` | `plist.dfy` | `getPList`, plus a reader that takes the text back through its XML tokens to the entries of the dictionary |

The control channel is a function `Channel = Call -> Option<string>` that gives the body the
provider would answer to a verb, query and body, or nothing when `getHTTPBodyFromUnixSocket`
fails. Each method of `AppDelegate` appends the calls it makes to `trace`, so their order and
number are stated outright. Because the channel is a function, a call repeated within a pass gets the same answer. This happens only for two LAN hubs with the same id, whose two `GET /nodes/{id}` fetches then give equal flags by construction, not by any promise of the provider.

Two places where the code behaves differently from what a reader might expect:

- **Hubs without an id.** One might expect a LAN hub without an id to be skipped. The code
  force-unwraps `nodeId()` (line 174), so it crashes on such a hub. `Pass.Decodes` makes "every
  LAN hub the loop reaches has an id" a precondition of `ReloadHubList`.
- **An aborted pass.** One might expect a pass to publish its result all at once. The code
  assigns `nodes` and clears `nodeSelected` (lines 171-172) before any status fetch, then appends
  as it goes, so an aborted pass leaves a partial list:
  - `Pass.PassAbortedInLan` and `Pass.PassAbortedInSaved` state what is left;
  - an abort among the LAN fetches leaves fewer flags than hubs.

## Model

| member | source | states |
|---|---|---|
| `Nodes.LineId` | gu-provider-ui/AppDelegate.swift:14-15 | an id found on a line is non-empty and contains neither `=` nor a line break |
| `Nodes.NodeId` | gu-provider-ui/AppDelegate.swift:11-18 | an id found in a description is non-empty and contains neither `=` nor a line break |
| `Nodes.NodeIdFirstLine` | gu-provider-ui/AppDelegate.swift:12-16 | blank lines before the first non-empty line, and everything after it, do not affect the id: only that line decides |
| `Nodes.NodeIdOfBlank` | gu-provider-ui/AppDelegate.swift:12-17 | a description that is empty or only line breaks has no id |
| `Nodes.LineIdOfPair` | gu-provider-ui/AppDelegate.swift:14-15 | `key=value`, with runs of `=` before, between or after, gives `value` |
| `Nodes.LineIdShape` | gu-provider-ui/AppDelegate.swift:14-15 | conversely, a line gives an id only when it has that shape, and the id is the second piece |
| `Nodes.LineIdOfSingle` | gu-provider-ui/AppDelegate.swift:14-15 | a line with fewer than two pieces (no `=`, or `=` only around the key) gives nil |
| `Nodes.NodeIdOfSynthesized` | gu-provider-ui/AppDelegate.swift:11-18 | the description synthesised for a saved hub at line 184, `node_id=` + id, gives back exactly `id` if and only if `id` is non-empty and free of `=` and line breaks |
| `Nodes.NodeIdOfSynthesizedWithEquals` | gu-provider-ui/AppDelegate.swift:14-15 | a saved id containing `=` comes back cut at the first `=`: `node_id=a=b` gives `a` |
| `Nodes.DataToBool` | gu-provider-ui/AppDelegate.swift:161 | the decoded value is never absent |
| `Nodes.DataToBoolTrue` | gu-provider-ui/AppDelegate.swift:161 | the value is true if and only if the text, trimmed of spaces and tabs, spells `true` in any mixture of cases; otherwise it is false |
| `Nodes.DataToBoolOfWord` | gu-provider-ui/AppDelegate.swift:161 | whitespace around a word does not change its decoding |
| `Nodes.HubTokens` | gu-provider-ui/AppDelegate.swift:236-237 | the two accepted tokens are non-empty and free of spaces |
| `Nodes.HubTokensOfPair` | gu-provider-ui/AppDelegate.swift:236-237 | two space-free words, with any spaces around and between them, are accepted as the id and the host name, in that order |
| `Nodes.HubTokensShape` | gu-provider-ui/AppDelegate.swift:236-237 | conversely, an accepted reply is exactly spaces, the id, spaces, the host name, spaces |
| `Nodes.HubTokensOfSingle` | gu-provider-ui/AppDelegate.swift:236-237 | a reply with a single word is refused |
| `Http.MessageWithoutBody` | gu-provider-ui/AppDelegate.swift:76-81 | with an empty body the message is the request line followed by an empty line |
| `Http.MessageRoundTrip` | gu-provider-ui/AppDelegate.swift:76-81 | a reader of the message gets back the request line `verb query HTTP/1.0`, then the content headers, then the body; the headers are present exactly when the body is non-empty; this holds whenever verb and query contain no carriage return |
| `Http.ContentLengthValue` | gu-provider-ui/AppDelegate.swift:78 | the `Content-length` header holds a decimal numeral that reads back as the number of bytes in the body's UTF-8 encoding |
| `Http.Message` | gu-provider-ui/AppDelegate.swift:81 | the message starts with the request line and its line break, and ends with the empty line followed by the body |
| `Http.AdditionalHeaders` | gu-provider-ui/AppDelegate.swift:76-80 | the extra headers are empty exactly when the body is, and otherwise end in a line break |
| `Http.ExtractBody` | gu-provider-ui/AppDelegate.swift:105 | the body is a suffix of the response; a non-empty body comes right after an occurrence of the empty line |
| `Http.Exchange` | gu-provider-ui/AppDelegate.swift:70-101 | no result exactly when creating, setting the timeouts, connecting or writing fails, or the write reports a count other than the message's UTF-8 length |
| `Http.ReadCalls` | gu-provider-ui/AppDelegate.swift:88-95 | the read loop calls `readString()` at least once and at most once more than the script has steps |
| `Http.ReceivedStopsAtEnd` | gu-provider-ui/AppDelegate.swift:88-95 | reading stops at the first `nil` or error: what comes after it is never read, and the loop makes one read per chunk plus the one that ends it |
| `Http.RequestHTTP` | gu-provider-ui/AppDelegate.swift:70-101 | if opening, connecting or writing fails, or the write reports a count other than the message's UTF-8 length, the result is nil and nothing is read; otherwise the result is every chunk read before the connection closes or a read fails; the socket is closed explicitly exactly when it was created and its timeouts were set |
| `Http.GetBody` | gu-provider-ui/AppDelegate.swift:103-107 | a body comes back exactly when the message was delivered whole, and it is the received text with its head removed |
| `Http.BodyAfterFirstSeparator` | gu-provider-ui/AppDelegate.swift:105 | for `head + CRLFCRLF + rest`, with no separator starting inside `head`, the body is exactly `rest`, even when `rest` contains the separator again |
| `Http.BodyWithoutSeparator` | gu-provider-ui/AppDelegate.swift:105 | a response with no empty line gives the empty body |
| `Http.HeadEndingInLineBreak` | gu-provider-ui/AppDelegate.swift:105 | a head ending in a line break (`a\r\n`) contains no separator of its own, but the split still happens two characters early: the body keeps a leading `\r\n` |
| `Pass.AnsweredIs` | gu-provider-ui/AppDelegate.swift:173-178 | the calls answered before the first failure are exactly the leading ones that get an answer |
| `Pass.IssuedStops` | gu-provider-ui/AppDelegate.swift:173-189 | the issued calls are a prefix of the planned ones; all but the last are answered, and a shortened prefix ends in a failed call |
| `Pass.AnsweredConcat` | gu-provider-ui/AppDelegate.swift:163-191 | two sequences of fetches in a row: the answered count stops inside the first when one of its calls fails, and otherwise goes on into the second |
| `Pass.IssuedConcat` | gu-provider-ui/AppDelegate.swift:163-191 | the second sequence of fetches is reached only if every call of the first is answered |
| `Pass.AnswersAre` | gu-provider-ui/AppDelegate.swift:174-176 | each answer collected is the channel's answer to the call in the same position |
| `Pass.SavedOnlyIds` | gu-provider-ui/AppDelegate.swift:182-189 | a saved hub's id reaches the list if and only if it was not seen among the LAN hubs and it is in the saved list |
| `Pass.SavedOnlyFresh` | gu-provider-ui/AppDelegate.swift:182-189 | the appended saved hubs have distinct ids, none of them seen among the LAN hubs |
| `Pass.SavedOnlyKeepsFirstUnseen` | gu-provider-ui/AppDelegate.swift:182-189 | the loop with its growing seen set keeps exactly the saved hubs that are the first with their id and unseen, in saved order |
| `Pass.SavedOnlyPrefix` | gu-provider-ui/AppDelegate.swift:182-189 | the hubs kept from a prefix of the saved list are a prefix of those kept from the whole list |
| `Pass.SavedOnlyLength` | gu-provider-ui/AppDelegate.swift:182-189 | the saved loop appends no more hubs than the saved list holds |
| `Pass.Merge` | gu-provider-ui/AppDelegate.swift:170-189 | the merged list starts with the LAN hubs and adds at most one hub per saved entry |
| `Pass.PassAuto` | gu-provider-ui/AppDelegate.swift:164-168 | without an answer from `/nodes/auto` the button keeps its state; with one, it is on if and only if the trimmed answer spells `true` in any case |
| `Pass.PassNodes` | gu-provider-ui/AppDelegate.swift:163-189 | `nodes` is untouched until the LAN list arrives; after that it is a prefix of the merged list that holds at least all the LAN hubs |
| `Pass.PassSelected` | gu-provider-ui/AppDelegate.swift:171-189 | the flags are untouched until the LAN list arrives; after that there is one flag per answered status fetch, LAN and saved |
| `Pass.PassCalls` | gu-provider-ui/AppDelegate.swift:163-189 | a pass always starts with `GET /nodes/auto`, and its calls are a prefix of the planned calls |
| `Pass.MergeCovers` | gu-provider-ui/AppDelegate.swift:173-189 | every saved id ends up in the merged list, as a LAN hub or as a saved one |
| `Pass.MergeDistinct` | gu-provider-ui/AppDelegate.swift:173-189 | if the LAN ids are distinct, then no id is listed twice in the merged list |
| `Pass.PassCallsCases` | gu-provider-ui/AppDelegate.swift:163-191 | the calls of one pass, case by case: `/nodes/auto` only; then `/lan/list`; then the LAN statuses up to the first failure; then `/nodes?saved`; then the saved statuses up to the first failure |
| `Pass.PassStopsAtFailure` | gu-provider-ui/AppDelegate.swift:163-191 | the pass makes the planned calls in order; every call but the last is answered, and a pass that stops short stops at a failed call: nothing is asked after one |
| `Pass.LanIdsUsed` | gu-provider-ui/AppDelegate.swift:174-177 | the status fetch of each LAN hub uses the id that the hub's description carries |
| `Pass.PassCompleted` | gu-provider-ui/AppDelegate.swift:163-191 | a completed pass makes every planned call; `nodes` is the LAN hubs in order followed by the unseen saved hubs in saved order; there is one flag per hub, and each flag is the decoded status fetched under that hub's id |
| `Pass.PassAbortedInLan` | gu-provider-ui/AppDelegate.swift:171-178 | after a failure among the LAN status fetches, `nodes` is the full LAN list but there are fewer flags than hubs |
| `Pass.PassAbortedInSaved` | gu-provider-ui/AppDelegate.swift:179-189 | after a failure among the saved status fetches, `nodes` is longer than the LAN list and is a prefix of the merged list, possibly all of it; its last hub is the one whose status fetch failed, and there is one flag fewer than hubs |
| `Pass.PassFlagsMatchHubs` | gu-provider-ui/AppDelegate.swift:171-189 | once the LAN list has arrived there are never more flags than hubs, and each flag is the decoded status of the hub at its position |
| `Delegate.SocketPathChoice` | gu-provider-ui/AppDelegate.swift:113-117 | the global socket is chosen if and only if there is no per-user socket; the per-user socket is the home directory, `/`, and the fixed suffix |
| `Delegate.NodeToggleChosenTogether` | gu-provider-ui/AppDelegate.swift:198-206 | a row toggle is exactly two calls, both chosen by the box's state: `PUT` if and only if on (`DELETE` if and only if off) on `/nodes/{id}` with the hub's address and name, then `POST` to `connect` if and only if on (`disconnect` if and only if off) with `["address"]` |
| `Delegate.NodeToggleMirror` | gu-provider-ui/AppDelegate.swift:198-206 | switching off uses the same resources and bodies as switching on, with the opposite actions |
| `Delegate.AutoToggleChosenTogether` | gu-provider-ui/AppDelegate.swift:216-219 | the auto toggle is exactly two calls: `PUT` (on) or `DELETE` (off) on `/nodes/auto` with `{}`, then `PUT /connections/mode/auto?save=1` (on) or `manual` (off) |
| `Delegate.AddHubAccepted` | gu-provider-ui/AppDelegate.swift:235-240 | a hub is added if and only if its reply arrived without error, with status 200, and with exactly two space-separated tokens, which become its id and host name |
| `Delegate.AddHubRejected` | gu-provider-ui/AppDelegate.swift:235-239 | the two error messages: `Cannot connect to ip:port` when there is no reply, and `Bad answer from http://ip:port/node_id/.` when the reply is not two tokens or its status is not 200 |
| `Delegate.AddHubOfWellFormedReply` | gu-provider-ui/AppDelegate.swift:230-247 | a reply `<id> <name>` adds hub `id` named `name` at `ip:port`, with `PUT /nodes/{id}` and then `POST /connections/connect?save=1` with `["ip:port"]` |
| `Delegate.SocketPath` | gu-provider-ui/AppDelegate.swift:113-117 | the global path is chosen if and only if there is no per-user socket; the per-user path lies inside the home directory |
| `Delegate.NodeToggleCalls` | gu-provider-ui/AppDelegate.swift:198-206 | two calls: `PUT` if and only if on and `DELETE` if and only if off, carrying the hub's address and name, then a `POST` |
| `Delegate.AutoToggleCalls` | gu-provider-ui/AppDelegate.swift:216-219 | two calls: `PUT` if and only if on and `DELETE` if and only if off on `/nodes/auto`, then a `PUT` of the connection mode |
| `Delegate.AddHubOutcome` | gu-provider-ui/AppDelegate.swift:235-240 | a hub is added only when its reply arrived without error, with status 200, and with a non-empty, space-free id and host name |
| `Delegate.AddHubCalls` | gu-provider-ui/AppDelegate.swift:241-247 | no call for a rejected hub; for an added one, a `PUT` and then `POST /connections/connect?save=1` |
| `Delegate.AppDelegate.ConfigureUnixSocketPath` | gu-provider-ui/AppDelegate.swift:113-117 | the socket path becomes the per-user socket when that file exists, else the global one |
| `Delegate.AppDelegate.CheckBoxPressed` | gu-provider-ui/AppDelegate.swift:198-206 | the toggle appends exactly the two calls for that row's hub and state to the trace and changes nothing else |
| `Delegate.AppDelegate.AutoConnectPressed` | gu-provider-ui/AppDelegate.swift:216-219 | the auto-mode button shows the new state, and the toggle appends exactly the two auto-mode calls to the trace |
| `Delegate.AppDelegate.AddEnteredHub` | gu-provider-ui/AppDelegate.swift:230-247 | the outcome is the decision on the reply; a rejected reply issues no control-channel call, and an accepted one issues exactly the save and then the connect |
| `Delegate.AppDelegate.ReloadHubList` | gu-provider-ui/AppDelegate.swift:163-191 | the pass appends exactly its calls to the trace and leaves the auto-mode button, `nodes` and `nodeSelected` as the pass functions say, given the state before |
| `Delegate.AppDelegate.Fetch` | gu-provider-ui/AppDelegate.swift:103-107 | one control-channel call: the answer is the channel's answer, and the call is appended to the trace |
| `Delegate.AppDelegate.FetchStatus` | gu-provider-ui/AppDelegate.swift:174-176 | a hub's status fetch is appended to the trace; an answer adds its decoded flag to `nodeSelected`, and a failure leaves the flags as they were |
| `Delegate.AppDelegate.ReloadLanHubs` | gu-provider-ui/AppDelegate.swift:169-178 | the rest of a pass from `/lan/list` on makes exactly the pass's calls and leaves `nodes` and the flags as the pass functions say |
| `Delegate.AppDelegate.ReloadSavedHubs` | gu-provider-ui/AppDelegate.swift:179-189 | the rest of a pass from `/nodes?saved` on makes exactly the pass's calls and leaves `nodes` and the flags as the pass functions say |
| `Delegate.AppDelegate.LanHubStep` | gu-provider-ui/AppDelegate.swift:174-177 | one turn of the LAN loop: an answer records the flag and the id and keeps the loop invariant; a failure ends the loop with the flags and the trace of the aborted loop |
| `Delegate.AppDelegate.SavedHubStep` | gu-provider-ui/AppDelegate.swift:182-188 | one turn of the saved loop: a seen id is skipped; an unseen hub is appended and its status fetched; a failure ends the loop with the hubs, flags and trace of the aborted loop |
| `Delegate.AppDelegate.FetchLanStatuses` | gu-provider-ui/AppDelegate.swift:173-178 | the LAN loop fetches statuses in list order up to the first failure; it records one flag per answer and reports whether every hub answered, and when all did, its seen set is exactly the LAN ids |
| `Delegate.AppDelegate.AppendSavedHubs` | gu-provider-ui/AppDelegate.swift:182-189 | the saved loop appends each unseen saved hub just before fetching its status, up to the first failure, and records one flag per answer |
| `PList.GetPList` | gu-provider-ui/AppDelegate.swift:256-268 | the text starts with the XML declaration, the document type and the opening `<plist version="1.0"><dict>`, and ends with `</dict></plist>` |
| `PList.LaunchAgents` | gu-provider-ui/AppDelegate.swift:270-278 | both texts carry `<key>ProgramArguments</key>`, `<key>RunAtLoad</key><true/>` and `<key>KeepAlive</key><true/>` |
| `PList.GetPListRoundTrip` | gu-provider-ui/AppDelegate.swift:256-268 | with plain label, executable and arguments, the text reads back as exactly these entries: `Label`; then `Program` with the executable when there are no arguments, or `ProgramArguments` with the executable followed by each argument in order; then `RunAtLoad` when asked for, then `KeepAlive` when asked for |
| `PList.EntriesSay` | gu-provider-ui/AppDelegate.swift:262-266 | each key occurs at most once; `Program` if and only if there are no arguments, `ProgramArguments` if and only if there are, each flag if and only if it is asked for, and each entry carries the value it was given |
| `PList.LaunchdReads` | gu-provider-ui/AppDelegate.swift:256-268 | the same facts, about the dictionary read back from the generated text |
| `PList.GetPListKeys` | gu-provider-ui/AppDelegate.swift:263-266 | whatever the label, the text contains `<key>Program</key>` when there are no arguments, `<key>ProgramArguments</key>` when there are, and `<key>RunAtLoad</key><true/>` and `<key>KeepAlive</key><true/>` when asked for |
| `PList.GetPListUnescaped` | gu-provider-ui/AppDelegate.swift:262-264 | strings are not escaped: a label that spells `<key>Program</key>` puts that text into a property list that has arguments |
| `PList.LaunchAgentsRead` | gu-provider-ui/AppDelegate.swift:275-278 | both agents run the executable with `-vv server run --user`, at load and kept alive; only their labels differ |
| `Text.JoinComponents` | gu-provider-ui/AppDelegate.swift:105 | splitting at a separator and joining with it again gives back the text |
| `Text.Split` | gu-provider-ui/AppDelegate.swift:12-14 | the pieces `split(separator:)` gives are non-empty and never contain the separator |
| `Text.DecimalRoundTrip` | gu-provider-ui/AppDelegate.swift:78 | the decimal numeral of a count reads back as that count |
| `Text.Utf8Concat` | gu-provider-ui/AppDelegate.swift:78-83 | the UTF-8 encoding of a concatenation is the concatenation of the encodings |

## Left out

- The user interface is not modelled: the status item and its menu, the table view's data source and cell views, the alerts, and the main-queue dispatch. After a hub is added the list reloads asynchronously, and the fields are cleared; both are left out.
- `updateServerStatus`, the polling timer, `UserDefaults`, and the application's start-up and shut-down are not modelled. They are I/O and lifecycle, not control-plane logic.
- `createLaunchDPList` is modelled only as far as the two texts it prepares (`PList.LaunchAgents`). Locating the bundle, creating `LaunchAgents`, and writing the files are file-system I/O.
- gu-provider/AppDelegate.swift is not part of this model. It polls a status URL, starts the provider process, and sets menu-bar text.
- The socket library (`Socket.create`, the timeouts, `connect`, `write`, `readString`) is an oracle, `Http.Socket`. It reports success or failure and a script of reads, and a read timeout is one of the read errors.
- `Delegate.AppDelegate.Fetch` takes the channel's answer from `ch`. It does not run `Http.GetBody` on a real socket, because the per-call socket scripts are not modelled.
- JSON: the `JSONDecoder` decodings of the hub lists are the functions of `Pass.Decoder`. The `JSONEncoder` body `{address, hostName}` is the abstract constructor `Pass.Encoded`.
- `try!`, `!` and `as!` crash the program in the code. Where they can fail on the provider's input they are preconditions here: `Pass.Decodes` covers the decodings and `nodeId()!` in the LAN loop. `CheckBoxPressed` requires that the row exists and its hub has an id. `dataToBool(...)!` needs no precondition, because `DataToBool` is never absent. The URL and UTF-8 conversions in `addEnteredHub` are taken to succeed. The other sites succeed by construction: the `as!` cast at line 237 is a plain status-code field of `Delegate.HubReply`, and `try! JSONEncoder().encode(...)` with `String(data:encoding:)!` at lines 200 and 241 is the abstract body `Pass.Encoded`.
- The hub's reply to `addEnteredHub` (`data`, the status code, the error) is an input, `Delegate.HubReply`. The `URLSession` request is not modelled.
- Swift strings are made of grapheme clusters, and the model works on Unicode scalars. The two can differ in three ways. First, `"\r\n"` is one character in Swift. Second, scalars of the grapheme classes Extend, ZWJ and SpacingMark (combining marks, U+200C, U+200D, the emoji modifiers) join the character before them, and Prepend scalars (U+0600 to U+0605) join the character after them, so a `=` or a space next to one is no longer a separator: `"node_id=\u{301}x"` and `"node_id=\u{200D}x"` have no id in Swift, but `Nodes.NodeId` finds one, and `"a \u{200D}b"` is refused by the code but accepted by `Nodes.HubTokens`. Third, Swift compares strings by canonical equivalence, for example in `all.contains` (line 183), while the model compares scalar sequences. The model and the code agree on ASCII text in which no carriage return comes right before a line feed.
- `Text.Lower` lower-cases only ASCII letters, whereas `lowercased()` follows the full Unicode case mapping. The two decide `true` in the same way for every text without a non-ASCII character that lower-cases to an ASCII letter.
- `PList.GetPListRoundTrip` and `PList.LaunchdReads` require label, executable and arguments to be free of `<`, because `getPList` escapes nothing (`PList.GetPListUnescaped`). For the same reason the reader decodes no entities. The absent direction of "contains `<key>Program</key>` exactly when there are no arguments" is stated on the read-back dictionary, not on the raw text, because a label can spell the key.
- `reloadHubList`'s two loops are written as a loop method each (`FetchLanStatuses`, `AppendSavedHubs`), and the body of each loop as a step method (`LanHubStep`, `SavedHubStep`).
- `NSLog` (lines 116 and 165) and `hubListTable.reloadData()` (line 190) are not modelled: they write to the log and redraw the table, and change no state of the model.
- `Http.RequestHTTP` models the explicit `socket.close()` calls (lines 75, 84 and 96) as its `closed` result. When setting a timeout throws, the `catch` at lines 98-99 returns without calling `close()`; the socket library's own clean-up when the object is released is not modelled.
- `Pass.SavedOnly` has no contract of its own. It is stated by `Pass.SavedOnlyIds`, `Pass.SavedOnlyFresh`, `Pass.SavedOnlyKeepsFirstUnseen`, `Pass.SavedOnlyPrefix` and `Pass.SavedOnlyLength`.
