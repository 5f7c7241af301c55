# mcp-gateway: a verified model of its cores

mcp-gateway is a daemon that puts many MCP servers ("backends") behind one endpoint. Under its
sockets and subprocesses sit small cores that decide what a client sees: a payload printer, wire
framing, a client session protocol, a pool of backends that sleep and wake, indexes of who listens
to what, and string transforms that name things and keep secrets out of logs. Each Dafny file here
models one of those cores with its branches, constants and error cases, and proves what its
documentation or tests promise of it. Where a promise does not hold as it stands, a failing input or
run is given together with the condition under which it does hold; most of these conditions are proved
exact, and a few are only sufficient.

Code that computes is a set of functions. Code that updates fields is a class whose methods are
proved against those functions. Protocols between `await`s are step systems: one action is what
one task does before it can be interrupted, and results hold for every run.

| file | models |
|---|---|
| `Text.dfy`, `Utf8.dfy`, `Utf8Exact.dfy` | Python's string operations and UTF-8 with `errors="replace"` |
| `Toon*.dfy` | the TOON encoder of `toon.py`, a strict decoder for it, the round trip and its limits, the forms it chooses |
| `Sse.dfy`, `SseBlocks.dfy`, `Chunked.dfy` | the SSE writer and reader, event streams of other servers, the chunked-body reader |
| `HttpHeads.dfy`, `Fragments.dfy`, `Requests.dfy` | request heads, the two byte sniffers, and what becomes of a written request |
| `HttpSession.dfy` | the session of the HTTP client: 404s, renewals, the lock |
| `Pending.dfy`, `Paging.dfy` | request ids, pending futures, cursor pagination |
| `Pool.dfy`, `Backoff.dfy` | waking and sleeping, restart delays |
| `Launches.dfy`, `Reload.dfy`, `Handover.dfy` | spawn identity, a reload as one step, and a reload among calls, wakes and sweeps |
| `Subscriptions.dfy`, `Panels.dfy`, `HttpLink.dfy` | the two-way index, the single-use store, the bounded queue |
| `Naming.dfy`, `NamingChoices.dfy`, `Catalogue.dfy` | public names, resource addresses, the tool listing |
| `Secrets.dfy`, `Dotenv.dfy`, `DotenvLines.dfy` | `${NAME}` references, the credential file |
| `Redaction.dfy`, `LogLines.dfy` | log scrubbing, and the lines printed from scrubbed records |

## Where the code does not do what its text says

Each point is a lemma; the code is modelled as it is.

- A key that is bare but for a final newline is not quoted (`toon.py:55`, `$`), and its document is refused by a strict decoder: `ToonExactness.StrictlyDecodable`, `ToonExactness.NewlineKeyIsLost`.
- A server name that ends in `_` is valid but its tools do not resolve: `Naming.SplitCompose`, `Naming.TrailingUnderscoreMisroutes`, `Catalogue.UnroutableServersCollide`.
- A server name and a public name may end in a newline (`naming.py`, `$`): `NamingChoices.ValidExactly`, `Catalogue.PublishableExactly`.
- A percent escape inside `{...}` is decoded on the way back: `Naming.AddressRoundTrip`, `Naming.EscapedTemplateIsChanged`.
- In the credential file a key that is itself `export`, with a blank before its `=`, is taken for the keyword and refused: `DotenvLines.SpelledReads`.
- A secret with a `*` at an end or `***` inside can be spelled by the placeholders: `Redaction.SoundIsExact`, `Redaction.FourStarsLeak`.
- The message and its arguments are scrubbed apart and formatted afterwards, so `tok%s` with `en123` prints the secret `token123`, and values that are not strings are not looked into. Which messages are safe can be read off their literal text: `LogLines.TemplateHidesExactly`, `LogLines.LineLeaksExactly`, `LogLines.SpelledAcross`.
- A renewal `initialize` that is given up while it is out is forgotten but not cancelled, so its late answer replaces a good session id; without such a handshake no id that stands is replaced unrefused: `HttpSession.LateAnswerReplacesGoodSession`, `HttpSession.LateAnswersAreLeftBehind`, `HttpSession.NobodyLeftBehind`.
- A renewal handshake can store its id and then fail; a 404 on an older id, or a new request, then throws the new one away, and this happens in no other state: `HttpSession.OlderRefusalReplacesUnfinished`, `HttpSession.OnlyItsOwnRefusal`, `HttpSession.ThrownForAnotherExactly`.
- A 404 on an id adopted between reading the id and connecting is taken for a 404 on the older one, and the retry carries the refused id: `HttpSession.RefusedIdIsRepeatedExactly`, `HttpSession.RetryMayCarryTheRefusedId`.
- `true` as a reply id answers request 1: `Pending.AcceptedIds`.
- Cancelling the call that is waking a backend leaves it starting for good, as far as calls, wakes and sweeps go: `Pool.StrandedByCancel`, `Pool.StrandedForever`.
- A call that arrives while a backend is falling asleep is refused rather than waking it: `Pool.RefusedOnArrival`, `Pool.RefusedUnderTheLock`.
- A reload that removes or replaces a backend while a call is starting it leaves the started process behind, with nothing that would stop it: `Handover.StoppedForGoodExactly`, `Handover.OrphansStay`, `Handover.RemovedButRunning`.
- A reload starts a backend without the wake lock, so a call that arrives meanwhile is refused although the start may yet succeed: `Handover.TurnedAwayWhileLaunching`, `Handover.WaiterRefusedExactly`.
- While a changed backend is out of the pool its callers are told that its name is unknown, not, as the text has it (`router.py:69-75`), that it restarts and they should retry: `Handover.UnknownWhileReplaced`.
- The working directory takes part in `spawn_identity` unresolved, so rotating a secret used only there restarts nothing: `Launches.DirectoryRotationIsMissed`.
- A client may subscribe under a differently spelled scheme; removing the backend misses that subscription: `SubscriptionIndex.UnderExactly`, `SubscriptionIndex.CapitalsAreMissed`.
- A line of a message that ends in a carriage return loses it on the SSE wire: `Sse.DeliveredExactly`.
- Messages waiting for a stream are lost when the stream that takes over is already dead: `LinkRuns.AttachLosesExactly`.
- The restart delay is looked up before the handshake and set after it, and nothing keeps two restarts apart, so attempts that overlap fail together as often as they like: `Backoff.OverlapBreaksTheDelay`, `Backoff.AnyNumberAtOnce`, `Backoff.SleepHidesAnAttempt`.
- From the 1026th failure on the restart delay raises: `Backoff.DelayOverflows`.
- The 64 KiB limit on a head counts what has arrived so far, so a longer head passes or fails by how it is cut: `Fragments.FragmentsDoNotShow`.

## Model

| member | source | states |
|---|---|---|
| ToonExactness.StrictlyDecodable | src/mcp_gateway/toon.py:71-270 | for every JSON value of the fragment: the document is read back strictly as the same value (objects as maps) if and only if no key is bare but for a final newline; otherwise a strict decoder refuses it |
| ToonInjective.EncodingIsInjective | src/mcp_gateway/toon.py:71-84 | payloads of different meaning never share a document, whatever keys they hold |
| ToonInjective.DocumentCloses | src/mcp_gateway/toon.py:265-270 | replacing, in the text alone, each newline that no line can go on from gives the document of the payload with its newline keys replaced the same way |
| ToonExactness.NewlineKeyIsLost | src/mcp_gateway/toon.py:55 | the one-field payload with key `a\n` encodes to a document that is refused |
| ToonExactness.ReorderedMeans | src/mcp_gateway/toon.py:167-212 | writing table rows in the header's column order changes no value |
| ToonExactness.BreaksRefused | src/mcp_gateway/toon.py:95-110 | any document with a newline inside a key's line is refused by the decoder |
| ToonDocuments.DecodeEncode | src/mcp_gateway/toon.py:71-84 | without newline keys decoding returns the value itself, rows in header order: the four layouts are told apart, every row has the header's cells, every count is right |
| ToonRoundTrip.BodyReads | src/mcp_gateway/toon.py:113-137 | after an array's header the decoder reads back all its items, in whichever layout, and stops where the array ends |
| ToonTokens.TokenReads | src/mcp_gateway/toon.py:219-262 | a scalar's token is read back as that scalar: quoting keeps strings apart from numbers, words and structure |
| ToonTokens.KeyReads | src/mcp_gateway/toon.py:265-270 | a key, bare or quoted, is read back up to where it ends |
| ToonTokens.RowReads | src/mcp_gateway/toon.py:205-212 | a row's cells, nested groups flattened, are put back under the header's columns |
| ToonEncoder.Encode | src/mcp_gateway/toon.py:71-84 | the recursive printer produces the document the round trip is about |
| ToonEncoder.TabularFields | src/mcp_gateway/toon.py:167-195 | the loop over keys finds the columns, or none, exactly when every item fits one header |
| ToonEncoder.ArrayLines | src/mcp_gateway/toon.py:113-137 | the lines of an array in each of its four forms |
| ToonEncoder.ItemLines | src/mcp_gateway/toon.py:140-164 | the lines of one entry, first field on the hyphen line and the rest aligned under it |
| ToonEncoder.ObjectLines | src/mcp_gateway/toon.py:88-92 | the loop over an object gives its fields' lines in order |
| ToonEncoder.FieldLines | src/mcp_gateway/toon.py:95-110 | the lines of one field, an empty object told apart from an empty array |
| ToonEncoder.ListLines | src/mcp_gateway/toon.py:134-137 | the loop over a list gives its entries' lines in order |
| ToonEncoder.EntryLines | src/mcp_gateway/toon.py:156-164 | the loop over an entry's fields, the first one after the hyphen |
| ToonChoices.TableExactly | src/mcp_gateway/toon.py:167-195 | an array is a table if and only if its items are uniform: non-empty objects with one set of keys, each key's values all primitive or uniform in turn |
| ToonChoices.HeaderNames | src/mcp_gateway/toon.py:167-195 | the header names the first item's keys in order, a leaf for a column of primitives and a group with its own header for any other |
| ToonChoices.LayoutExactly | src/mcp_gateway/toon.py:113-137 | an array is written as a row if and only if all its items are primitive, as a table if and only if they are uniform, and as a list otherwise |
| ToonChoices.BareExactly | src/mcp_gateway/toon.py:243-256 | a string is written without quotes if and only if it has no space at its ends, no `-` or `#` in front, no structural or control character, and is neither a word of the format nor a number |
| ToonChoices.BareIfReadBack | src/mcp_gateway/toon.py:243-256 | a string is written without quotes if and only if it has no space at its ends and no `-` or `#` in front and the bare token is read back as it |
| ToonChoices.NumeralExactly | src/mcp_gateway/toon.py:59 | a text looks numeric if and only if it is a sign, digits with a point, and an exponent, each but the digits optional, and perhaps a newline |
| ToonChoices.EscapesExactly | src/mcp_gateway/toon.py:259-262 | a character stays itself if and only if it is no quote, backslash or control character; five have a short escape |
| ToonChoices.KeyBareExactly | src/mcp_gateway/toon.py:265-267 | a key is written without quotes if and only if it is a letter or underscore and letters, digits, underscores and dots after it, or such a word and a newline |
| Sse.Events | src/mcp_gateway/mcp_http.py:121-153 | the reading loop fails exactly when some chunk makes the unfinished line too long, and otherwise yields the events of the whole body |
| Sse.CutsDoNotShow | src/mcp_gateway/mcp_http.py:121-153 | two ways of cutting one body give the same events |
| Sse.SplitOctets | src/mcp_gateway/mcp_http.py:136 | splitting encoded bytes at newline bytes gives the encoded lines: no other character brings that byte |
| Sse.FramesArrive | src/mcp_gateway/transport_http.py:221-231 | frames and keepalives, encoded as UTF-8 and cut anywhere, inside a character or not, are read back as the events they mean |
| Sse.DeliveredExactly | src/mcp_gateway/transport_http.py:221-231 | a message arrives unchanged if and only if none of its lines ends in a carriage return |
| Sse.NumberedFramesArrive | src/mcp_gateway/transport_http.py:321-330 | under that condition the ids and messages arrive as sent, in order, keepalives left out |
| SseBlocks.BlockReads | src/mcp_gateway/mcp_http.py:136-153 | any block of data, event, id and other fields and comments, with or without the space, is one event with its data lines joined and the last id if it has data and its last event name is empty or `message`, and none otherwise |
| SseBlocks.BlocksArrive | src/mcp_gateway/mcp_http.py:121-153 | such blocks, encoded as UTF-8 with either line end and cut anywhere, are read as the events they mean |
| Chunked.ChunkLoop | src/mcp_gateway/mcp_http.py:79-109 | the loop over a chunked body yields its chunks, none empty or over the limit, and says how the body ended |
| Chunked.ReadOnIsRead | src/mcp_gateway/mcp_http.py:79-109 | what the loop yields and how it ends is what the recursive reading of the body says, from any point on |
| Chunked.HexReads | src/mcp_gateway/mcp_http.py:89 | every size has a hexadecimal text, and reads back from it |
| Chunked.HexAnyCase | src/mcp_gateway/mcp_http.py:89 | a size may be spelled with capitals or without |
| Chunked.HexZeros | src/mcp_gateway/mcp_http.py:89 | zeros in front do not change a size |
| Chunked.ChunksRead | src/mcp_gateway/mcp_http.py:79-109 | a body framed as section 7.1 of RFC 9112 allows reads back as the chunks framed: sizes in any case and with leading zeros, extensions on every chunk and on the last, a trailer |
| Chunked.CutIsTruncated | src/mcp_gateway/mcp_http.py:86-98 | a body lost anywhere before the last chunk's size line has come ends in an error, after exactly the chunks that came whole |
| Chunked.OverLimitStops | src/mcp_gateway/mcp_http.py:92-93 | a chunk over the limit ends the loop in an error, after the chunks before it |
| Chunked.NoSizeStops | src/mcp_gateway/mcp_http.py:89 | a size that is no number ends the loop in an error, after the chunks before it |
| Chunked.NoSizeEnds | src/mcp_gateway/mcp_http.py:89-91 | a size line without a size ends the body |
| Chunked.StreamThroughChunks | src/mcp_gateway/mcp_http.py:79-153 | the encoded bytes of numbered frames, sent through chunked framing in any pieces, arrive as the list sent |
| Fragments.FragmentsDoNotShow | src/mcp_gateway/transport_ws.py:507-532 | every way of cutting the bytes takes the connection to the same place if and only if the head, but for its last byte, is within 64 KiB |
| Fragments.WhatArrives | src/mcp_gateway/transport_http.py:532-559 | whatever the cuts, the library gets every byte in order, and the HTTP side dispatches the head and body of a single read |
| Fragments.DispatchedOnce | src/mcp_gateway/transport_http.py:532-538 | nothing received later changes what was dispatched |
| Fragments.FeedIsOneShot | src/mcp_gateway/transport_http.py:532-559 | feeding the next piece is the same as reading both at once, through every error answer |
| Fragments.UnendedHead | src/mcp_gateway/transport_http.py:540-546 | a head that has not ended is waited for up to 64 KiB and then refused |
| Fragments.AnyPieces | src/mcp_gateway/transport_ws.py:507-532 | any list of pieces takes the connection where their concatenation does, when the head fits |
| Fragments.LongHeadShows | src/mcp_gateway/transport_ws.py:513-518 | a head that does not fit has a cut that closes the connection although one read would not |
| FragmentObjects.HttpProtocol.DataReceived | src/mcp_gateway/transport_http.py:532-559 | the fields move as the request state does |
| FragmentObjects.DivertingConnection.DataReceived | src/mcp_gateway/transport_ws.py:507-532 | the fields move as the connection state does, before and after the decision |
| HttpHeads.ParseHead | src/mcp_gateway/transport_http.py:159-183 | the header loop: repeated headers joined in order, a line without a colon refuses the head |
| HttpHeads.ReadExactly | src/mcp_gateway/transport_http.py:159-183 | a head is read if and only if its request line has three parts, the last a version of HTTP, and every other line is empty or has a colon; each header then has the values given to its name, joined in order |
| HttpHeads.WrittenHeadReads | src/mcp_gateway/transport_http.py:159-183 | a head that was written is read back: verb, target, and for every name all its values in order |
| HttpHeads.LinesSplitExactly | src/mcp_gateway/transport_http.py:169 | only a carriage return and a newline together end a line of a head |
| Requests.VerbInCapitals | src/mcp_gateway/transport_http.py:183 | the verb of a head is the same letters in capitals |
| Requests.DivertedExactly | src/mcp_gateway/transport_ws.py:574-585 | a written request leaves the WebSocket library if and only if its path is `/mcp`, with or without a query, and no upgrade field, in any case, mentions WebSocket |
| Requests.PathWithHost | src/mcp_gateway/transport_http.py:132-134 | a scheme and a host before the path are not part of it, and a target without a path means the root |
| Requests.RequestBecomes | src/mcp_gateway/transport_http.py:549-559 | a written request is refused with 400 for a length that is negative or no number, with 413 for one over 50 MiB, waited for, or dispatched with exactly as many bytes of what follows the head |
| Requests.RequestArrives | src/mcp_gateway/transport_ws.py:507-532 | however it is cut, a written request whose head fits goes where its path and fields say, whole |
| Requests.BodyArrives | src/mcp_gateway/transport_http.py:549-559 | a body of up to 50 MiB that is announced is dispatched whole, and nothing after it |
| HttpSession.OnlyItsOwnRefusal | src/mcp_gateway/mcp_http.py:395-420 | over all runs an id is replaced only by a renewal, its handshake or an orphaned one; a renewal throws it away if and only if the handshake that brought it has not finished or the task's own request carried exactly that id, read it first, and was answered 404 |
| HttpSession.ThrownForAnotherExactly | src/mcp_gateway/mcp_http.py:493-508 | from a reachable state some run throws the id in use away for a task that was not refused with it if and only if the handshake that brought it has not finished |
| HttpSession.OlderRefusalReplacesUnfinished | src/mcp_gateway/mcp_http.py:493-508 | a reachable run in which a 404 on an older id throws away one whose handshake did not finish |
| HttpSession.OneRenewalPerRefusal | src/mcp_gateway/mcp_http.py:493-508 | along every run the tasks that renew because of one id are at most one, and one more for each handshake broken off, however many requests the id was refused to |
| HttpSession.EachIdReplacedOnce | src/mcp_gateway/mcp_http.py:493-508 | along every run no id is thrown away twice, and none thrown away comes back |
| HttpSession.EveryRunIsBounded | src/mcp_gateway/mcp_http.py:370-424 | a request is sent at most twice, one renewal runs at a time, an exchange not cancelled ends with its future settled or given up |
| HttpSession.RunKeeps | src/mcp_gateway/mcp_http.py:370-515 | every action of every task keeps the invariant: ids known, one lock holder, attempts counted, a retry away from the id it gave up |
| HttpSession.RetryIsElsewhere | src/mcp_gateway/mcp_http.py:389-409 | the second attempt never carries the id the first had read |
| HttpSession.RefusedIsSentAgain | src/mcp_gateway/mcp_http.py:389-409 | over every run, unless its connection or its handshake breaks or it is cancelled, a request answered 404 in a session is sent twice before its task ends, and any other once |
| HttpSession.RefusedMayBeSentAgain | src/mcp_gateway/mcp_http.py:401-409 | from every state in which a request is refused for the first time with a session to lose, some run sends it again with the id then in use |
| HttpSession.RenewerSends | src/mcp_gateway/mcp_http.py:389-409 | a task whose handshake brought an id can go on to send its request with the id then in use, for the second time after a 404 of its own |
| HttpSession.EndsAsTold | src/mcp_gateway/mcp_http.py:410-424 | over every run a request is abandoned if and only if its caller gave it up while it waited, and its task ends as cancelled if and only if it was |
| HttpSession.RefusedIdIsRepeatedExactly | src/mcp_gateway/mcp_http.py:389-409 | in a reachable state with a 404 on some id, the retry can come to carry that very id if and only if the id is in use, the task had read another before it connected, this was its first attempt, and the session stands or lacks only the last step of its handshake |
| HttpSession.RepeaterGaveUpAnother | src/mcp_gateway/mcp_http.py:389-409 | a retry that carries the id it was refused with had given up another one |
| HttpSession.NoDeadlock | src/mcp_gateway/mcp_http.py:381-388 | a task that has not ended can move, or waits for one that can |
| HttpSession.LateAnswerReplacesGoodSession | src/mcp_gateway/mcp_stdio.py:627-646 | a reachable run in which a late handshake replaces a good id |
| HttpSession.LateAnswersAreLeftBehind | src/mcp_gateway/mcp_stdio.py:627-646 | along every run the late handshakes adopted and those still out are together the ones abandoned while out |
| HttpSession.NobodyLeftBehind | src/mcp_gateway/mcp_stdio.py:627-646 | after any run that abandoned no handshake, an id that stands is replaced if and only if a task refused with it renews |
| HttpSession.RetryMayCarryTheRefusedId | src/mcp_gateway/mcp_http.py:628 | a reachable run in which the retry carries the id just refused |
| Pending.IdsCountUp | src/mcp_gateway/mcp_stdio.py:654-657 | along every run ids are counted up and never repeat |
| Pending.SettledOnlyByItsOwn | src/mcp_gateway/mcp_stdio.py:672-693 | a step settles a future if and only if it is open and the step is its own reply, its own timeout or cancellation, or a failure while it is pending |
| Pending.SettledForGood | src/mcp_gateway/mcp_stdio.py:735-741 | a settled future keeps its outcome and a forgotten id never becomes pending again, over every further run |
| Pending.ToldExactly | src/mcp_gateway/mcp_stdio.py:627-646 | over every run the server is told to stop working on a request if and only if it was given up and is not the handshake |
| Pending.NeverStuck | src/mcp_gateway/mcp_stdio.py:648-701 | a request that is not over can always go on by the way out its future calls for, and a new one can be issued if and only if none is being written |
| Pending.PendingIsExact | src/mcp_gateway/mcp_stdio.py:627-701 | in every reachable state the open pending requests are exactly those issued and neither settled nor abandoned |
| Pending.RunKeeps | src/mcp_gateway/mcp_stdio.py:627-701 | every action keeps the invariant of the table, over all runs |
| Pending.StrayRepliesAreDiscarded | src/mcp_gateway/mcp_stdio.py:735-741 | a reply changes nothing if and only if its id is not pending |
| Pending.RepliesCommute | src/mcp_gateway/mcp_stdio.py:735-741 | replies to different requests may arrive in any order |
| Pending.FirstReplyWins | src/mcp_gateway/mcp_stdio.py:735-741 | of two replies to one request the second is discarded |
| Pending.AcceptedIds | src/mcp_gateway/mcp_stdio.py:735-736 | which JSON ids answer a request: its number, and `true` for the first |
| PendingClient.Client.Issue | src/mcp_gateway/mcp_stdio.py:648-666 | the next id gets a fresh open future in the table |
| PendingClient.Client.WriteFailed | src/mcp_gateway/mcp_stdio.py:667-669 | a request whose write failed is forgotten |
| PendingClient.Client.Expire | src/mcp_gateway/mcp_stdio.py:671-689 | the future of a request that times out or is cancelled is cancelled while the table still names it |
| PendingClient.Client.Finish | src/mcp_gateway/mcp_stdio.py:692-693 | an answered or failed request leaves the table |
| PendingClient.Client.Resolve | src/mcp_gateway/mcp_stdio.py:735-741 | the table and the futures after a reply, known or not |
| PendingClient.Client.Abandon | src/mcp_gateway/mcp_stdio.py:627-646 | the id is forgotten before the server is told; a handshake is not announced |
| PendingClient.Client.FailPending | src/mcp_gateway/mcp_stdio.py:819-823 | every open future of the old table fails and the table is empty |
| Paging.ListAll | src/mcp_gateway/mcp_stdio.py:483-518 | the walk succeeds if and only if some page below the ceiling ends the list with all earlier cursors usable and distinct; it sends each received cursor once and returns all items in order |
| Pool.CallsAreCounted | src/mcp_gateway/backend.py:309-325 | over all interleavings the counter holds exactly the open calls of each session |
| Pool.OriginIsTheOnlyCaller | src/mcp_gateway/backend.py:327-345 | a server's question goes to a session if and only if it alone has calls open |
| Pool.SweepSparesTheBusy | src/mcp_gateway/supervisor.py:211-233 | only the sweep takes a running client away, and never one with an open call or used within its time to live, though its clock reading is stale |
| Pool.SweptExactly | src/mcp_gateway/supervisor.py:220-233 | the sweep takes a running client away if and only if there is a time to live, the backend is not exempt, no call is open, and by the sweep's reading the last use is at least that long ago |
| Pool.TouchedByEveryCall | src/mcp_gateway/backend.py:518-521 | over every run the time the sweep measures from is that of the last call opened |
| Pool.OpenCallsHaveAClient | src/mcp_gateway/router.py:95-112 | a call in flight always has a running client |
| Pool.OneSpawnPerSleep | src/mcp_gateway/supervisor.py:182-209 | each sleep is followed by at most one spawn, by one starter at a time |
| Pool.RunKeeps | src/mcp_gateway/supervisor.py:182-233 | every action keeps the invariant of the backend, its calls, lock and counter, over all runs |
| Pool.StrandedByCancel | src/mcp_gateway/backend.py:358-391 | a backend is left starting with nobody starting it if and only if the starting call is cancelled |
| Pool.StrandedForever | src/mcp_gateway/supervisor.py:182-209 | no run of calls, wakes and sweeps gets it out of that state |
| Pool.CancelledStartStrands | src/mcp_gateway/supervisor.py:199-209 | such a run exists |
| Pool.RefusedOnArrival | src/mcp_gateway/router.py:54-64 | a call is refused at once if and only if the backend failed or is falling asleep, a listing also while it starts |
| Pool.RefusedUnderTheLock | src/mcp_gateway/supervisor.py:182-209 | a call that waited for the wake lock is refused when it gets it if and only if the backend failed, was stranded, or is falling asleep again |
| Pool.OpenedExactly | src/mcp_gateway/router.py:95-112 | a call goes out on arrival, under the lock or when its own start succeeds, if and only if the backend then runs and it is no listing |
| Backoff.FailuresAreSpread | src/mcp_gateway/backend.py:66-77 | if no attempt begins while another is under way, k failed starts in a row span at least 2^(k-2)-1 seconds for 2 <= k <= 8 and 63+60(k-8) beyond, whatever refused attempts, stops and sleeps fall between |
| Backoff.LoneFailuresWait | src/mcp_gateway/backend.py:347-391 | in every run, whatever overlaps, a failed attempt during which no other ended keeps its delay after the failure before it, and any other comes no earlier than that failure |
| Backoff.OverlapBreaksTheDelay | src/mcp_gateway/backend.py:360-391 | whenever two attempts are under way after a failure, both can fail at one instant although the second owed a second or more |
| Backoff.AnyNumberAtOnce | src/mcp_gateway/backend.py:571-581 | for every k some run has k failures in a row at one instant |
| Backoff.LookingIsEnough | src/mcp_gateway/backend.py:571-581 | while nobody stops the backend or puts it to sleep, callers that start and restart it only when its status is neither starting nor restarting never overlap |
| Backoff.SleepHidesAnAttempt | src/mcp_gateway/backend.py:523-539 | a reachable run in which such a caller overlaps: a sleep that ends during a restart makes it read as asleep |
| Backoff.RunKeeps | src/mcp_gateway/backend.py:347-581 | every step of every caller keeps the floor that of the last failure, and the failures spaced |
| Backoff.RefusalChangesNothing | src/mcp_gateway/backend.py:456-477 | a refused start or restart changes no field, and refusals are exactly the attempts before the floor |
| Backoff.DelaySchedule | src/mcp_gateway/backend.py:66-77 | no delay after the first failure, one second after the second, doubled after each further one, never more than sixty |
| Backoff.DisabledNeverStarts | src/mcp_gateway/backend.py:355-357 | over every run a disabled backend has no client and no handshake |
| Backoff.StatusTells | src/mcp_gateway/backend.py:499-516 | over every run a failed backend has no client and a reason, and one with a client has a start time |
| Backoff.StartTells | src/mcp_gateway/backend.py:347-391 | a start is refused, left alone for a disabled backend, or ends serving with its failures forgotten, or failed with one more |
| Backoff.RestartTells | src/mcp_gateway/backend.py:571-581 | a restart is refused before anything is torn down, and otherwise counted and attempted like a start |
| Backoff.StopTells | src/mcp_gateway/backend.py:509-516 | a stop lets the client go and leaves a disabled backend disabled |
| Backoff.SleepTells | src/mcp_gateway/backend.py:523-539 | only a running backend is put to sleep, its failures untouched |
| Backoff.InOneGo | src/mcp_gateway/backend.py:509-539 | a stop and a sleep that wait for the old client, with nothing in between, do what they do without one |
| Backoff.AtOnce | src/mcp_gateway/backend.py:509-539 | without a client they do not wait |
| Backoff.RestartInOneGo | src/mcp_gateway/backend.py:571-581 | a restart that is not refused and that nothing interrupts comes to its handshake and to its end |
| Backoff.StartInOneGo | src/mcp_gateway/backend.py:347-391 | and so does a start |
| Backoff.DelayOverflows | src/mcp_gateway/backend.py:77 | the failure handler raises if and only if 1025 failures precede, and then leaves the floor alone |
| BackendObjects.Backend.BeginStart | src/mcp_gateway/backend.py:347-371 | the fields when a start comes to its handshake, or is refused |
| BackendObjects.Backend.EndStart | src/mcp_gateway/backend.py:373-391 | the fields when the handshake is over, failed or serving |
| BackendObjects.Backend.Start | src/mcp_gateway/backend.py:347-391 | the fields after a start that nothing interrupted |
| BackendObjects.Backend.RestartOn | src/mcp_gateway/backend.py:579-581 | the fields when a restart, its old client gone, comes to its handshake or is refused |
| BackendObjects.Backend.Fail | src/mcp_gateway/backend.py:499-507 | the fields after a failure, the floor set from its time |
| BackendObjects.Backend.Restart | src/mcp_gateway/backend.py:571-581 | the fields after a restart that nothing interrupted, refused before anything is torn down |
| BackendObjects.Backend.Sleep | src/mcp_gateway/backend.py:523-539 | only a running backend sleeps, and its failure counters stay |
| BackendObjects.Backend.BeginStop | src/mcp_gateway/backend.py:509-513 | the client is let go, and whether there was one to wait for |
| BackendObjects.Backend.EndStop | src/mcp_gateway/backend.py:515-516 | a disabled backend stays disabled, any other is stopped |
| BackendObjects.Backend.Stop | src/mcp_gateway/backend.py:509-516 | a stopped backend has no client, and a disabled one stays disabled |
| Launches.RotationIsNoticed | src/mcp_gateway/supervisor.py:246-273 | a rotated credential changes the identity if and only if it changes a resolved header or variable |
| Launches.SameLaunchExactly | src/mcp_gateway/supervisor.py:246-273 | two entries have one identity if and only if address, command, arguments, directory, mode, time limits, enabling, and every header and variable, resolved, agree |
| Launches.EnvironmentTells | src/mcp_gateway/backend.py:140-173 | a child's variable is its own entry, resolved, or else the daemon's, if the mode, the allowlist or the passthrough lets it through |
| Launches.DirectoryRotationIsMissed | src/mcp_gateway/supervisor.py:265 | one entry and two stores with different working directories and the same identity |
| Reload.PlanPartitions | src/mcp_gateway/supervisor.py:275-290 | old and new names are partitioned into added, removed, changed and kept |
| Reload.KeptExactly | src/mcp_gateway/supervisor.py:283-289 | an entry is kept if and only if its identity is unchanged |
| Reload.HaltedTells | src/mcp_gateway/supervisor.py:304-318 | a backend that a reload takes out has no client and is stopped; only a disabled one that is removed stays disabled |
| Reload.Supervisor.Reload | src/mcp_gateway/supervisor.py:292-334 | the pool's names are the new configuration's; kept backends are the same objects with client, start time and counters untouched; removed and changed ones are stopped; changed and added ones are new objects |
| Reload.Supervisor.StopAll | src/mcp_gateway/supervisor.py:304-318 | the named backends leave the pool stopped, the others untouched |
| Reload.Supervisor.Build | src/mcp_gateway/supervisor.py:320-324 | the named backends are new, filed under their names, and the enabled ones started; exactly the failed ones are reported |
| Reload.Supervisor.Refresh | src/mcp_gateway/supervisor.py:326-332 | kept backends report from the new entry and store and change nothing else |
| Reload.Supervisor.TakeOut | src/mcp_gateway/supervisor.py:304-318 | after the first half the pool holds exactly the kept backends, untouched |
| Reload.Supervisor.PutIn | src/mcp_gateway/supervisor.py:320-334 | after the second half the pool holds exactly the new configuration's names |
| Reload.Supervisor.MakePlan | src/mcp_gateway/supervisor.py:275-290 | the plan, with its partition name by name |
| Handover.CutOffExactly | src/mcp_gateway/supervisor.py:305-318 | over all interleavings a call in flight loses its process if and only if its server is removed, or replaced after the drain has run out of time |
| Handover.KeptIsLeftAlone | src/mcp_gateway/supervisor.py:326-332 | a server that reloads keep stays the same object, and each of its calls keeps its process, over every run of calls, wakes and sweeps |
| Handover.StoppedForGoodExactly | src/mcp_gateway/backend.py:509-516 | what a reload stops can have a process again if and only if a call was starting it at that moment, or was waiting for it while it fell asleep |
| Handover.OrphanedExactly | src/mcp_gateway/backend.py:380-381 | a process is left over exactly when a start succeeds after its object was stopped |
| Handover.OrphansStay | src/mcp_gateway/supervisor.py:292-334 | no run of calls, sweeps and further reloads ends such a process, unless the sweep was already looking at it |
| Handover.RemovedButRunning | src/mcp_gateway/supervisor.py:305-308 | a reachable run after which the server is gone from the pool and its process runs |
| Handover.WaiterRefusedExactly | src/mcp_gateway/supervisor.py:199-209 | a call that waited for the wake lock of the object in the pool is refused if and only if that failed, is falling asleep, or is starting without the lock |
| Handover.ArrivesExactly | src/mcp_gateway/router.py:54-64 | a call that arrives goes out if and only if its server runs and is not falling asleep, waits if and only if it is asleep or starting, and finds no such server if and only if there is none in the pool |
| Handover.SweptExactly | src/mcp_gateway/supervisor.py:220-233 | the sweep takes a process if and only if its object runs, has no call out and is idle |
| Handover.BuildTells | src/mcp_gateway/supervisor.py:320-324 | a disabled entry is built and left alone, any other is started or fails at once |
| Handover.DormantForGood | src/mcp_gateway/backend.py:355-357 | an object built disabled, or failed with nobody waiting for it, never has a process, over every run |
| Handover.TurnedAwayWhileLaunching | src/mcp_gateway/supervisor.py:320-324 | a call that arrives while a reload starts the backend is told to wait, then refused, and the start succeeds |
| Handover.UnknownWhileReplaced | src/mcp_gateway/supervisor.py:313-321 | from the time a changed server is taken out until it is built again, a call finds no such server |
| Handover.RunKeeps | src/mcp_gateway/supervisor.py:182-334 | every action of calls, sweep and reload keeps the invariant: one starter at a time, every call in flight with a process unless its object was stopped |
| GatewayReload.Gateway.Reload | src/mcp_gateway/gateway.py:773-782 | after a reload the subscriptions and hidden sets of the removed backends are gone and all others stay |
| GatewayReload.Gateway.Forget | src/mcp_gateway/gateway.py:777-782 | the loop over the removed names drops their subscriptions and hidden sets |
| GatewayReload.NoAddressOfTheRemoved | src/mcp_gateway/gateway.py:777-778 | no remaining address in the gateway's own spelling names a removed backend |
| SubscriptionIndex.Subscriptions.Add | src/mcp_gateway/notifications.py:216-228 | the set of pairs gains one, and the answer says whether it was new |
| SubscriptionIndex.Subscriptions.Remove | src/mcp_gateway/notifications.py:230-239 | the set of pairs loses one, and the answer says whether it was there |
| SubscriptionIndex.Subscriptions.DropSession | src/mcp_gateway/notifications.py:241-244 | exactly one session's pairs go, both indexes stay inverse without empty buckets |
| SubscriptionIndex.Subscriptions.DropUri | src/mcp_gateway/notifications.py:268-276 | exactly one address's pairs go |
| SubscriptionIndex.Subscriptions.DropBackend | src/mcp_gateway/notifications.py:246-249 | exactly the pairs under the backend's prefix go |
| SubscriptionIndex.Subscriptions.WatchedUris | src/mcp_gateway/notifications.py:278-281 | the addresses somebody listens to |
| SubscriptionIndex.Subscriptions.SessionsFor | src/mcp_gateway/notifications.py:259-262 | exactly the sessions that listen to an address |
| SubscriptionIndex.Subscriptions.UrisOf | src/mcp_gateway/notifications.py:264-266 | exactly the addresses a session listens to |
| SubscriptionIndex.Subscriptions.UrisFor | src/mcp_gateway/notifications.py:283-286 | exactly the listened-to addresses under a backend's prefix |
| SubscriptionIndex.Subscriptions.DiscardUri | src/mcp_gateway/notifications.py:251-257 | one index loses a value, and the bucket with it when it was the last |
| SubscriptionIndex.UnderExactly | src/mcp_gateway/notifications.py:283-286 | a URI is under a backend's prefix if and only if it decodes to that backend and spells the scheme as the gateway does |
| SubscriptionIndex.AddressesAreUnder | src/mcp_gateway/naming.py:118-147 | every address the gateway makes is under its own backend and no other |
| SubscriptionIndex.CapitalsAreMissed | src/mcp_gateway/gateway.py:495-497 | a URI that decodes to a backend and is not under its prefix |
| Panels.LoadsExactly | src/mcp_gateway/panels.py:222-244 | after any run a token loads if and only if a mint of the run made it, it has not lapsed, and was not loaded, evicted or revoked; what loads has that mint's body, policy and owner and lapses its time to live after it |
| Panels.LoadsOnce | src/mcp_gateway/panels.py:232-244 | over every run a token loads at most once |
| Panels.MintedByItsOwn | src/mcp_gateway/panels.py:205-230 | what is on record of a token is the one mint of the run that made it |
| Panels.SpentAreLoaded | src/mcp_gateway/panels.py:232-244 | the tokens spent are those that loaded |
| Panels.OwnersAreBounded | src/mcp_gateway/panels.py:205-230 | no owner ever has more than 64 live panels |
| Panels.RunKeeps | src/mcp_gateway/panels.py:186-256 | every mint, load and revocation keeps the store and what became of each token in step |
| Panels.EvictionIsFair | src/mcp_gateway/panels.py:213-222 | minting evicts only the same owner's, only at 64, and only the one that lapses first |
| Panels.RevokeLeavesNone | src/mcp_gateway/panels.py:246-251 | a closed connection keeps none of its panels, and the others keep all of theirs |
| PanelStores.PanelStore.Mint | src/mcp_gateway/panels.py:205-230 | the store after a mint: swept, room made, the new panel last |
| PanelStores.PanelStore.Take | src/mcp_gateway/panels.py:232-244 | the store after a load, spent whether or not it was in time |
| PanelStores.PanelStore.RevokeAll | src/mcp_gateway/panels.py:246-251 | the owner's panels go and are counted |
| PanelStores.PanelStore.Sweep | src/mcp_gateway/panels.py:253-256 | exactly the lapsed panels go |
| LinkRuns.InOrderAndLatest | src/mcp_gateway/transport_http.py:243-306 | over every run what is written across all streams is in order of sending without repetition, and what waits is the latest min(k, 64) of the k sent meanwhile |
| LinkRuns.WaitingIsUnstreamed | src/mcp_gateway/transport_http.py:268-276 | k is the number of messages sent since the last stream was lost |
| LinkRuns.Conserved | src/mcp_gateway/transport_http.py:268-289 | with every stream open at attach, each message was written, waits, or was dropped by the full queue |
| LinkRuns.AttachLosesExactly | src/mcp_gateway/transport_http.py:281-289 | an attach loses what waits if and only if the stream is dead and something waits |
| HttpLinks.WrittenInOrder | src/mcp_gateway/transport_http.py:243-306 | what a link has written on all its streams is messages it was sent, in order and each once; the last stream holds its share, numbered in order; what waits is the latest |
| HttpLinks.HttpLink.Send | src/mcp_gateway/transport_http.py:268-276 | a message goes out on a writable stream with the next id, or waits, the oldest dropped |
| HttpLinks.HttpLink.Attach | src/mcp_gateway/transport_http.py:281-289 | the old stream is closed and the new one gets what waited, numbered in order |
| HttpLinks.HttpLink.Detach | src/mcp_gateway/transport_http.py:291-297 | a superseded stream's detach leaves its successor in place |
| HttpLinks.HttpLink.Close | src/mcp_gateway/transport_http.py:302-306 | the stream is closed and let go; what waits keeps waiting |
| HttpLinks.SseStream.Write | src/mcp_gateway/transport_http.py:321-325 | a writable stream numbers and writes the message, any other does nothing |
| Naming.SplitCompose | src/mcp_gateway/naming.py:90-106 | splitting undoes composing if and only if the server name holds no `__` and does not end in `_` |
| Naming.ComposeSplit | src/mcp_gateway/naming.py:95-106 | composing undoes splitting |
| Naming.ValidServerShape | src/mcp_gateway/naming.py:63-87 | a valid server name is not empty and holds neither `/` nor `__` |
| NamingChoices.ValidExactly | src/mcp_gateway/naming.py:63-87 | a name is valid if and only if it is at most 32 characters, holds no `__`, is not `gateway`, and is a letter or digit with letters, digits, underscores and hyphens after it, and perhaps a newline |
| Naming.TrailingUnderscoreMisroutes | src/mcp_gateway/naming.py:63-106 | two valid servers and tools with one public name |
| Naming.EncodeUriLoop | src/mcp_gateway/naming.py:118-147 | the loop over template expressions builds the address |
| Naming.AddressRoundTrip | src/mcp_gateway/naming.py:118-170 | an address gives back its server always, and its URI if and only if no template expression holds a percent escape |
| Naming.AddressesAreDistinct | src/mcp_gateway/naming.py:118-147 | distinct resources of valid servers never share an address, whether or not it gives them back |
| NamingChoices.QuoteExactly | src/mcp_gateway/naming.py:140-146 | quoted text holds only letters, digits, `_.-~` and percent escapes, and is unchanged if and only if it held only the first |
| NamingChoices.TemplatesAreKept | src/mcp_gateway/naming.py:118-147 | an address keeps each template expression as it was written and quotes all the rest |
| NamingChoices.AddressReads | src/mcp_gateway/naming.py:150-170 | a gateway address, its scheme in any case, names the server between the slashes and, unquoted, what follows |
| NamingChoices.NoBackendRead | src/mcp_gateway/naming.py:166-167 | with nothing before the slash it is refused as naming no backend |
| NamingChoices.NoResourceRead | src/mcp_gateway/naming.py:168-169 | without the slash it is refused as carrying no resource |
| NamingChoices.OtherSchemes | src/mcp_gateway/naming.py:152-157 | any other address without blanks is refused for its scheme |
| NamingChoices.SchemeExactly | src/mcp_gateway/naming.py:152 | what stands before the first colon is the scheme, in small letters, if it may be one, and there is none otherwise; blanks in front do not count |
| NamingChoices.BreaksDoNotCount | src/mcp_gateway/naming.py:152 | nor do tabs and line breaks |
| Naming.EscapedTemplateIsChanged | src/mcp_gateway/naming.py:144 | a template whose address is not given back |
| Utf8.DecodeEncode | src/mcp_gateway/naming.py:170 | UTF-8 decoding undoes encoding |
| Utf8.Resynchronises | src/mcp_gateway/naming.py:170 | decoding with replacement does not reach across the start of a character |
| Utf8Exact.CharDecodes | src/mcp_gateway/mcp_http.py:138 | bytes that begin with the encoding of a character are read as it and what follows |
| Utf8Exact.MalformedDecodes | src/mcp_gateway/mcp_http.py:138 | any other bytes are read as one U+FFFD for the longest part of them that could begin a character, or for one byte, and what follows |
| Utf8Exact.OnePlace | src/mcp_gateway/mcp_http.py:138 | there is one such part only |
| Catalogue.ToolCatalogue.Tools | src/mcp_gateway/catalogue.py:134-180 | every backend's offered tools in order, and per backend the names skipped |
| Catalogue.ToolCatalogue.OneBackend | src/mcp_gateway/catalogue.py:134-180 | the loop over one backend's tools sorts them into published and skipped |
| Catalogue.PublishedOrSkipped | src/mcp_gateway/catalogue.py:134-180 | each named tool is published under its name if and only if that name is acceptable, and reported as skipped if and only if not; the counts add up |
| Catalogue.PublishableExactly | src/mcp_gateway/naming.py:109-115 | a public name is acceptable if and only if it is 1 to 64 letters, digits, underscores and hyphens, and perhaps a newline |
| Catalogue.PublishedResolves | src/mcp_gateway/catalogue.py:206-219 | a published name resolves to its own backend and spelling if and only if the backend's name is routable |
| Catalogue.FoundInPool | src/mcp_gateway/catalogue.py:206-219 | a tool of a routable backend is found under its public name if and only if the backend is in the pool |
| Catalogue.NoSharedNames | src/mcp_gateway/catalogue.py:134-180 | no two routable backends publish one name |
| Catalogue.EveryListedNameRoutes | src/mcp_gateway/catalogue.py:206-219 | every listed name leads to a backend that offered it |
| Catalogue.UnroutableServersCollide | src/mcp_gateway/catalogue.py:134-180 | two valid servers whose listings collide |
| Interpolation.Interpolate | src/mcp_gateway/secrets.py:254-290 | the loop over matches equals the one-pass tokenizer: values are not rescanned, the missing names are the absent references in order, and without a list the first is the error |
| Interpolation.SplicedIsRendered | src/mcp_gateway/secrets.py:51 | replacing the matches a scanner finds is rendering the tokens, for every pattern |
| Interpolation.SpliceOnIsSpliced | src/mcp_gateway/secrets.py:272-290 | the loop from any point on adds exactly the rest, or stops at the first absent reference |
| Interpolation.ReferenceIsValue | src/mcp_gateway/secrets.py:277-287 | a template that is one reference is the stored value |
| Interpolation.TemplateMeans | src/mcp_gateway/secrets.py:254-290 | a template put together from text, references and escaped references means each of them in turn, wherever they stand |
| Interpolation.InterpolateWritten | src/mcp_gateway/secrets.py:254-290 | interpolating such a template gives its meaning with the names that lack a value, or stops at the first of them |
| Interpolation.EscapeIsLiteral | src/mcp_gateway/secrets.py:48-51 | with a `$` before every `${NAME}` any text comes back as it was, from every store |
| Interpolation.LiteralExactly | src/mcp_gateway/secrets.py:254-290 | a template is its own value for every store if and only if it holds no reference |
| Dotenv.Parse | src/mcp_gateway/secrets.py:182-211 | the parsing loop gives the file's values, or the first refused line and why |
| Dotenv.UnquoteBody | src/mcp_gateway/secrets.py:155-174 | the escape loop of a double-quoted value |
| Dotenv.ReadLine | src/mcp_gateway/secrets.py:186-211 | one line is skipped, refused, or gives a key and a value |
| Dotenv.Unquote | src/mcp_gateway/secrets.py:150-175 | single quotes are literal, double quotes escape, anything else is stripped |
| Dotenv.AcceptedExactly | src/mcp_gateway/secrets.py:182-211 | a file is accepted if and only if every line is blank, a comment or a good assignment and no key is set twice |
| DotenvLines.RefusedAtFirst | src/mcp_gateway/secrets.py:182-211 | a file is refused at its first wrong line, with that line's number and reason |
| Dotenv.FileRoundTrip | src/mcp_gateway/secrets.py:150-211 | parsing undoes a printer of `KEY="escaped value"` lines if and only if no value holds a line break other than `\n` and `\r` |
| DotenvLines.SpelledReads | src/mcp_gateway/secrets.py:185-210 | blanks around a line, its key, its `=` and its value, and a leading `export`, change nothing, if and only if the key is not itself `export` with a blank after it |
| DotenvLines.PlainValueReads | src/mcp_gateway/secrets.py:175 | a value with no quotes around it is itself |
| DotenvLines.SingleQuotedReads | src/mcp_gateway/secrets.py:151-154 | single quotes are literal, backslashes included |
| DotenvLines.DoubleQuotedReads | src/mcp_gateway/secrets.py:155-174 | double quotes are read as what the steps between them stand for |
| DotenvLines.BodyRefused | src/mcp_gateway/secrets.py:166-170 | an escape that stands for nothing is refused |
| DotenvLines.BodyIsSteps | src/mcp_gateway/secrets.py:159-173 | every double-quoted body is such steps, so the two before tell every case |
| DotenvLines.KeysAreWords | src/mcp_gateway/secrets.py:198 | a key is a letter or underscore, and letters, digits and underscores after it |
| DotenvLines.CommentIsSkipped | src/mcp_gateway/secrets.py:186-188 | blank lines and comments are skipped |
| DotenvLines.NoEqualsIsRefused | src/mcp_gateway/secrets.py:193-195 | any other line without an equals sign is an error |
| DotenvLines.TextLines | src/mcp_gateway/secrets.py:185 | a text has the lines it was put together from, whichever breaks end them |
| Dotenv.ValuesAreClean | src/mcp_gateway/secrets.py:182-211 | no accepted file gives a value with any other line break |
| Redaction.NoSecretSurvives | src/mcp_gateway/logging_redaction.py:61-69 | no known secret is left in the output, for every text and order, if each has no `*` at an end and no `***` inside, or holds a known one that has not |
| Redaction.CoveredDoesNotSurvive | src/mcp_gateway/logging_redaction.py:61-69 | the same for one secret, whatever the others are |
| Redaction.SoundIsExact | src/mcp_gateway/logging_redaction.py:61-69 | a secret is removed from every text if and only if it meets that condition |
| Redaction.StarlessIsSound | src/mcp_gateway/logging_redaction.py:40-42 | a secret without `*` meets it |
| Redaction.ReplaceKeepsTheRest | src/mcp_gateway/logging_redaction.py:68 | what is between the occurrences of a secret is kept, and none of it holds the secret |
| Redaction.CleanTextIsKept | src/mcp_gateway/logging_redaction.py:61-69 | a text with no secret is unchanged |
| Redaction.ScrubIsIdempotent | src/mcp_gateway/logging_redaction.py:61-69 | scrubbing again changes nothing |
| Redaction.FourStarsLeak | src/mcp_gateway/logging_redaction.py:61-69 | a secret of four stars is read out of two placeholders |
| Redaction.RedactingFilter.constructor | src/mcp_gateway/logging_redaction.py:53-59 | the filter's secrets are the long enough values of both sources, each once, longest first |
| Redaction.RedactingFilter.Scrub | src/mcp_gateway/logging_redaction.py:61-69 | the loop over the secrets scrubs a string and leaves anything else alone |
| Redaction.RedactingFilter.Filter | src/mcp_gateway/logging_redaction.py:71-81 | the message and each argument are scrubbed in place, one level deep |
| Redaction.FilteredHides | src/mcp_gateway/logging_redaction.py:61-81 | no scrubbed string holds a secret, and clean ones are as they were |
| LogLines.LineLeaksExactly | src/mcp_gateway/logging_redaction.py:71-81 | the line printed from a scrubbed record holds a secret if and only if a value that is not a string brings it, or it is spelled across the message and its arguments |
| LogLines.SpelledAcross | src/mcp_gateway/logging_redaction.py:71-81 | any secret without stars can be spelled half by the message and half by an argument, both clean, and is then printed |
| LogLines.GuardedIsWhole | src/mcp_gateway/logging_redaction.py:71-81 | a line whose parts meet beside characters that a secret does not hold does not spell it across them |
| LogLines.TemplateHidesExactly | src/mcp_gateway/logging_redaction.py:71-81 | a template prints no secret, whatever strings are put into it, if and only if for each secret that holds no other none of its literals holds the secret, ends into it before an argument, starts out of it after one, or stands inside it between two |
| LogLines.FormattedIsFilled | src/mcp_gateway/logging_redaction.py:71-81 | what is printed from a template is its literals with the texts of the arguments between them |

## Left out

- ToonExactness.StrictlyDecodable: floats are not in the modelled values, nor the limit on converting integers of more than 4300 digits; `\d` in the numeral pattern is read with the decimal digits of Unicode 14.0.
- ToonDocuments.DecodeEncode: the decoder is written here, as the repository has none; it accepts the layouts the encoder writes and refuses what they rule out, not every document the TOON format allows.
- HttpSession.OnlyItsOwnRefusal: renewals asked for by notifications or the GET listener (`_renew_later`) and `stop` are not steps of the model; server ids are assumed never handed out twice.
- HttpSession.EveryRunIsBounded: the session protocol is modelled on values, so aliasing between a task and the client is not captured.
- Pending.AcceptedIds: a reply whose id is a list or an object raises in the lookup and is not modelled; an id that is a float counts as the number it equals.
- Pool.SweepSparesTheBusy: `restart`, `stop` and the recovery sweep take no wake lock and are not steps, and reloads are steps of `Handover`; without restarts the backoff floor cannot stand over a sleeping backend, so it is modelled in `Backoff` alone. The pool is modelled on values, so aliasing is not captured.
- Backoff.FailuresAreSpread: time is a real number; the rounding of sums of clock readings is not modelled, nor is the client object a start that ends late overwrites.
- Launches.RotationIsNoticed: the digest and the joining of its parts are taken to tell different launches apart.
- Reload.Supervisor.Reload: one reload is one step; how its parts fall between calls, wakes and sweeps is modelled in `Handover`. Plans are sets, so the order of starts and of the listing is not captured; whether a start works is an input.
- Handover.StoppedForGoodExactly: objects are values; `restart`, `close_all` and listings that wake are not steps; whether the drain is out of time and whether the sweep finds the backend idle are inputs.
- Fragments.FragmentsDoNotShow: an unbalanced bracket in the target, on which `urlsplit` raises, and a gateway without the HTTP endpoint are not modelled.
- Naming.AddressRoundTrip: lone surrogates, which cannot be encoded, are not in the modelled text, and neither is the error `urlsplit` raises on unbalanced brackets.
- Chunked.ChunksRead: a size is hexadecimal digits; the signs, prefixes and underscores Python's `int` also accepts are not read.
- Redaction.NoSecretSurvives: the condition is exact for one secret (`Redaction.SoundIsExact`); for several it is sufficient.
- LogLines.LineLeaksExactly: directives other than `%s` and `%%`, arguments by name, and the traceback a formatter appends are not modelled.
- Panels.LoadsExactly: tokens are assumed fresh, and the policy is whatever was minted.
- Interpolation.Interpolate: which configuration sites are interpolated (`missing_for`) is not modelled.
- Catalogue.ToolCatalogue.Tools: the listing cache, prompts, resources and the rewriting of tool metadata are not modelled.
- The `Notifier`, log levels, capability tables, visibility beyond the hidden sets, the bridge, the configuration files, the admin modules and the UI: one-branch facts, plumbing or validation.
- Sockets, TLS, subprocesses, signals, the filesystem and JSON text: messages arrive decoded, and what the outside answers is an input.
