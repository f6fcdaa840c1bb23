# FastFire, verified

FastFire is a Go web server. This project models its stateful parts in Dafny and proves what they
keep over whole runs:

- the **sharded websocket hub**: stacks of clients, a separately kept `Count` per stack,
  least-loaded placement, three ways to leave, string addresses, broadcasts;
- the **WebRTC registry**: requests routed to hubs by key, items created, started and completed by
  their own goroutines, connection tables, the one-shot reply channel, and the pacing of Ogg pages;
- the **file cache** with its two-level hashed directory tree, expiry, pruning and sweeper, the
  `Cache(...)` helper before it and the **session store** on it;
- **flash messages** carried from one request to the next, and the **conversion routine** and
  decimal printer everything else leans on.

Each part has two layers. One works on values: a function for every atomic step, runs as sequences
of events, and an account of the same run that knows the *history* only (which clients registered
and left, what was last written, which message nobody has read) and mentions no table, counter,
tree or flag. The other layer is the objects the server has, with fields updated in place and
loops where the source has loops; every method is tied to its step on values, or, for the loops
inside a step, to what the step does. The main theorems
say that over every run the state agrees with the history.

| Part | On values | In place |
|---|---|---|
| websocket hub | `WebsocketHub`, `WebsocketPlacement`, `Address` | `WebsocketServer` |
| WebRTC | `WebrtcRegistry`, `WebrtcConnections`, both together in `WebrtcRuns`; `ReplyChannel`, `OggPacing` | `WebrtcServer`, `ReplyChannel.WebrtObj` |
| cache and sessions | `FileTree`, `CacheKeys`, `FileCache`, `FileCacheRuns` | `FileCacheServer`, `CacheFacade`, `SessionStore` |
| flash messages | `FlashMessages` | `RequestServer` |
| conversions | `Decimal`, `Conversion` | `Conversion.ConvertAssign`, `Decimal.StringInt32` |

Run `dafny verify dfyconfig.toml` to check everything.

## Where the code does not do what one expects

The code is followed as it is; these are the exact conditions proved instead.

- A viewer asking for a camera under its fixed key never joins the saver's item: keys up to 1000 are
  never live, the request is given a key of its own and is always refused
  (`WebrtcRegistry.FixedKeysAreNeverShared`, `ViewerUnderFixedKeyIsRefused`). Under any key a viewer joins
  exactly when an item created under it is not completed (`ViewerJoinsIffUncompleted`).
- A reply sent after the HTTP handler stopped listening blocks its sender, and closing the channel
  under it panics: exactly when there is such a late send and a close after it (`ReplyChannel.BlockedByLateSend`,
  for instance `CloseAfterLateSendPanics`).
- An error message that is a request's only change never reaches the session; it does exactly when
  something else in that request set `Update` (`FlashMessages.WrittenThenStored`, `LoneErrorIsLost`),
  for instance a call of `Session()` (`SessionCallSavesTheError`). The same holds for the mark that
  `OldOrValue`, or a view printing the map itself, leaves (`PeekedThenStored`).
- A conversion through a pointer that fails has already pointed it at a new zero value
  (`Conversion.FailureLeaves`, for instance `FailureThroughPointer`); text that is stored in an integer loses a plus sign or leading zeros,
  so it comes back as it was exactly when it was canonical (`Conversion.TextThroughNumber`).
- `Cache(key, value, 1)` never expires, and more than 9223372036 seconds wraps
  (`CacheFacade.WholeSecondsSurvive`); an expiry whose sum wraps never expires
  (`FileCacheRuns.TimeToLive`).
- A hub created at Unix second 0 would deliver nothing by address (`WebsocketHub.SendReachesTheClient`),
  and a wrapped key counter issues the broadcast sentinel (`WebsocketHub.WrappedCounterIssuesSentinel`).
- An Ogg stream whose granule position goes back adds 2^64 samples each time, so the sample counts
  telescope exactly when it never does (`OggPacing.TelescopesIffNondecreasing`). A page longer than
  9223372036854 milliseconds is given a wrapped duration, which may be negative; the drift is bounded
  exactly when no page is that long (`OggPacing.DriftIsBoundedIffShort`, `LongPageHasNegativeDuration`).

## Model

| member | source | states |
|---|---|---|
| WebsocketHub.EveryRunKeepsCount | controllers/Websocket.go:154-191 | In every reachable state of every run of allocations, registrations, broadcasts, sends, ping failures and unregistrations, each table holds exactly the clients the history calls connected, and Count is the size of that table |
| WebsocketHub.AddedExactlyOnce | controllers/Websocket.go:156-158 | A registration connects a client that was not connected and adds exactly one to Count |
| WebsocketHub.SubtractedExactlyOnce | controllers/Websocket.go:66-74 | A failed targeted write, failed ping or unregistration takes exactly one from Count if the client is still connected and nothing otherwise, so several departures of one client, in any order, count once and the saturating branch is reached from Count 1 only |
| WebsocketHub.BroadcastSubtractsEachOnce | controllers/Websocket.go:163-173 | A broadcast takes from Count exactly the number of connected clients whose write failed, which Count is never below, and exactly those are no longer connected |
| WebsocketHub.CountIsArrivalsLessDepartures | controllers/Websocket.go:60-74 | Conservation: Count is the number of clients that ever registered less those that left, each once |
| WebsocketHub.LiveWasRegistered | routes/Websocket.go:60-67 | A connected client was registered, in an existing stack, under a key between 1 and the number of keys issued there |
| WebsocketHub.SendReachesTheClient | controllers/WebsocketClient.go:42-44 | A connected client's printed key is routed to that very client, if and only if the hub's own key is positive |
| WebsocketHub.SendTargetIff | controllers/Websocket.go:281-303 | A text is delivered if and only if it has four fields that read "ws", this hub's key, a stack of it whose Count is not zero and a client key, none of them zero; with any other hub's key it never is |
| WebsocketHub.LiveKeysDistinct | controllers/WebsocketClient.go:42-44 | Two connected clients never print the same key |
| WebsocketHub.SkippingLosesNobody | controllers/Websocket.go:271-279 | Where Count is the table's size, skipping Count-zero stacks has the same effect as broadcasting to all |
| WebsocketHub.SendAllIsARun | controllers/Websocket.go:271-279 | SendAll equals one broadcast per stack in turn, and afterwards the connected clients are exactly those connected before whose write succeeded |
| WebsocketPlacement.PlacementBalances | controllers/Websocket.go:193-211 | After m placements, each registered before the next and nobody leaving, every one of n stacks has floor(m/n) or ceil(m/n) clients, exactly m mod n of them the higher number, and no two differ by more than one |
| WebsocketPlacement.LevelsOf | controllers/Websocket.go:193-211 | The same as a decomposition m = q*n + r with r stacks at q+1 and the others at q |
| WebsocketServer.WebsocketStack.CountIncrement | controllers/Websocket.go:60-64 | Count plus one modulo 2^64, nothing else changes |
| WebsocketServer.WebsocketStack.CountDecrement | controllers/Websocket.go:66-74 | Count less one, never below zero |
| WebsocketServer.WebsocketStack.DeleteClient | controllers/Websocket.go:42-50 | True exactly when the key was there; afterwards it is not, and no other is touched |
| WebsocketServer.WebsocketStack.HandleRegister | controllers/Websocket.go:156-158 | The register message is the run event of the same name |
| WebsocketServer.WebsocketStack.HandleBroadcast | controllers/Websocket.go:160-183 | For key 0 one write to each client of the table and exactly the failing ones leave; for another key at most one write, to that client |
| WebsocketServer.WebsocketStack.WriteToAll | controllers/Websocket.go:163-173 | Ranging in any order while deleting still attempts exactly one write per client |
| WebsocketServer.WebsocketStack.HandleUnregister | controllers/Websocket.go:184-188 | The client leaves if it is still there, and Count follows |
| WebsocketServer.WebsocketStack.PingFailed | controllers/Websocket.go:133-147 | The failing client leaves if it is still there, whichever client the ping goroutine ends up holding |
| WebsocketServer.WebsocketStack.NewWebsocketClient | controllers/Websocket.go:230-243 | A key one above the last issued, carrying the hub's and the stack's keys |
| WebsocketServer.Websocket.constructor | controllers/Websocket.go:82-110 | At least 50 empty stacks, one per 5000 connections, under keys 1, 2, ... |
| WebsocketServer.Websocket.NewWebsocketStack | controllers/Websocket.go:213-228 | One more empty stack under the next key, the others untouched |
| WebsocketServer.Websocket.NewWebsocketClient | controllers/Websocket.go:193-211 | In any loop order the stack chosen has the least Count, stack 1 if it is among them, and the effect is the allocation event |
| WebsocketServer.Websocket.Register | controllers/Websocket.go:245-253 | The client joins its own stack and no other; an unknown stack changes nothing |
| WebsocketServer.Websocket.Unregister | controllers/Websocket.go:263-269 | The unregister event on its own stack and no other |
| WebsocketServer.Websocket.Send | controllers/Websocket.go:281-303 | At most one write, to the client the text names if it is connected, and never a broadcast: no text makes a targeted send carry client key 0 (`WebsocketHub.SendNeverBroadcasts`) |
| WebsocketServer.Websocket.SendAll | controllers/Websocket.go:271-279 | One write to each client of every stack visited; every table keeps exactly the clients whose write succeeded |
| WebsocketServer.SendAllWritesToEveryone | controllers/Websocket.go:271-279 | After any run SendAll attempts exactly one write to each client the history calls connected, on any stack, and none to anybody else |
| Address.SplitJoin | controllers/Websocket.go:282-282 | Splitting at colons recovers the fields of any joined text without colons in them |
| Address.JoinSplit | controllers/Websocket.go:282-282 | Joining what was split gives back every text |
| Address.ParsePrinted | controllers/Websocket.go:281-303 | Splitting and parsing a printed address recovers the exact triple, for all uint64 values and both address forms |
| Address.PrintIsInjective | controllers/webrtc/Webrtc.go:1164-1166 | Distinct triples print distinct addresses |
| Address.AcceptedAddress | controllers/webrtc/Webrtc.go:1188-1196 | The texts accepted with canonical fields are exactly the printed addresses, so the rest differ only by leading zeros |
| Address.ParseAccepts | controllers/Websocket.go:281-303 | A text is read as a triple if and only if it has exactly four fields, the prefix and the three numbers, each with any zeros before it and nothing else |
| Address.AddressFormat | controllers/WebsocketClient.go:42-44 | The printed form: prefix and decimal numbers with colons between |
| Decimal.StringInt32 | components/Helpers.go:131-150 | For every int32 including the minimum the write position stays inside the 11-byte buffer, the loop ends, the text is the canonical decimal and parses back to n |
| Decimal.DigitsAreCanonical | components/Helpers.go:458-470 | Printed digits have no leading zero and denote the number printed |
| Decimal.CanonicalIsDigits | components/Helpers.go:458-470 | There is no other canonical text of a number |
| Decimal.ParseUintPrints | components/Helpers.go:406-411 | The unsigned parser undoes printing exactly on the numbers that fit the width and refuses the others |
| Decimal.ParseIntPrints | components/Helpers.go:394-399 | The signed parser does, on both sides of zero |
| Decimal.ParseUintRefusesNegative | components/Helpers.go:406-410 | No negative number's text is accepted as unsigned |
| Decimal.ParseUintAccepts | components/Helpers.go:406-411 | The unsigned parser reads a text as n if and only if n is within the width and the text is n's own behind any number of zeros |
| Decimal.ParseIntAccepts | components/Helpers.go:394-399 | The signed parser also takes one sign before that, plus down to zero and minus down to the minimum |
| Conversion.ConvertAssign | components/Helpers.go:208-440 | In place and with its fast paths, the routine stores and answers what the purely textual description does, about which the rows below speak; what a pointer destination pointed at before is not written |
| Conversion.LosslessOrRefused | components/Helpers.go:389-412 | Between any two integer types of any widths: success exactly when the value fits, then the same value; otherwise the destination is as it was |
| Conversion.ThereAndBack | components/Helpers.go:371-412 | Whenever a conversion between integer types succeeds, the way back succeeds too and gives the original |
| Conversion.ThereAndBackThroughText | components/Helpers.go:310-326 | An integer stored in a string or byte slice converts back to itself |
| Conversion.TextThroughNumber | components/Helpers.go:389-412 | Text stored in an integer and printed again is the same text if and only if it was canonical |
| Conversion.CanonicalIntIsPrinted | components/Helpers.go:458-470 | Canonical texts are exactly the texts some integer prints |
| Conversion.PlusSign | components/Helpers.go:389-412 | A leading plus is refused by every unsigned type and ignored by the signed ones |
| Conversion.TextIsKept | components/Helpers.go:211-256 | Text stored in a string or a byte slice is always accepted and kept exactly, so string to bytes to string, and back, is the identity |
| Conversion.TextOfTheOthers | components/Helpers.go:310-326 | In a string or byte slice a number is its canonical decimal text, a boolean "true" or "false"; a nil slice is empty text in a string and stays nil in a slice |
| Conversion.WhatBooleansAccept | components/Helpers.go:333-338 | A boolean destination accepts booleans, of the numbers exactly 0 and 1, and of the texts exactly the six for each value; it is left alone otherwise |
| Conversion.BooleansThroughText | components/Helpers.go:310-338 | A boolean stored in a string or byte slice converts back to itself, and no integer destination accepts one |
| Conversion.WhatNumbersAccept | components/Helpers.go:389-412 | An integer destination reads a text as n if and only if n is in its range and the text is n's digits behind any zeros and, for signed types, one sign |
| Conversion.WhatNilAndAnyDo | components/Helpers.go:340-343 | Nil is accepted by byte slices, any and pointers and by nothing else; an any destination holds the source itself |
| Conversion.IntegerRanges | components/Helpers.go:389-412 | The range of each of the ten integer types, in numbers |
| Conversion.KeepsType | components/Helpers.go:360-412 | A destination holds a value of its own type after any call, failed or not |
| Conversion.FailureLeaves | components/Helpers.go:382-388 | A failed call leaves a destination unchanged exactly when it is no pointer or already pointed at such a chain of zeros |
| Conversion.PointersAreTransparent | components/Helpers.go:382-388 | Through any number of pointers a value that is not nil is converted as without them; the recursion ends |
| Conversion.OldValueIsIgnored | components/Helpers.go:208-440 | Success and the value stored do not depend on what was there before |
| WebrtcRegistry.EveryRunKeepsInv | controllers/webrtc/Webrtc.go:1067-1162 | Under every interleaving of submissions, handling, starts and completions: live keys were issued and live in their home hub, waiting requests are addressed home, uncompleted items are exactly the stored entries, counts match |
| WebrtcRegistry.KeysAreNumbered | controllers/webrtc/Webrtc.go:1157-1159 | wr.I is 1000 plus the number of submissions that were issued a key, those whose own key was not live |
| WebrtcRegistry.IssuedKeyWaits | controllers/webrtc/Webrtc.go:1136-1162 | So the n-th request that is issued a key waits with key 1000 + n at the hub chosen |
| WebrtcRegistry.SubmissionRouted | controllers/webrtc/Webrtc.go:1136-1162 | A request under the key of an uncompleted item can go to that item's hub only, keeping its key, and nothing is issued; any other goes to any hub under the next key |
| WebrtcRegistry.HandlingARequest | controllers/webrtc/Webrtc.go:1067-1103 | The whole registry after the hub takes a waiting request: a viewer, or a request whose key has an uncompleted item, only stops waiting; any other makes item number |items| under its key in its hub |
| WebrtcRegistry.LifeOfAnItem | controllers/webrtc/Webrtc.go:419-434 | An item of one of the four known actions is running from its first start() and done from its complete(), by the history of the events alone; an item of any other action stays idle |
| WebrtcRegistry.OneHomePerKey | controllers/webrtc/Webrtc.go:1136-1162 | Every live key is above 1000, at most 1000 plus the number of keys issued, and in one hub's Stack only |
| WebrtcRegistry.WaitingRequestGoesHome | controllers/webrtc/Webrtc.go:1147-1161 | Whichever hub holds a waiting request's key, now or in any later state, is the hub it is addressed to |
| WebrtcRegistry.HomesNeverMove | controllers/webrtc/Webrtc.go:1157-1161 | The hub an issued key belongs to never changes |
| WebrtcRegistry.CompleteDeletesItsOwn | controllers/webrtc/Webrtc.go:425-434 | The item being completed is the value under its key; that entry goes and no other, and the decrement does not wrap |
| WebrtcRegistry.LoadIsConserved | controllers/webrtc/Webrtc.go:419-434 | Count is the number of items between start() and complete() and never more than the hub's Stack holds |
| WebrtcRegistry.FixedKeysAreNeverShared | controllers/webrtc/Webrtc.go:1143-1159 | No key up to 1000 is ever live, so a request carrying one, such as the handlers' 1 and 2, is given key 1001 plus the number issued before it, never used before |
| WebrtcRegistry.ViewerJoinsIffUncompleted | controllers/webrtc/Webrtc.go:1074-1090 | A viewer waiting for the hub, under any key, joins if there is an uncompleted item under its key and is refused otherwise; the hub is unchanged either way |
| WebrtcRegistry.ViewerIsAlwaysRefused | controllers/webrtc/Webrtc.go:1074-1090 | A viewer whose key was not live at submission is refused, however the run goes on |
| WebrtcRegistry.ViewerUnderFixedKeyIsRefused | controllers/webrtc/Webrtc.go:1074-1090 | A viewer submitted under any key up to 1000 is refused, whatever happens between its submission and its handling |
| WebrtcRegistry.OthersJoinOrCreate | controllers/webrtc/Webrtc.go:1071-1100 | Every other waiting request joins the uncompleted item under its key if there is one and otherwise makes one |
| WebrtcRegistry.UnknownItemStaysForever | controllers/webrtc/Webrtc.go:1096-1099 | An item that was not made by a request of a known action stays under its key through every later state |
| WebrtcServer.WebrtHub.ItemByObj | controllers/webrtc/Webrtc.go:258-280 | The item already under the key, or a new one stored there; nothing else changes |
| WebrtcServer.WebrtHub.Handle | controllers/webrtc/Webrtc.go:1067-1103 | The hub loop's switch: a viewer only joins, everybody else finds or creates |
| WebrtcServer.WebrtcApi.HandleRequest | controllers/webrtc/Webrtc.go:1067-1103 | The same as the handling step of the server's run, with the outcome the run gives: join, refusal or new item |
| WebrtcServer.WebrtItem.Start | controllers/webrtc/Webrtc.go:419-423 | The start step on the item's own hub |
| WebrtcServer.WebrtItem.Complete | controllers/webrtc/Webrtc.go:425-439 | The completion step on the hub; every connection of the item is closed and its table is empty |
| WebrtcServer.WebrtcApi.ItemStarts | controllers/webrtc/Webrtc.go:419-423 | On objects that hold what a state of a run says, start() leads to what the next state says |
| WebrtcServer.WebrtcApi.ItemCompletes | controllers/webrtc/Webrtc.go:425-439 | So does complete(): registry and connection tables together |
| WebrtcServer.WebrtItem.NewConnection | controllers/webrtc/Webrtc.go:94-105 | A connection under the hub's next id, without a data channel |
| WebrtcServer.WebrtcApi.Connect | controllers/webrtc/Webrtc.go:94-105 | The same as a step of the server's run: the hub's tables make the new-connection step about which ids are proved unique |
| WebrtcServer.WebrtItem.DelConn | controllers/webrtc/Webrtc.go:282-289 | A connection leaves the table exactly when it was there, and then it was closed |
| WebrtcServer.WebrtcApi.Disconnects | controllers/webrtc/Webrtc.go:282-289 | The same as the drop step of the server's run |
| WebrtcServer.WebrtcApi.ChannelOpens | controllers/webrtc/Webrtc.go:959-960 | The peer's data channel as a step of the server's run, after which the history calls the connection open (`WebrtcRuns.TableByHistory`) |
| WebrtcServer.WebrtcApi.constructor | controllers/webrtc/Webrtc.go:231-245 | One empty hub per distinct clock reading, at least one, and wr.I at 1000: the state of the empty run |
| WebrtcServer.WebrtcApi.LeastLoaded | controllers/webrtc/Webrtc.go:1113-1134 | A hub of least Count, in any loop order |
| WebrtcServer.WebrtcApi.Find | controllers/webrtc/Webrtc.go:1147-1155 | A hub where the key lives, or none exactly because it lives nowhere |
| WebrtcServer.WebrtcApi.HubByObj | controllers/webrtc/Webrtc.go:1136-1162 | The routing relation of the runs; a fresh key goes to a least-loaded hub |
| WebrtcServer.WebrtcApi.Submit | controllers/webrtc/Webrtc.go:1136-1162 | The same as the submission step of the server's run, after which the request waits for this hub under this key |
| WebrtcServer.WebrtcApi.Send | controllers/webrtc/Webrtc.go:1188-1214 | At most one send, to the open connection the text names |
| WebrtcServer.WebrtcApi.PrintedKeyReaches | controllers/webrtc/Webrtc.go:1164-1166 | A live connection's printed key reaches it and no other; other texts that do differ in leading zeros |
| WebrtcServer.WebrtcApi.SendAll | controllers/webrtc/Webrtc.go:1216-1232 | After any run, exactly one send to each connection the history calls open now (given to an item that is not completed, its data channel opened, not dropped since), and no other send: the filter on keys above 1000 excludes nothing |
| WebrtcServer.WebrtcApi.DeliveriesInRun | controllers/webrtc/Webrtc.go:1188-1214 | After any run a text delivers to the connection it names if the history calls that open now, and to nothing else |
| WebrtcRuns.FilterExcludesNothing | controllers/webrtc/Webrtc.go:1221-1229 | In every reachable state what SendAll visits, by key and table, is exactly what the history calls open now |
| WebrtcRuns.TableByHistory | controllers/webrtc/Webrtc.go:94-105 | A connection is in an item's table if and only if the history gave it to that item and neither dropped it nor completed the item since, and has a data channel if and only if its peer opened one meanwhile |
| WebrtcRuns.ConnectionsAreNumbered | controllers/webrtc/Webrtc.go:94-105 | The connection ids of a hub count its new-connection events from 1 |
| WebrtcRuns.JustOpened | controllers/webrtc/Webrtc.go:94-105 | A connection just made on an item that is not completed, and opened, is open now: the sends above do reach somebody |
| WebrtcRuns.OneItemPerConnection | controllers/webrtc/Webrtc.go:94-105 | In every reachable state a connection id of a hub is in one item's table only |
| WebrtcRuns.RegistryPart | controllers/webrtc/Webrtc.go:1067-1162 | The registry's part of every run of the whole server is a run of the registry, so all its theorems hold there |
| WebrtcRuns.TablePart | controllers/webrtc/Webrtc.go:94-105 | Each hub's tables in it make a run of the connection tables, one table per item |
| WebrtcServer.WebrtHub.SendAll | controllers/webrtc/Webrtc.go:1222-1230 | The same within one hub |
| WebrtcConnections.EveryConnectionAccounted | controllers/webrtc/Webrtc.go:94-105 | Over every run each issued id is in exactly one place: one item's table, or among the closed |
| WebrtcConnections.PrintedAddressesDistinct | controllers/webrtc/Webrtc.go:1164-1166 | Two held connections of a hub printing one address are one entry of one item |
| ReplyChannel.OneShot | controllers/webrtc/Webrtc.go:216-229 | Over every sequence of sends, closes and timeouts the channel is closed at most once, open exactly while nobody closed it, and at most one reply is received |
| ReplyChannel.FirstSendWins | controllers/webrtc/ControllerMain.go:359-397 | The reply received is the first one sent, and it is received if and only if no close and no timeout came before it |
| ReplyChannel.HandlerByHistory | controllers/webrtc/ControllerMain.go:357-397 | A waiting handler ends with the closed channel if and only if it looks after a close that came before any reply and the timeout; it times out if and only if that comes before any reply and before it saw a close; it waits otherwise |
| ReplyChannel.NothingAfterClose | controllers/webrtc/Webrtc.go:225-229 | After a close no continuation delivers, blocks or closes anything |
| ReplyChannel.BlockedByLateSend | controllers/webrtc/ControllerMain.go:357-397 | A sender is blocked for ever if and only if some send came after a reply or the timeout and before any close; closing the channel panics if and only if it is closed after such a send |
| ReplyChannel.EachLateSendBlocksOne | controllers/webrtc/Webrtc.go:225-229 | The senders blocked for ever are as many as the late sends |
| ReplyChannel.AfterARun | controllers/webrtc/Webrtc.go:216-229 | What happens after a run is the longer run |
| ReplyChannel.CloseAfterLateSendPanics | controllers/webrtc/Webrtc.go:216-229 | The shortest such inputs: the timeout or another reply, then a send, then a close |
| ReplyChannel.WebrtObj.CloseChanSource | controllers/webrtc/Webrtc.go:216-223 | Flag and channel agree, so the channel is never closed twice; the close event of the runs |
| ReplyChannel.WebrtObj.SendChanSource | controllers/webrtc/Webrtc.go:225-229 | Nothing is sent on the closed channel; the send event of the runs |
| ReplyChannel.WebrtObj.OnICECandidate | controllers/webrtc/Webrtc.go:392-411 | A candidate that finds the channel open and its connection in the table is a send and later a close, with anything else happening before and between; any other is nothing |
| ReplyChannel.WebrtObj.RefuseViewer | controllers/webrtc/Webrtc.go:1080-1089 | A refusal is a send and later a close, with anything else happening between |
| ReplyChannel.WebrtObj.HandlerTimesOut | controllers/webrtc/ControllerMain.go:395-396 | The timeout of a waiting handler and later a close, with anything else happening between |
| OggPacing.SamplesTelescope | controllers/webrtc/Webrtc.go:747-749 | The page sample counts sum to the last granule plus 2^64 for every step backwards |
| OggPacing.TelescopesIffNondecreasing | controllers/webrtc/Webrtc.go:747-749 | They sum to the last granule if and only if the positions never decrease |
| OggPacing.MillisTrackSamples | controllers/webrtc/Webrtc.go:748-750 | Cutting to milliseconds never gains and loses less than one millisecond a page |
| OggPacing.DurationExactIffShort | controllers/webrtc/Webrtc.go:750-750 | The int64 nanoseconds of a page are its milliseconds if and only if those are at most 9223372036854; otherwise they fall short by at least 2^64 |
| OggPacing.LongPageHasNegativeDuration | controllers/webrtc/Webrtc.go:747-750 | The smallest failing page: 442721857769040 samples are given a negative duration; a first page ending at 2^64 - 1 fails as well |
| OggPacing.TotalExactIffShort | controllers/webrtc/Webrtc.go:747-750 | All durations together are the whole milliseconds together if and only if every page is short |
| OggPacing.DriftIsBoundedIffShort | controllers/webrtc/Webrtc.go:747-750 | For n pages ending at G the summed durations lie in (G/48 - n, G/48] milliseconds if every page is short, and (up to 2^64 / 10^6 pages) only then |
| OggPacing.Pace | controllers/webrtc/Webrtc.go:726-756 | The loop gives every page its own duration, and they add up to the total bounded above |
| FileTree.LookupPut | components/FileCache/FileCache.go:85-116 | Writing a file changes nothing off its path and leaves no empty directory on it |
| FileTree.LookupCut | components/FileCache/FileCache.go:123-139 | Removing takes away what is at or below the path and nothing else |
| CacheKeys.Base64IsInjective | components/FileCache/FileCache.go:192-200 | Standard base64 with padding never gives two byte strings one text |
| CacheKeys.Base64Decodes | components/FileCache/FileCache.go:192-200 | Decoding as section 4 of RFC 4648 says gives back every byte string |
| CacheKeys.SameTextIffSameGob | components/FileCache/FileCache.go:192-200 | Two keys have one text exactly when their encodings agree or both fail; the text decodes to the encoding, or is "/" |
| FileCache.SweepKeepsFiles | components/FileCache/FileCache.go:160-190 | On any finite tree a file survives the sweep, path and content unchanged, if and only if it cannot be read, or decodes and has no positive Remove before now |
| FileCache.SweepLeavesNoEmptyDir | components/FileCache/FileCache.go:160-174 | No empty directory remains anywhere in the swept subtree, and none is new |
| FileCache.SlotsAreWritable | components/FileCache/FileCache.go:82-104 | In a hygienic cache nothing stands in the way of any slot |
| FileCache.WritableIff | components/FileCache/FileCache.go:82-104 | On any tree a slot can be written if and only if no file stands where one of its directories should and no directory at the slot itself |
| FileCache.SlotPathParts | components/FileCache/FileCache.go:192-205 | A slot is the first two characters of the hash, the next two, and the whole hash, each behind a dot |
| FileCache.SetKeepsHygiene | components/FileCache/FileCache.go:82-117 | Set keeps every directory non-empty and every file at the slot of its own hash, and can always write |
| FileCache.DelKeepsHygiene | components/FileCache/FileCache.go:119-140 | Del keeps that too, cachedir included |
| FileCache.DelLookup | components/FileCache/FileCache.go:119-140 | After Del the slot is empty, directories on its path survive only non-empty, and every other path holds what it held |
| FileCache.ClearTrashKeepsHygiene | components/FileCache/FileCache.go:151-190 | ClearTrash keeps the hygiene of the tree |
| FileCache.TrashKeepsFiles | components/FileCache/FileCache.go:151-158 | ClearTrash leaves exactly those files, and cachedir |
| FileCacheRuns.EveryRunRefines | components/FileCache/FileCache.go:56-190 | Over any run under a clock that never goes back, the tree stays hygienic and agrees, slot by slot, with what the history says was last written |
| FileCacheRuns.GetReadsLastWrite | components/FileCache/FileCache.go:56-80 | Get returns the last value set exactly when it was not deleted or cleared since and Remove is 0 or not before now |
| FileCacheRuns.SweepLeavesTheReadable | components/FileCache/FileCache.go:151-190 | After ClearTrash in any run a slot holds a file if and only if what was last written there can be read at that time |
| FileCacheRuns.GetDeletesTheExpired | components/FileCache/FileCache.go:66-67 | After Get in any run its slot holds a file if and only if it did before and that file is not an expired entry |
| FileCacheRuns.UnwrittenReadsNothing | components/FileCache/FileCache.go:142-149 | After Clear, and in a new cache, a key that nobody writes reads nothing |
| FileCacheRuns.ClearLeavesNothing | components/FileCache/FileCache.go:142-149 | Clear leaves cachedir and nothing below it |
| FileCacheRuns.MaintenanceIsInvisible | components/FileCache/FileCache.go:66-67 | Taking any ClearTrash or Get out of a run, with the deletion inside it, changes no later Get |
| FileCacheRuns.LastTouchDecides | components/FileCache/FileCache.go:56-140 | The last Set or Del of a key decides every later Get: after a Set of a value that can be encoded, for n seconds at time a, that value through second a+n, and for ever if n is not positive or the int64 sum wraps; nothing otherwise, whatever other operations happen between |
| FileCacheRuns.OtherKeysLeaveAlone | components/FileCache/FileCache.go:192-205 | Set and Del on another key leave a key's slot alone unless MD5 collides |
| FileCacheRuns.SharedSlots | components/FileCache/FileCache.go:192-205 | Without a collision two keys share a slot exactly when their encodings agree or both fail |
| FileCacheRuns.DelTouchesOneSlot | components/FileCache/FileCache.go:119-140 | On every reachable cache Del keeps cachedir and every file but the slot's |
| FileCacheRuns.TimeToLive | components/FileCache/FileCache.go:100-102 | The same for what one Set wrote: the exact times at which it can be read, for every interval |
| FileCacheServer.CacheFile.Get | components/FileCache/FileCache.go:56-80 | In place: the value the runs say, and an expired entry is deleted on the way |
| FileCacheServer.CacheFile.Set | components/FileCache/FileCache.go:82-117 | In place: the runs' Set step; a value that cannot be encoded leaves the truncated file and false |
| FileCacheServer.CacheFile.Del | components/FileCache/FileCache.go:119-140 | In place: the file and then each directory it left empty |
| FileCacheServer.CacheFile.Clear | components/FileCache/FileCache.go:142-149 | Everything below cachedir goes, one name at a time |
| FileCacheServer.CacheFile.ClearTrash | components/FileCache/FileCache.go:151-158 | Sweeping the names one by one, in any order, equals the sweep about which the lemmas speak |
| FileCacheServer.CacheFile.RecursiveTrash | components/FileCache/FileCache.go:160-190 | Sweeping in place at any path of any tree ends, replaces exactly that subtree, and removes it if nothing is left |
| CacheFacade.Cache | components/Cache.go:176-232 | Each form of the helper is one operation of the runs: one argument reads, nil deletes, two arguments never expire, three live for their interval |
| CacheFacade.Set | components/Cache.go:96-108 | The interval handed to the cache is the whole seconds of the duration, none up to one second |
| CacheFacade.WholeSecondsSurvive | components/Cache.go:202-228 | The seconds asked for are the seconds stored if and only if they are 0 or from 2 to 9223372036 |
| CacheFacade.OtherIntervals | components/Cache.go:96-108 | A duration is kept in whole seconds rounded down, not at all up to one second; an argument that is neither duration nor integer stands for 3600 seconds |
| CacheFacade.LivesAsLongAsAsked | components/Cache.go:176-232 | An entry cached for n seconds is read for n seconds and no longer, or for ever when n is at most one, whatever happens to other keys |
| SessionStore.FileCacheStore.New | components/FileCacheStore/FileCacheStore.go:168-186 | A session that is not new exactly when the cookie is under its name, young enough, and its values load; any other cookie leaves the cache alone |
| SessionStore.FileCacheStore.Load | components/FileCacheStore/FileCacheStore.go:256-271 | One Get of the runs under the session's key; the values are replaced exactly when what it gave decodes |
| SessionStore.FileCacheStore.Save | components/FileCacheStore/FileCacheStore.go:189-211 | MaxAge at or below 0 is one Del and the cookie that removes the browser's; otherwise values that cannot be encoded or are longer than a limit other than 0 are an error and leave the cache alone, and all others are one Set and a cookie |
| SessionStore.SavedSessionLoads | components/FileCacheStore/FileCacheStore.go:236-271 | While alive a saved session loads the same values and afterwards none, whatever other keys and sessions do |
| SessionStore.DeletedSessionIsNew | components/FileCacheStore/FileCacheStore.go:190-195 | After a Save with MaxAge at or below 0 nothing loads until the session is saved anew |
| SessionStore.SessionsAreSeparate | components/FileCacheStore/FileCacheStore.go:249-259 | Sessions with different ids have different keys, and share no slot unless MD5 collides |
| SessionStore.SaveThenLoad | components/FileCacheStore/FileCacheStore.go:236-271 | On every reachable cache a Save can be written, and what it stored loads back exactly until it expires, whatever other keys do meanwhile |
| SessionStore.RoundTrip | components/FileCacheStore/FileCacheStore.go:168-211 | Save issues a cookie if and only if the values have an encoding and it is within the limit, or the limit is 0; then, after any operations on other keys, other sessions, reads and sweeps, New with that cookie has the same id and values and is not new, exactly while neither the entry nor the cookie has expired |
| FlashMessages.EveryRunAgrees | controllers/Request.go:164-340 | Over any run of requests with any calls, Session() among them, session and request hold exactly the entries the history says (a kind absent when empty), their unread texts are the kept and the fresh ones, the application's own values are those last put, and Update says what the history says |
| FlashMessages.UntouchedEntryStays | controllers/Request.go:261-309 | From the beginning of a request or a saved Store on, an entry that no call and no view touches is never lost and never comes back, through any number of requests with the visitor's cookie, refusals, Session() calls and Stores |
| FlashMessages.ReadOnce | controllers/Request.go:164-236 | An entry read through Error, Message or Old in a request that is stored afterwards is in no later session or request until it is rewritten |
| FlashMessages.AbsentUntilWritten | controllers/Request.go:64-90 | An entry that is nowhere stays nowhere, and reads as no text, until written |
| FlashMessages.WrittenThenStored | controllers/Request.go:164-236 | A message or old value written and left unread is in the session after the Store; an error if and only if something in the request, be it a call of Session(), set Update; otherwise the session keeps what it had |
| FlashMessages.LoneErrorIsLost | controllers/Request.go:166-171 | A request that only writes an error stores nothing, whatever its cookie |
| FlashMessages.SessionCallSavesTheError | controllers/Request.go:311-340 | Putting anything into the session, or without a cookie so much as reading it, makes the same error reach the session |
| FlashMessages.PeekedThenStored | controllers/Request.go:238-259 | An entry read through OldOrValue, or printed from the map by a view, is dropped by the Store if and only if something in the request set Update; otherwise the session keeps what it had |
| FlashMessages.StoreCommits | controllers/Request.go:261-309 | What a saved Store makes of an entry: what was fresh if Update is set, what the session kept when the entry was last touched if not |
| FlashMessages.UpdatedIffCaused | controllers/Request.go:164-340 | Update is set if and only if the current request wrote a message or an old value, read an entry it had, or called Session() to put, to delete what was there, or for the first time without a cookie |
| FlashMessages.FreshIsRead | components/Helpers.go:92-100 | A fresh entry's text is what a read returns |
| FlashMessages.LastArgumentDecides | components/Helpers.go:67-76 | The last argument that converts decides the message: its text; after a nil none, and an invalid entry when nothing follows; refused arguments alone an empty valid one |
| FlashMessages.FirstTextIs | controllers/Request.go:247-255 | The fallback of OldOrValue is the first argument with text that is not empty, or empty |
| FlashMessages.ReadAgainIsTheSame | components/Helpers.go:92-110 | However often an entry is read or printed in a request, it gives the text last written to it until the Store |
| FlashMessages.GreetingIsSaved | controllers/Request.go:311-320 | The first Session() call without a cookie saves the key __init__ with 1 and keeps it out of the session in memory |
| FlashMessages.StoreIsIdempotent | controllers/Request.go:261-309 | Storing twice is storing once |
| FlashMessages.OwnValueStays | controllers/Request.go:311-340 | What the session holds under a key of the application after a saved Store is what Session(key) gives from then on, in every request with the cookie, until somebody puts or deletes it |
| RequestServer.Request.constructor | controllers/Request.go:28-100 | A new request is the begin event: the session's maps, shared with it, Update false, valid only with both connections |
| RequestServer.Request.Error | controllers/Request.go:164-184 | The call event of its kind, and the text a read returns |
| RequestServer.Request.Message | controllers/Request.go:186-210 | The same for messages, whose writes set Update |
| RequestServer.Request.Old | controllers/Request.go:212-236 | The same for old values |
| RequestServer.Request.OldOrValue | controllers/Request.go:238-259 | The old text, or the first given text that is not empty; the entry counts as read but Update stays |
| RequestServer.Request.PrintUnread | views/admin/auth/login.html:32-39 | A view listing the unread entries of a map prints each once with its text, in any order: the show events of the runs, without Update |
| RequestServer.MessagesMap.Print | components/Helpers.go:102-110 | The text of a valid entry, which is then read; an invalid entry stays as it is |
| RequestServer.Request.Session | controllers/Request.go:311-340 | The session event: the greeting without a cookie (set, save, delete), then read, put or delete, whether the request is valid or not |
| RequestServer.Request.GreetWithout | controllers/Request.go:315-320 | The save in the middle of the greeting writes the shared maps as they are at that moment |
| RequestServer.Request.Store | controllers/Request.go:261-309 | Three maps filtered in place, put in or taken out of the session, saved once: the store event |
| RequestServer.Sess.Set | components/Session.go:50-55 | The value under the key and Update set |
| RequestServer.Sess.Delete | components/Session.go:57-64 | Update only if there was something to delete |
| RequestServer.Scan | components/Helpers.go:67-76 | Scanning every argument in turn leaves the composed message, unread |
| RequestServer.First | controllers/Request.go:247-255 | The first argument that converts to text that is not empty |
| RequestServer.MessagesMap.DropUnsaved | controllers/Request.go:264-269 | Deleting while ranging leaves exactly the valid unread entries, in the map itself |

## Left out

- Data races below the atomic steps: each hub message, each ping failure and each reply-channel call is one step; the ping goroutines touch the client table without a lock, and so do the WebRTC maps outside the mutexed sections.
- Liveness: the WebRTC hub's unbuffered OfferChan send can block it for ever; only safety is proved.
- Real time and tickers: time is an input that does not go back, and one sweep reads the clock once. No claim that idle clients are pinged: PingPeriod is a count of nanoseconds compared with seconds.
- WebsocketServer.WebsocketStack.HandleBroadcast: which writes fail is an input; the close message and the closing of the socket are not modelled.
- WebsocketServer.Websocket.NewWebsocketClient: asks for stack 1, which the constructor makes and nothing deletes; without it the source dereferences nil.
- WebsocketServer.Websocket.Register: the callbacks FuncRegister, FuncMessage and FuncUnregister and the client's Time are not modelled.
- WebrtcServer.WebrtItem.Complete: connections added to an item after complete() are not closed by it; they stay in its table and in the account of WebrtcConnections.
- WebrtcServer.WebrtcApi.HubByObj: the add-then-read of wr.I is one step, and the "key" datum is a uint64, 0 when it is missing or unreadable.
- WebrtcServer.WebrtItem.NewConnection: the add-then-read of Conn_i is one step too, and that connection ids are unique across the items of a hub depends on it.
- WebrtcServer.WebrtcApi.ItemCompletes: the closing of the peers after the mutexed section is part of the same step.
- ReplyChannel.OneShot: the check and the action inside CloseChanSource and SendChanSource are one step.
- OggPacing.DriftIsBoundedIffShort: the float64 quotient is taken as exact, so binary rounding at whole milliseconds is not captured. That only short pages keep the bound is stated up to 2^64 / 10^6 pages, above which rounding alone may exceed a wrap-around.
- FileCacheServer.CacheFile.Set: failures of the file system (mkdir, open or write refused, directories that cannot be read) are not modelled; a file or directory in the way is.
- FileCacheRuns.SharedSlots: MD5 is any function to 32 characters; where it matters the absence of a collision between the two texts is a premise.
- FileCacheRuns.EveryRunRefines: operations are atomic and other processes do not touch cachedir; gob is a codec that may refuse a value and otherwise gives it back.
- CacheFacade.WholeSecondsSurvive: the float64 of Seconds() is taken as exact; a duration with a fraction of a second may round up in the source. The ristretto driver is not modelled.
- CacheFacade.LivesAsLongAsAsked: stated from -9223372036 to 9223372036 seconds; outside, the product wraps to some other duration.
- SessionStore.FileCacheStore.New: session values are a map of strings, the cookie codec keeps name, id and time of issue and refuses an age above its own.
- DefaultMaxAge of the session store: unreachable, because MaxAge 0 deletes.
- Sessions registry, the deprecated Delete method, and the stores RistStore and GORM: foreign libraries decide their behaviour.
- FlashMessages.EveryRunAgrees: one visitor's requests follow one another; two at once on one session are not modelled. A request without a cookie whose session loads begins a new session, and what an old one held is out of sight.
- RequestServer.Request.Session: requires a session object, which the source dereferences without asking. The application's own keys are other than Messages, Errors and Olds, and its values are strings; no argument or more than two do what one argument does, but return nil.
- RequestServer.Request.constructor: a nil HTTP request, the user record and the rendering of error pages are not modelled.
- Conversion.ConvertAssign: floats, times, decimals, scanners, named types, pointers as sources and a nil destination pointer are not modelled; int and uint are 64 bits; text stands for bytes.
- DeleteStack and MaxCountInStack of the websocket hub: never used.
- Login, templates, routing tables, configuration, the TURN server, Monitor, SSE, WebM muxing and RTP sample building: input, output and thin wrappers.
