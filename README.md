# golferweb chat server: a Dafny model of its core

The chat server lets golfers taking part in a competition ("event", `compe_no`) exchange messages and stamps over a WebSocket. Each connection
sends JSON requests. A `method` code selects one of five services:
- `init` registers the connection under an event and member;
- `get_messages` and `get_new_messages` read message history;
- `send_message` stores a message and pushes it to the right sessions;
- `get_stamps` lists the stamp catalog.

Every request is answered with a result envelope that carries a status code and the request's method.

The model covers:
- the loose value coercions of `ValueUtils` (`util.dfy`);
- the enumerations and their `parse` (`enums.dfy`);
- the result envelope and its JSON fallback (`data.dfy`);
- the repositories over an in-memory database (`repository.dfy`);
- the session registry (`manager.dfy`);
- the five services (`service.dfy`);
- the WebSocket handler's dispatch and status mapping (`handler.dfy`).

`values.dfy` holds the shared vocabulary: Python values as a datatype, exceptions as an `Outcome`.

Imperative parts of the source are modelled as classes with `modifies` clauses, each proved against a pure function:
- `SessionManager` and its two dictionaries, specified by the `Registry` value;
- the `ValidationInfo` object;
- the repository's transaction flags;
- the database tables;
- the outgoing WebSocket frames (`Wire`).

Expression-level code is modelled by functions and lemmas: coercions, the SQL query semantics, and the fan-out target lists. The main properties proved are:
- The query of `findMessages` returns, oldest first, exactly the newest `count` rows that its WHERE clause keeps.
- Both registry dictionaries stay consistent through any sequence of fresh joins and closes.
- Each send type reaches exactly the sessions it should.
- Every request gets the status the handler's control flow assigns it.

`Handler.Serve` is the reference definition of what an admitted service does. It gives the registry and store it leaves, the frames it pushes to other sessions, and its reply. `Run`, `ExecuteService`, `Respond` and `OnMessage` are each proved to produce exactly that effect. `ServeReplies` states its properties.

## Model

| member | source | states |
|---|---|---|
| Util.TrimStart | src/util.py:10 | the leading part `strip()` removes is all whitespace and what remains starts with a non-space |
| Util.TrimEnd | src/util.py:21 | the trailing part `strip()` removes is all whitespace and what remains ends with a non-space |
| Util.StripEmpty | src/util.py:10 | `value.strip()` is empty exactly when the text is whitespace only |
| Util.StripUnchanged | src/util.py:21 | text that starts and ends with a non-space is unchanged by `strip()` |
| Util.DecimalText | src/util.py:37 | `str(n)` of a natural number is a run of digits |
| Util.DecimalTextValue | src/util.py:37 | the digits `str(n)` produces spell `n` back |
| Util.ParseNumericText | src/util.py:31 | `int(s, 10)` of a run of digits is the number they spell |
| Util.IsNumeric | src/util.py:6-13 | true exactly for an int, or a str made only of digits (at least one) |
| Util.IsEmpty | src/util.py:16-23 | true exactly for a falsy value or a whitespace-only str |
| Util.ToBool | src/util.py:42-48 | true exactly for `True` or a str equal to "true" ignoring case |
| Util.GetStr | src/util.py:51-55 | raises exactly when the container is not a dict |
| Util.GetInt | src/util.py:58-62 | raises AttributeError on a container that is not a dict |
| Util.GetBool | src/util.py:65-69 | raises exactly when the container is not a dict |
| Util.GetAny | src/util.py:72-75 | raises exactly when the container is not a dict |
| Util.MissingKey | src/util.py:51-75 | a missing key reads as None for `getStr`, `getInt` and `getAny`, and as False for `getBool` |
| Util.ToIntToStr | src/util.py:26-39 | `toInt(toStr(n)) == n` for every int |
| Util.IntTextNumeric | src/util.py:6-13 | the decimal text of an int passes `isNumeric` exactly when the int is not negative |
| Util.NumeralFieldChecks | src/util.py:51-62 | `isNumeric(getStr(form, key))` holds exactly for a non-negative int or a digit str; `getInt` then yields a non-negative int |
| Enums.FirstWithValue | src/enums.py:21-27 | `parse` yields a member holding the value, and None exactly when no member holds it |
| Enums.ParseMember | src/enums.py:21-27 | with distinct values, parsing a member's value gives back that member |
| Enums.ReceptLevelTable | src/enums.py:29-34 | `ReceptLevel.parse` accepts exactly 1 and 2 and inverts `value` |
| Enums.MethodTypeTable | src/enums.py:36-45 | `MethodType.parse` accepts exactly 1 to 5 and 99 and inverts `value` |
| Enums.MethodTypesDistinct | src/enums.py:36-45 | no two method types share a code |
| Enums.SendTypeTable | src/enums.py:47-53 | `SendType.parse` accepts exactly 1, 2 and 3 and inverts `value` |
| Enums.StatusCodesDistinct | src/enums.py:6-17 | two statuses have the same code exactly when they are the same status |
| Data.EnvelopeFields | src/data.py:37-49 | `fromStatus` carries method 0 and `fromAll` the method's code; each carries its status's code; the two kinds never coincide |
| Data.AddRecordAsData | src/data.py:18-19 | every attribute of the record is copied over, replacing one of the same name; other attributes stay |
| Data.ToJsonFallbackRaises | src/data.py:24-33 | as written, an unencodable result makes the fallback itself raise TypeError |
| Data.ToJsonFallbackLiteral | src/data.py:24-33 | corrected, the fallback is the literal ResultError envelope `{ "status":90002 }` |
| Repository.SortBySpec | src/repository.py:181 | an ORDER BY yields a permutation of its input that is sorted on the key |
| Repository.Filter | src/repository.py:164-180 | keeps every row the WHERE clause matches, as often as it occurs, and no other row |
| Repository.SelectedRowsMatch | src/repository.py:161-189 | every selected message is a row of the table of the reader's event that the visibility, time and sender clauses keep |
| Repository.SelectedRowsSorted | src/repository.py:189 | the selected messages come oldest first, ties broken by message id |
| Repository.SelectedRowsCount | src/repository.py:157-182 | with `count <= 0` every match is returned; otherwise `count` of them, or all if there are fewer |
| Repository.SelectedRowsNewest | src/repository.py:181-182 | no match left out by the limit is newer than a selected message |
| Repository.FindStampRow | src/repository.py:184-188 | finds a live stamp whose id the message's `stamp_id` names, and finds none only when no such stamp exists |
| Repository.StampUrl | src/repository.py:162-188 | the joined `stamp` column is null exactly when no live stamp has the id, otherwise the URL of one that has |
| Repository.RepositoryBase.constructor | src/repository.py:38-43 | a new repository has not used a transaction and is not complete |
| Repository.RepositoryBase.Complete | src/repository.py:51-52 | marks the work complete and leaves the transaction flag alone |
| Repository.RepositoryBase.Execute | src/repository.py:90-103 | a statement enters a transaction; it completes on success and raises RepositoryException on failure |
| Repository.RepositoryBase.Close | src/repository.py:54-70 | commits exactly when a transaction was used and completed, and rolls back exactly when one was used and not completed |
| Repository.Save | src/repository.py:206-221 | a working database appends the row with the next id and returns that id; otherwise RepositoryException, and nothing changes |
| Repository.FindMessages | src/repository.py:141-204 | fails exactly when the database does not work; otherwise returns the selected rows in order, each joined with its stamp URL |
| Repository.LiveStamps | src/repository.py:233-235 | keeps every stamp that is not deleted, as often as it occurs, and no other |
| Repository.FindStamps | src/repository.py:230-244 | fails exactly when the database does not work; otherwise returns the live stamps in ascending id order |
| Repository.CopyStamps | src/repository.py:239-243 | one stamp object per cursor row, in order, with the row's id and URL |
| Repository.FoundStamps | src/repository.py:230-244 | the stamps listed are exactly the live ones, in ascending id order |
| Repository.FindStamp | src/repository.py:246-259 | fails exactly when the database does not work; otherwise None exactly when no live stamp has the id, else that stamp's id and URL |
| Manager.RemoveFirst | src/manager.py:49 | `list.remove` deletes the first occurrence of the id; the ids before and after it keep their order |
| Manager.FirstOfMember | src/manager.py:68-71 | the first info of the member in list order, None exactly when the member has none |
| Manager.Registry.GetSessionInfoFromId | src/manager.py:74-78 | the registered info of the id, None exactly when the id is not registered |
| Manager.Registry.ResolveAll | src/manager.py:61 | looks every listed id up in order; raises KeyError exactly when one is not registered |
| Manager.AddedLookup | src/manager.py:26-36 | after `addSession` the id maps to the info and is appended to its event's list; other ids and events are unchanged |
| Manager.AddedTwice | src/manager.py:26-36 | adding the same info twice lists its id twice in the event |
| Manager.AddedValid | src/manager.py:26-36 | `addSession` keeps every registered info filed under its own id and listed under its event |
| Manager.AddedConsistent | src/manager.py:26-36 | adding an unregistered id keeps the two dictionaries consistent |
| Manager.RemovedValid | src/manager.py:41-49 | `removeSession` keeps every registered info filed and listed |
| Manager.RemovedForgets | src/manager.py:41-49 | after `removeSession` the id is unregistered and its first occurrence has left its event's list, the rest in order; nothing else changes |
| Manager.RemovedAbsent | src/manager.py:41-49 | removing an unregistered id changes nothing |
| Manager.RemovedConsistent | src/manager.py:41-49 | `removeSession` keeps the two dictionaries consistent |
| Manager.ConsistentLookups | src/manager.py:54-71 | with consistent dictionaries neither lookup raises; `getSessionInfo` is `FirstOfMember` of the event's infos in list order, so it finds the member's first session in the event, or None when the member has none |
| Manager.ListedRegistered | src/manager.py:26-49 | with consistent dictionaries every id listed under an event is registered under itself |
| Manager.UnknownEvent | src/manager.py:54-71 | an event nobody joined has no sessions and no member session |
| Manager.StaleAfterRejoin | src/manager.py:26-61 | a connection that joins a second event without closing stays listed under the first; after it closes, looking up the first event raises KeyError |
| Manager.Step | src/manager.py:26-49 | each join or close keeps every registered info filed and listed |
| Manager.ReplayConsistent | src/manager.py:26-49 | any sequence of fresh joins and closes keeps the two dictionaries consistent |
| Manager.SessionManager.constructor | src/manager.py:22-23 | both dictionaries start empty |
| Manager.SessionManager.AddSession | src/manager.py:26-36 | the dictionaries become `Added(info)` of what they were, and stay valid |
| Manager.SessionManager.RemoveSession | src/manager.py:41-49 | the dictionaries become `Removed(id)` of what they were, and stay valid |
| Service.ValidationInfo.constructor | src/service.py:20-23 | a new result is not valid and has no errors |
| Service.ValidationInfo.AddError | src/service.py:30-32 | appends the message and leaves validity alone |
| Service.ValidationInfo.MarkValid | src/service.py:25-28 | the result becomes valid exactly when it was valid already or has no errors |
| Service.GetIntReads | src/util.py:58-62 | on a dict, `getInt` raises ValueError exactly for a str that is not an int numeral, and reads `n` exactly when the field is `n` or spells it |
| Service.GetStrReads | src/util.py:51-55 | on a dict, `getStr` yields text exactly for an int or str field |
| Service.NumeralReads | src/util.py:58-62 | `getInt` of a field that passed `isNumeric` reads the number the field spells |
| Service.ContentReads | src/util.py:16-23 | `isEmpty(getStr(...))` is false exactly for an int or a str with a non-space character |
| Service.FilledReads | src/util.py:16-23 | the text of a field has a non-space character exactly when the field is an int or a str with a non-space character |
| Service.ValidateInit | src/service.py:77-93 | raises exactly on a non-dict form, a non-dict `init` block or an unparsable `recept_level`; valid exactly when `compe_no` is numeric, `member_id` is text and `recept_level` is 1 or 2; valid exactly when no error was recorded |
| Service.CreateInitParam | src/service.py:95-101 | the event number, member id and reception level are the ones the fields spell |
| Service.InitParamReads | src/service.py:95-101 | `getInt` reads the event number, `str` of the present `member_id` is the member id, and `ReceptLevel.parse(toInt(...))` of the present `recept_level` is the level |
| Service.ExecuteInit | src/service.py:103-108 | registers the connection with the parameters and answers Success |
| Service.ValidateGetNewMessages | src/service.py:116-126 | raises exactly on a non-dict form or block; valid exactly when `count` is numeric |
| Service.ValidateGetMessages | src/service.py:159-174 | raises exactly on a non-dict form or block; valid exactly when `before_time` and `count` are numeric |
| Service.CreateGetNewMessagesParam | src/service.py:128-132 | the count is the number the field spells |
| Service.GetNewMessagesParamReads | src/service.py:128-132 | the count is what `getInt` reads from the block |
| Service.CreateGetMessagesParam | src/service.py:176-181 | the cursor time and count are the numbers the fields spell |
| Service.GetMessagesParamReads | src/service.py:176-181 | the cursor time and count are what `getInt` reads from the block |
| Service.QueriesSelect | src/service.py:134-199 | new messages are of the reader's event and from others; history is of the reader's event and older than a positive cursor |
| Service.ViewsOf | src/service.py:138-147 | one message object per row, in order, with the row's attributes |
| Service.FetchedViewsAt | src/service.py:138-147 | the reply's message objects are one per row, in order, each the row's view |
| Service.ListsMessagesExactly | src/service.py:134-150 | a result lists the rows exactly when it is `MessagesReply` of them, so the listing fixes every field of the reply |
| Service.ExecuteGetNewMessages | src/service.py:134-150 | fails with RepositoryException exactly when the database does not work; otherwise Success listing the query's rows in order |
| Service.ExecuteGetMessages | src/service.py:183-199 | fails with RepositoryException exactly when the database does not work; otherwise Success listing the query's rows in order |
| Service.ValidateGetStamps | src/service.py:298-299 | always valid with no errors |
| Service.ExecuteGetStamps | src/service.py:304-315 | fails with RepositoryException exactly when the database does not work; otherwise Success listing the live stamps in ascending id order |
| Service.StampViewsOf | src/service.py:308-312 | one stamp object per catalog row, in order, with the row's id and URL |
| Service.StampViewsAt | src/service.py:308-312 | the reply's stamp objects are one per catalog row, in order, with the row's id and URL |
| Service.ListsStampsExactly | src/service.py:304-315 | a result lists the live stamps exactly when it is `StampsReply`, so the listing fixes every field of the reply |
| Service.ValidateSend | src/service.py:211-232 | raises exactly on a non-dict form or block or an unparsable `send_type`; valid exactly when a message or stamp has content and the destination matches the send type |
| Service.CheckSendTarget | src/service.py:218-232 | records the first send-type or destination error; the result is valid exactly when no earlier error was recorded and the send type is 1 or 2 without a destination or 3 with one |
| Service.CreateSendParam | src/service.py:234-241 | the send type is the one `send_type` reads as; the destination, message and stamp id are `toStr` of their fields, so the destination exists exactly for a direct message and the message or stamp id has content |
| Service.SendParamReads | src/service.py:234-241 | `SendType.parse(getInt(form, "send_type"))` gives the send type and `getStr` gives the destination, message and stamp id |
| Service.PushCarries | src/service.py:261-276 | the push is a Success of method 99 carrying the saved message, with the stamp URL exactly when a live stamp has the id |
| Service.TargetsRaiseKeyError | src/service.py:278-287 | building `sendList` raises nothing but the KeyError of a stale id |
| Service.DeliveriesOfRegistered | src/service.py:285-294 | over registered ids the loop never stops early and writes to every id, or to those receiving everything when filtered |
| Service.BroadcastReachesEvent | src/service.py:285-286 | a message to everyone reaches every session of the event in list order, the sender's included |
| Service.CompeReachesParticipants | src/service.py:287-288 | a message to participants reaches exactly the event's sessions whose reception level is All |
| Service.DirectReachesPair | src/service.py:279-284 | a direct message reaches the sender's first session in the event and the destination's first session there |
| Service.DeliveriesOfPair | src/service.py:289-292 | the two looked-up sessions are written to in order, a None entry skipped |
| Service.SelfAddressedTwice | src/service.py:279-284 | a registered sender who writes to themself receives the message twice |
| Service.EarlierWritesStand | src/service.py:289-292 | a stale id met in the loop ends it after the writes already made |
| Service.SendNeverStale | src/service.py:278-294 | with consistent dictionaries no send type meets a stale id, so no send ends in KeyError |
| Service.Wire.Write | src/service.py:292 | appends exactly one frame to the connection |
| Service.WriteAll | src/service.py:289-294 | writes the push to exactly the recipients the fan-out determines, in order, and reports whether the fan-out hit a stale id |
| Service.ExecuteSend | src/service.py:243-295 | on a failing database raises RepositoryException having saved and written nothing; otherwise saves the row under the next id, which advances, pushes to the fan-out's recipients in order, and answers Success unless a stale id raised KeyError |
| Handler.GetServiceTable | src/handler.py:83-94 | every request kind gets the service of its own code; method 99 gets none |
| Handler.ResolveThrows | src/handler.py:40-52 | resolution throws exactly when `method` cannot be read or reads as 99, the latter with AttributeError |
| Handler.RouteEscapes | src/handler.py:35-58 | an exception escapes the handler exactly when `method` cannot be read or reads as 99 |
| Handler.RouteRejects | src/handler.py:39-51 | undecodable text gets ParamError and a missing or unknown method gets MethodError, both with method 0 |
| Handler.RouteLogin | src/handler.py:57-60 | any service but init on an unregistered connection gets LoginError with the request's method |
| Handler.RouteGates | src/handler.py:54-72 | an answer with method 0 is a ParamError or MethodError; a service runs exactly when the method names one and the request is admitted, and only for a registered connection (or init) with a form its validator accepts |
| Handler.Validate | src/handler.py:62 | raises exactly when the service's validator raises, never with RepositoryException; valid exactly when the validator accepts |
| Handler.ServeReplies | src/handler.py:72-80 | an admitted service answers method 0 with Success, RepositoryError or ServerError; apart from init, RepositoryError exactly when the database fails; only init changes the registry and only a send the store and the wire; a fetch from a working database lists its rows; with consistent dictionaries never ServerError |
| Handler.RunGetMessages | src/handler.py:72-80 | RepositoryError exactly when the database does not work; otherwise Success listing the history query's rows in order, which is `MessagesReply` of them |
| Handler.RunGetNewMessages | src/handler.py:72-80 | RepositoryError exactly when the database does not work; otherwise Success listing the new-messages query's rows in order, which is `MessagesReply` of them |
| Handler.RunGetStamps | src/handler.py:72-80 | RepositoryError exactly when the database does not work; otherwise Success listing the live stamps in ascending id order, which is `StampsReply` |
| Handler.RunSend | src/handler.py:72-80 | on a failing database RepositoryError with nothing saved or written; otherwise the row is saved under the next id, the push is written to exactly the fan-out's recipients in order, and the status is ServerError exactly when the fan-out met a stale id, else Success |
| Handler.Run | src/handler.py:72-80 | the registry, the store, the frames written and the reply are exactly `Serve`'s effect of `createParam` and `execute` of the service |
| Handler.ExecuteService | src/handler.py:57-80 | a missing login gets LoginError, a raising validator the status of what it raised and a rejected form ValidationError, each with nothing changed; otherwise the registry, store, frames and reply are `Serve`'s |
| Handler.Respond | src/handler.py:53-55 | a turned-away request's answer is written with the request's method and nothing else changes; otherwise `Serve`'s pushes are written, then one frame to the connection with `Serve`'s reply carrying the request's method, and the registry and store are `Serve`'s |
| Handler.OnMessage | src/handler.py:35-55 | an undecodable message or unknown method gets ParamError or MethodError with method 0 and nothing else changes; an escaping exception writes nothing; a turned-away request gets its answer with the request's method; an admitted one leaves `Serve`'s registry and store and writes `Serve`'s pushes, then its reply with the request's method |
| Handler.OnClose | src/handler.py:30-33 | the connection's session leaves the registry |

## Left out

- Transport: tornado, `check_origin`, `open` and the uuid it assigns are not modelled. Connection ids are given strings.
- Frame writing: `write_message` is modelled as an append to `Wire`; its own failures are not modelled.
- JSON text: `json.loads` is modelled as its outcome (`Malformed` or a decoded value), and `json.dumps` as `Dumped`. No JSON text is produced or parsed.
- Database: MySQL is not modelled. The tables are sequences, and SQL text assembly is not modelled, only its meaning. Whether a connection opens and statements succeed are two fixed flags on `Database`.
- Repository.ifStr: the SQL fragments `findMessages` builds with `ifStr` (src/repository.py:112-115, 157-160) are not modelled as text. Their four conditions are the participants' disjunct of `Visible`, the `excludeMyself` and `beforeTime > 0` conjuncts of `Matches`, and the `count > 0` of `Newest`.
- Failures between statements: because those flags are fixed, a database that fails between the insert and the stamp lookup of a send is not modelled.
- Repository.Denotes: MySQL's text-to-number comparison of `stamp_id` is modelled as the `int()` parse. Stamp ids are taken to be unique, so the LEFT JOIN yields at most one row per message.
- Util.ParseDecimal: `int()`, `str.isnumeric`, `str.strip` and `str.lower` are modelled on ASCII only. Unicode digits, Unicode whitespace, underscores in numerals and non-ASCII case folding are not modelled.
- Manager.Registry.GetSessionInfos: the `compeNo is None` branch of `getSessionInfos` is not modelled. The core never calls it with None.
- Service.ExecuteSend: the clock `getTimeInMillis` is the parameter `now`.
- Handler.ExecuteService: the `info == None` check of `executeService` is not modelled. No validator returns None, so the branch cannot be reached.
- Logging: logging and the log texts are not modelled.
- Validation messages: their texts are paraphrased; their order and count follow the source.
- `add_record_as_attr`: not modelled. The core never calls it.
- Concurrency: it is not modelled. Every request runs to completion before the next, as on tornado's single IO loop.

## Findings

| source | as written | input that shows it | evidently intended | confidence | as-written member | corrected member |
|---|---|---|---|---|---|---|
| src/data.py:30-33 | the fallback of `toJson` adds the int `ResultStatus.ResultError.value` to a str, which raises TypeError | any result `json.dumps` cannot encode | the fallback returns `{ "status":90002 }` (the code passed through `str`) | not executed | Data.ToJsonAsWritten (Data.ToJsonFallbackRaises) | Data.ToJson (Data.ToJsonFallbackLiteral) |
