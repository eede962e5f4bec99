# seed-rust chat backend, modelled in Dafny

This project models the core of the seed-rust encrypted-chat server. The
server exchanges JSON frames with clients over a WebSocket. It keeps a registry of
who is subscribed to which chat, and stores end-to-end encrypted messages in
a `messages` table keyed by chat and nonce. The model covers:

- `base64.dfy`: the `base64` crate's STANDARD engine that both base64
  wrappers call. Encoding is total, decoding is canonical, and the two are
  proved to be inverse.
- `json.dfy`: a small JSON value type with serde's compact rendering, used to
  state the wire shapes.
- `wire.dfy`: the `Message`, `OutcomeMessage` and `IncomeMessage` shapes with
  their serde renames (`queueId`, `contentIV`, `type`), and the decoded client
  frame (`Ping | Send | Subscribe | Unsubscribe | None`).
- `responses.dfy`: `SeedResponse`, adjacently tagged as `{"type", "response"}`.
  This includes the exact text of the status-true reply.
- `entity.dfy`: connections (equal and hashed by id only) and the
  `WebSocketManager`'s three maps, with the "the two maps mirror each other"
  invariant the manager documents.
- `subscriptions.dfy`: `subscribe_to_chat`, `start_message_processor` (queue
  creation), `unsubscribe_from_chat` and `disconnect`.
- `store.dfy`: `get_last_nonce`, `insert_message` and `fetch_history` over a
  table held as a sequence of rows. Each is given as written, and
  `get_last_nonce` and `insert_message` also as evidently intended.
- `messages.dfy`: the three reply builders and the JSON their envelopes are
  sent as, `is_valid_message`, and the paginated history replay
  `unread_message_response` (pages of 100).
- `service.dfy`: `process_message` (one step per decoded frame, reporting its
  effects and whether the connection continues) and the `handle_connection`
  read loop followed by the disconnect clean-up.

Three behaviours of the code are reproduced as written, and the corrected
versions are proved separately (see "## Findings"):

- `get_last_nonce` reports `NotFound` for a chat with no rows, so no insert can
  start a chat.
- an inserted row carries the previous last nonce, not the message's nonce.
- history replies fill `contentIV` with the encoding of the chat id.

The model also reproduces that subscribing records no membership:
`entry(..).or_default()` only creates empty entries. Its consequences are
proved, but no corrected subscribe is given.

Parameters stand in for what the model cannot see:

- text frames are decoded by a `parse` function parameter, in place of
  serde's text parser;
- injected history-fetch failures are a `failing` set of cursors;
- the incoming frame stream is a finite sequence of items.

Where the code and its documentation disagree, the model follows the code.
The main case is `get_last_nonce`. Its doc comment is split on a chat with no
rows: line 69 says it returns 0 if none exist, while line 74 lists `NotFound`
among its errors. The code returns `NotFound`.

## Model

| member | source | states |
|---|---|---|
| Base64.CharOf | src/base64.rs:3-5 | every sextet maps to an alphabet character, never the pad, whose value is that sextet |
| Base64.ValueOf | src/base64.rs:7-9 | characters outside `A-Z a-z 0-9 + /` have no value; all others have a value in 0..63 |
| Base64.CharOfValueOf | src/base64.rs:3-9 | the character and value maps are inverse on the alphabet |
| Base64.Encode | src/base64.rs:3-5 | output length is 4*ceil(n/3); only alphabet characters and trailing padding (at most the last two) appear |
| Base64.DecodeFromEncode | misc/src/base64.rs:3-11 | decoding the encoding of any bytes at any offset yields those bytes |
| Base64.DecodeEncode | src/base64.rs:3-9 | decode(encode(b)) == b for all byte strings |
| Base64.EncodeDecodeFrom | misc/src/base64.rs:3-11 | whatever decodes re-encodes to exactly the input text (canonical decoding) |
| Base64.EncodeDecode | src/base64.rs:3-9 | encode(decode(s)) == s whenever decoding succeeds |
| Base64.DecodeSucceedsIff | src/base64.rs:7-9 | decoding succeeds exactly on the strings that are the encoding of some bytes |
| Base64.RejectsForeignChar | src/base64.rs:7-9 | a string holding any non-alphabet, non-pad character is rejected |
| Base64.DecodedLength | src/base64.rs:7-9 | an accepted string's length is 4*ceil(n/3) for the n bytes it yields |
| Wire.ToOutcome | src/seed/entity/message.rs:10-30 | converting a message to an outgoing one keeps all five fields |
| Wire.MessageToJson | src/seed/entity/message.rs:10-19 | derived `Serialize`: an object with exactly the five keys in declaration order, each holding its field under the renamed key |
| Wire.MessageFromJson | src/seed/entity/message.rs:10-19 | derived `Deserialize`: whatever it reads is held under the five wire keys; a missing or repeated key is rejected |
| Wire.OutcomeToJson | src/seed/entity/message.rs:21-30 | the outgoing message serialises to the same object as a `Message` with the same fields |
| Wire.OutcomeFromJson | src/seed/entity/message.rs:21-30 | reads only values holding the five fields under their wire keys; a missing or repeated key is rejected |
| Wire.IncomeToJson | src/seed/entity/message.rs:3-8 | the envelope is an object with keys `type` then `message`, holding the type and the serialised message |
| Wire.IncomeFromJson | src/seed/entity/message.rs:3-8 | reads only objects whose `type` key holds the read type and whose `message` key reads back as the read message |
| Wire.ReadMessageFields | src/seed/entity/message.rs:10-19 | each field is found under its serde name: `nonce`, `queueId`, `signature`, `content`, `contentIV` |
| Wire.MessageWireKeys | src/seed/entity/message.rs:10-19 | a message serialises to an object with exactly those five keys, in declaration order |
| Wire.MessageRoundTrip | src/seed/entity/message.rs:10-19 | deserialising a serialised message gives it back |
| Wire.OutcomeRoundTrip | src/seed/entity/message.rs:21-30 | the same round trip for the outgoing message |
| Wire.OutcomeSameWire | src/seed/entity/message.rs:10-30 | the two message structs share one wire form; either reads a JSON value exactly when the other does, and they agree |
| Wire.IncomeRoundTrip | src/seed/entity/message.rs:3-8 | the `{type, message}` envelope round-trips |
| Responses.Tag | src/seed/entity/response.rs:15-28 | the tag is `response` exactly for the status variant and `event` for both event variants |
| Responses.PayloadToJson | src/seed/entity/response.rs:34-73 | the payload is the variant's struct: `type` and `message` for a new event, `type` and `queueId` for a wait event, `status` for a status |
| Responses.ToJson | src/seed/entity/response.rs:9-11 | adjacent tagging: an object with keys `type` then `response`, holding the tag and the payload |
| Responses.FromJson | src/seed/entity/response.rs:9-29 | the model's own reader (the enum derives only `Serialize`): it accepts only objects whose `type` is the read variant's tag and that carry a `response` |
| Responses.NewEventRoundTrip | src/seed/entity/response.rs:15-16 | a new-event response is recovered from its JSON |
| Responses.WaitEventRoundTrip | src/seed/entity/response.rs:21-22 | a wait-event response is recovered from its JSON, although it shares the `event` tag |
| Responses.AdjacentlyTagged | src/seed/entity/response.rs:9-11 | every response is an object with keys `type` then `response`, holding the variant's tag and its payload |
| Responses.EventTagShared | src/seed/entity/response.rs:15-22 | both event variants carry the same outer tag `event` |
| Responses.PayloadKeys | src/seed/entity/response.rs:34-73 | payload keys: `type`,`message` for a new event; `type`,`queueId` for a wait event; `status` for a status |
| Responses.ResponseRoundTrip | src/seed/entity/response.rs:10-29 | despite the shared `event` tag, a reader recovers every response from its JSON |
| Responses.ToJsonInjective | src/seed/entity/response.rs:10-29 | distinct responses never serialise to the same JSON |
| Responses.InnerText | src/seed/entity/response.rs:67-73 | a true status payload renders as `{"status":true}` |
| Responses.StatusTrueText | src/seed/entity/response.rs:83-88 | a true status response renders as `{"type":"response","response":{"status":true}}` |
| Json.Escape | src/use_case/messages.rs:42 | `serde_json::to_string`'s string escaping: never shorter than the text and free of raw control characters |
| Json.EscapePlain | src/use_case/messages.rs:42 | text without quotes, backslashes or control characters is written unchanged |
| Json.Render | src/use_case/messages.rs:42 | `serde_json::to_string`'s compact text: the first character tells the kind of value, and an object ends with `}` |
| Entity.Default | protocol/src/entity/websocket.rs:48-64 | the default manager has no connections, chats or queues |
| Entity.New | protocol/src/entity/websocket.rs:70-76 | the constructor stores the three maps it is given |
| Entity.SameConnectionIgnoresSession | protocol/src/entity/websocket.rs:127-131 | connection equality holds exactly when the ids match; it is an equivalence and ignores the session |
| Entity.EqualConnectionsHashEqually | protocol/src/entity/websocket.rs:135-139 | equal connections feed the hasher the same input |
| Entity.DefaultMirror | protocol/src/entity/websocket.rs:50-54 | the empty manager satisfies the mirror invariant between the connection and chat maps |
| Entity.FreshConnectionUnknown | protocol/src/entity/websocket.rs:119-122 | a connection with a fresh id is listed under no chat |
| Subscriptions.StartMessageProcessor | src/use_case/websocket.rs:23-27 | the chat gets a fresh, empty channel of capacity 100; other queues and both maps are untouched |
| Subscriptions.Subscribe | src/use_case/websocket.rs:46-58 | creates empty entries only where missing, keeps existing entries, and creates a queue only when the chat has none |
| Subscriptions.SubscribeAddsNoMembership | src/use_case/websocket.rs:52-53 | after subscribing, exactly the same (connection, chat) pairs are recorded in both maps as before |
| Subscriptions.SubscribeIdempotent | src/use_case/websocket.rs:46-58 | subscribing twice is the same as subscribing once |
| Subscriptions.Drop | src/use_case/websocket.rs:66-80 | the item leaves the set under the key, whose entry is dropped once empty; every other entry is unchanged (used for both maps) |
| Subscriptions.Unsubscribe | src/use_case/websocket.rs:60-81 | removes exactly that pair from both maps and drops entries that become empty; nothing else changes |
| Subscriptions.UnsubscribeAfterSubscribe | src/use_case/websocket.rs:46-80 | unsubscribing right after a first subscribe finds both entries emptied and removes both keys, the branch where the `remove` runs under the `get_mut` guard; the queue stays |
| Subscriptions.UnsubscribeIdempotent | src/use_case/websocket.rs:60-81 | unsubscribing twice is the same as once |
| Subscriptions.Disconnect | src/use_case/websocket.rs:126-139 | exactly the connection's entry is removed and every other connection entry is unchanged; chats it did not record keep their entries; a chat it recorded loses it and is dropped exactly when that empties it; no chat entry appears; other connections' memberships and all queues are unchanged |
| Subscriptions.DisconnectInSequence | src/use_case/websocket.rs:129-138 | unsubscribing from the recorded chats one at a time, then removing the entry, gives the same manager as the set-at-once definition |
| Subscriptions.OperationsKeepMirror | src/use_case/websocket.rs:46-139 | subscribe, unsubscribe and disconnect each preserve the mirror invariant |
| Subscriptions.DisconnectForgetsConnection | src/use_case/websocket.rs:126-139 | from a mirrored manager, disconnect leaves the connection in no chat and with no chats |
| Store.GetLastNonce | src/infrastructure/database.rs:75-93 | the chat's highest nonce when it has rows; `NotFound` exactly when it has none |
| Store.GetLastNonceOrZero | src/infrastructure/database.rs:63-70 | the documented intent: the highest nonce, or 0 for a chat with no rows |
| Store.DecodeColumn | src/infrastructure/database.rs:113-125 | a column decodes exactly when its text is base64, and re-encodes to that text; failures are base64 errors |
| Store.InsertMessage | src/infrastructure/database.rs:111-158 | succeeds iff all four fields decode, the chat has rows, and nonce = last + 1; appends one row holding the decoded fields with nonce = the message's nonce - 1; each failure carries its error |
| Store.InsertKeepsLastNonce | src/infrastructure/database.rs:128-155 | a successful insert never changes the chat's last nonce |
| Store.InsertAcceptsReplay | src/infrastructure/database.rs:128-155 | a message accepted once is accepted again |
| Store.InsertAll | src/infrastructure/database.rs:111-158 | inserting a batch only appends, at most one row per message |
| Store.InsertsNeverStartAChat | src/infrastructure/database.rs:89-133 | no sequence of inserts ever gives a chat with no rows its first row |
| Store.EmptyStoreStaysEmpty | src/infrastructure/database.rs:89-92 | starting from an empty table, every insert fails |
| Store.InsertMessageIntended | src/infrastructure/database.rs:111-158 | corrected insert: succeeds iff the fields decode and nonce = last-or-0 + 1; stores the message's own nonce |
| Store.IntendedStartsChat | src/infrastructure/database.rs:63-70 | with the corrected insert, nonce 1 starts a new chat |
| Store.IntendedAdvances | src/infrastructure/database.rs:130-133 | after a corrected insert, the chat's last nonce is the message's nonce |
| Store.IntendedRejectsReplay | src/infrastructure/database.rs:130-133 | the corrected insert rejects the same message a second time with `InvalidNonce` |
| Store.Matching | src/infrastructure/database.rs:195-196 | exactly the table's rows of the chat with nonce >= the cursor, each as many times as the table holds it |
| Store.SortByNonce | src/infrastructure/database.rs:197 | a permutation of its input in ascending nonce order |
| Store.HistoryRows | src/infrastructure/database.rs:187-206 | min(amount, matches) rows, ascending, all matching, drawn from the matches, and all of them when fewer than amount |
| Store.HistoryTakesLowest | src/infrastructure/database.rs:196-198 | every matching row left out of a page has a nonce at least that of every row in it |
| Store.HistoryMessage | src/infrastructure/database.rs:212-231 | a history reply keeps the row's nonce |
| Store.HistoryMessageDecodes | src/infrastructure/database.rs:216-220 | a history reply's chat id, signature and content decode to the row's bytes, and its IV field decodes to the chat id |
| Store.HistoryLosesContentIv | src/infrastructure/database.rs:220 | whenever a row's IV differs from its chat id, the reply's IV field does not decode to the stored IV |
| Store.HistoryMessageIntended | src/infrastructure/database.rs:212-231 | the corrected reply keeps the row's nonce |
| Store.HistoryMessageIntendedDecodes | src/infrastructure/database.rs:216-219 | the corrected reply's four base64 fields decode to the row's four byte columns |
| Store.FetchHistory | src/infrastructure/database.rs:173-235 | one reply per row of the page (the lowest-nonce matches, at most amount), each the mapping of its row, in ascending nonce order from the cursor on |
| Store.FetchHistoryCarriesChat | src/infrastructure/database.rs:217-220 | every reply's chat id, and also its IV field, decode to the queried chat |
| Store.PageWithinChat | src/infrastructure/database.rs:196 | every reply's nonce lies between the cursor and the chat's last nonce |
| Store.FetchHistoryIntended | src/infrastructure/database.rs:173-235 | the same page, each reply the corrected mapping of its row |
| Store.InsertThenFetchIntended | src/infrastructure/database.rs:111-235 | with the corrected insert and mapping, fetching from a new message's nonce returns exactly that message |
| Messages.WaitEventFor | src/use_case/messages.rs:27-43 | outer tag `event`, detail type `wait`, carrying the chat id |
| Messages.NewEventFor | src/use_case/messages.rs:46-64 | outer tag `event`, detail type `new`, carrying the message |
| Messages.StatusFor | src/use_case/messages.rs:66-81 | outer tag `response` with the given status |
| Messages.OutgoingToJson | src/use_case/messages.rs:32-78 | an event reply is `{type, event}` with the detail struct under `event`; a status reply is the flat `{type, status}` |
| Messages.OutgoingFromJson | src/use_case/messages.rs:32-78 | the model's own reader of the replies: it reads only objects whose `type` is the read tag, and a status from the `status` key |
| Messages.OutgoingRoundTrip | src/use_case/messages.rs:32-78 | every reply is recovered from the JSON it is sent as |
| Messages.BuildersOnWire | src/use_case/messages.rs:32-78 | the JSON each builder sends; the outer tags match the `SeedResponse` tags, yet no reply renders as the `SeedResponse` of its detail |
| Messages.StatusReplyText | src/use_case/messages.rs:71-78 | the positive status reply is sent as `{"type":"response","status":true}` |
| Messages.IsValidMessage | src/use_case/messages.rs:134-157 | valid iff the chat id, signature and IV are each the base64 encoding of some bytes |
| Messages.ContentNeverChecked | src/use_case/messages.rs:134-157 | validity does not depend on the content field |
| Messages.InsertableIsValid | src/infrastructure/database.rs:111-125 | a message the store accepts is valid |
| Messages.ValidButNotInsertable | src/infrastructure/database.rs:117-125 | some valid message is refused by every table, because its content is not base64 |
| Messages.Announce | src/use_case/messages.rs:104-107 | one new-event reply per fetched message, and nothing else: each message's event occurs as often as the message does |
| Messages.Sent | src/use_case/messages.rs:96-128 | a failed fetch sends nothing; a page sends one new event per message, with the same multiplicities |
| Messages.Replay | src/use_case/messages.rs:83-132 | the rounds start at the nonce, each fetches 100 from a cursor 100 past the previous one, every round but the last is full, and the last is short or failed |
| Messages.UnreadMessageResponse | src/use_case/messages.rs:83-132 | the loop performs exactly the rounds of the recursive definition |
| Messages.StoreFetchAnswers | src/use_case/messages.rs:92-101 | the history query fails exactly at the injected cursors and otherwise returns the store's `fetch_history` page |
| Messages.StoreFetchHonoursQuery | src/use_case/messages.rs:92-101 | the store-backed fetch never returns more than asked, nor a nonce outside the cursor..last range |
| Service.Refuse | src/infrastructure/websocket.rs:155-158 | one `false` status reply, connection breaks, state untouched |
| Service.Acknowledge | src/infrastructure/websocket.rs:149-152 | the given effects followed by one `true` status reply; connection continues, state untouched |
| Service.Enqueue | src/infrastructure/websocket.rs:167-174 | the frame is appended to that chat's channel; every other queue, both maps and the capacity are unchanged |
| Service.SendToQueue | src/infrastructure/websocket.rs:167-179 | a send to a chat with a queue is enqueued and acknowledged; the table is untouched |
| Service.SendToStore | src/infrastructure/websocket.rs:180-195 | a send to a chat without a queue is stored and acknowledged when the insert succeeds, and refused (connection breaks) when it fails |
| Service.HistoryReplay | src/infrastructure/websocket.rs:219-221 | the replay starts at the subscriber's nonce and follows the pagination rules against the table |
| Service.HandleSubscribe | src/infrastructure/websocket.rs:197-225 | an undecodable chat id is refused; otherwise subscribe, a `true` status, the history replay and a wait event, in that order |
| Service.ProcessMessage | src/infrastructure/websocket.rs:141-239 | a `None` frame does nothing; every other frame gets exactly one status reply, `false` exactly when the connection breaks; a break changes no state; and per frame kind: a ping is acknowledged, an invalid send refused, a valid send queued or stored by whether the chat has a queue, a subscribe handled as its branch says, an unsubscribe leaves the chat and is acknowledged |
| Service.FirstSendBreaks | src/infrastructure/websocket.rs:180-189 | a valid first message to an unsubscribed chat with no rows is refused and ends the connection |
| Service.ProcessNeverCloses | src/infrastructure/websocket.rs:141-239 | processing one frame never closes the session |
| Service.SendNeverCloses | src/infrastructure/websocket.rs:153-195 | a send frame never closes the session, whichever branch it takes |
| Service.SubscribeNeverCloses | src/infrastructure/websocket.rs:197-225 | a subscribe frame never closes the session |
| Service.ProcessKeepsRegistry | src/infrastructure/websocket.rs:141-239 | processing one frame never adds a membership and keeps the mirror invariant |
| Service.Feed | src/infrastructure/websocket.rs:86-116 | a stream error or a close frame stops the loop with no effect, other frames are skipped, an unparsable text gets status `false` and the loop goes on, a parsed text is exactly `process_message` on the current state, and only a dispatched text can break |
| Service.Loop | src/infrastructure/websocket.rs:86-117 | each item read produces the loop body's step from the state the previous step left; the effects are those steps' effects in order; every step but the last continues; the loop ends on a break, naming the item that caused it, and otherwise reads every item |
| Service.FollowsAt | src/infrastructure/websocket.rs:86-116 | the k-th step of the loop is the loop body applied to the k-th item |
| Service.LoopStopsAtEnds | src/infrastructure/websocket.rs:86-117 | no item is read after a stream error or a close frame; a run that reads everything saw neither; `Failed`, `Closed` and `Broken` name a stream error, a close frame and a parsed text frame |
| Service.DispatcherBehaves | src/infrastructure/websocket.rs:88-102 | the dispatch used by the loop never closes the session and keeps the registry |
| Service.LoopQuiet | src/infrastructure/websocket.rs:86-117 | the read loop never closes the session itself |
| Service.LoopKeepsRegistry | src/infrastructure/websocket.rs:86-117 | the read loop never adds a membership and keeps the mirror invariant |
| Service.DisconnectKeepsMirror | src/infrastructure/websocket.rs:119-122 | the final disconnect keeps the mirror invariant and leaves the connection in no chat |
| Service.HandleConnection | src/infrastructure/websocket.rs:68-123 | the frame loop runs on the items and `disconnect` then runs once on the state it left: the effects are the loop's followed by one session close, the manager is `Disconnect` of the loop's, the table, end reason and items read are the loop's; the connection is forgotten; every remaining membership is another connection's and already existed |

## Left out

- Concurrency: the DashMap/flume sharing between connections, the mutex around each
  session, and task scheduling. Each frame is processed atomically against one state.
- Subscriptions.DisconnectInSequence: `disconnect` keeps the `connections.get` guard
  (src/use_case/websocket.rs:129-135) while the unsubscribes it awaits call
  `connections.get_mut` on the same key. DashMap documents that this may deadlock, so
  the source may never reach the clean-up the model describes.
- Subscriptions.Unsubscribe / Subscriptions.Drop: `unsubscribe_from_chat`
  (src/use_case/websocket.rs:66-80) still holds the `get_mut` guard (`conn`, then
  `chats`) when it calls `remove` on the same key of the same map. DashMap documents
  that this may deadlock. `Subscriptions.UnsubscribeAfterSubscribe` shows that this
  branch is reached on ordinary input: after a subscribe, both entries are empty and
  both are removed. So in the source an Unsubscribe frame may hang without sending its
  status, while the model completes it and replies status `true`.
- Service.SendToQueue: the consumer loop's `for` head (src/use_case/websocket.rs:29)
  holds a `message_queues.get` guard for the queue's whole life, so the
  `message_queues.get_mut` of process_message (src/infrastructure/websocket.rs:171)
  may block. The model lets the send enqueue and be acknowledged.
- The consumer loop of `start_message_processor` (src/use_case/websocket.rs:29-43).
  The model only creates the queue. As written, that loop never returns, so in the
  real server a subscribe that creates a queue blocks its connection; the model treats
  the subscribe as returning.
- Channel backpressure: a send to a full bounded channel blocks in the source. The model
  records the capacity and appends without a bound.
- Database and I/O failures other than injected history-fetch failures. Fetch failures are
  injected through the `failing` cursor set; inserts and last-nonce queries are modelled
  without SQL errors.
- Integer widths: `usize` and the `i64` casts around SQL are unbounded `nat`s.
  `current_nonce += 100` cannot overflow here.
- serde text parsing: `serde_json::from_str` is the `parse` function parameter of the
  connection loop.
- Socket writes: replies are recorded as effects. Write errors, which the source ignores,
  are not modelled.
- Messages.Announce: the replies of a page are a multiset. `join_all` sends them
  concurrently, so their order on the socket is not fixed.
- Base64.Decode: the error kind and offset of a rejected string follow one plausible
  checking order. Whether a string is accepted is exact, but the crate's precise error
  classification is not claimed.
- Store.HistoryMessage: its ensures keeps only the nonce. The base64 facts about the other
  fields are stated in Store.HistoryMessageDecodes and Store.HistoryLosesContentIv.
- Store.HistoryMessageIntended: likewise, its field facts are in
  Store.HistoryMessageIntendedDecodes.
- Store.FetchHistory: the order among rows with equal nonces is not fixed by the SQL. The
  model fixes one order through its insertion sort, and its contract does not depend on
  that choice.
- `broadcast_event`, `main`, TLS set-up, the trait declarations and the HTTP handshake of
  `WebSocketConnection::new` are outside the modelled core. UUID generation becomes the
  assumption that a new connection's id is not yet in the manager.
- The protocol crate's `IncomeMessage` enum and the `WaitEventResponse` and
  `NewEventResponse` structs are not part of this model's source files. Their shapes are
  taken from their uses in process_message and in src/use_case/messages.rs:32-74.
- Messages.OutgoingToJson: the declarations of the three outer reply structs are not
  part of this model's source files. The model takes their `rtype` to be renamed `type`,
  as every `rtype` in response.rs is, and names the detail field `event` as the builders
  do. The status reply is the flat `{type, status}` that
  src/use_case/messages.rs:71-74 builds, not `SeedResponse::Status`.

## Findings

| source | as written | input that shows it | evidently intended | confidence | as-written member | corrected member |
|---|---|---|---|---|---|---|
| src/infrastructure/database.rs:89-92 | `get_last_nonce` returns `NotFound` for a chat with no rows, so `insert_message` fails on a chat's first message | a valid message with nonce 1 sent to a chat that has no rows and no queue | a chat's first message can be stored: the doc comment is split, line 69 saying 0 is returned if no rows exist and line 74 listing `NotFound` among the errors; reading 0 lets nonce 1 start the chat | not executed; high | Store.InsertsNeverStartAChat | Store.IntendedStartsChat |
| src/infrastructure/database.rs:136-148 | the row is inserted with the previous last nonce instead of the message's nonce, so the last nonce never advances | a table whose chat has one row of nonce 1; a message of nonce 2 is accepted, stored with nonce 1, and accepted again (the table schema is not part of this model, so this assumes no unique constraint on chat id and nonce) | store `message.nonce`, so the last nonce advances and a replay is rejected | not executed; high | Store.InsertAcceptsReplay | Store.IntendedRejectsReplay |
| src/infrastructure/database.rs:220 | the history reply's `contentIV` is the encoding of the row's chat id | any row whose IV bytes differ from its chat id bytes | encode the row's `content_iv` column | not executed; high | Store.HistoryLosesContentIv | Store.HistoryMessageIntendedDecodes |
