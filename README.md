# Messenger client core, modelled in Dafny

This project models the client-side core of a small messenger (a React
Native app talking to a Flask server over REST and a WebSocket):

- the **direct-dialog store** (`chatStore.js`): per-dialog message timelines
  with cursor paging, optimistic send, acknowledgements, pushed messages,
  read marks and delivery-status events;
- the **group store** (`groupStore.js`): the group list with its unread
  counters, group creation and membership, and the same timeline actions,
  with sending that can carry an uploaded attachment and falls back to a
  REST post;
- the **connection manager** (`wsClient.js`): one current socket, an
  authentication frame on open, a FIFO queue of frames held while the
  socket is not open, a single reconnect timer, and typed event listeners
  with a `*` wildcard;
- the **fallback UUID generator** (`uuid.js`);
- the **status label** shown under a user's own message
  (`MessageBubble.js`).

The heart of both stores is `uniqueMerge`, which folds incoming messages
into a timeline by key (`id || client_msg_id`), merges the fields of
messages with the same key (the incoming fields win), and stably sorts the
result by `created_at`. It is modelled once, in `MessageMerge`, because
the two stores' copies are identical (chatStore.js lines 11-21 and
groupStore.js lines 20-30). `MessageMerge.UniqueMerge` is the imperative
version, with its two loops. `MessageMerge.Merge` is the functional
definition it is proved against. A reference characterisation
(`Expected`: the last existing entry with the key, overlaid by every
incoming entry with the key, in order) is proved equal to it entry by
entry.

JavaScript values are modelled by `JsValues.JsValue`, which writes out
truthiness, `||`, `??`, object spread (right-biased map union), property
keys and `new Date(...)`. Stores are classes whose fields the actions
reassign. Every action that awaits the network is split at its `await`:

- `loadMessages` becomes `BeginLoadMessages`, which returns the request
  together with the snapshot it read, and `CompleteLoadMessages`, which
  takes the fetch result.
- `loadGroups` becomes `BeginLoadGroups` and `CompleteLoadGroups`.

The fetch, the upload, the user id, the clock and the random bytes are
parameters. The connection manager is a class holding:

- the sockets it created;
- the frames it transmitted (`wire`);
- the handler calls it made (`calls`);
- its queue and its reconnect timer.

The socket callbacks (`onopen`, `onmessage`, `onerror`, `onclose`) and the
timer's expiry are separate methods, called when the environment fires
them.

Behaviour of the code worth noting:

- The sort does not break ties by key. It is `Array.prototype.sort`, which
  is stable, on `created_at` alone.
- `disconnect` does not cancel a pending reconnect timer, so the timer
  still opens a socket afterwards (`Connection.TimerOutlivesDisconnect`).
- When a page lands, the fields of the snapshot's copy of a message win
  over the page's copy. The page is the "existing" side of the merge.
- The stores do not look at `hasMore`. Only the chat screen does.
- An optimistic message is appended without re-sorting.
- A pushed message resets the dialog counter to 0 when it is the user's
  own or the dialog is open. In groups, the counter is then kept as it is.

## Model

| member | source | states |
|---|---|---|
| StableSort.SortSpec | front/src/store/chatStore.js:19 | sorting by a key yields a sequence sorted by that key, a permutation of the input (same multiset), and keeps the relative order of elements with equal keys (stable, as `Array.prototype.sort` is) |
| StableSort.SortKeepsDistinct | front/src/store/chatStore.js:19 | sorting keeps a sequence's elements distinct under any projection (here: the message key) |
| MessageMerge.UniqueMerge | front/src/store/chatStore.js:11-21 | the two loops (existing into the map, then incoming spread over the map's entry) and the sort compute `Merge`; the result has one entry per key, is ordered by `created_at`, and its key set is the union of both inputs' key sets |
| MessageMerge.MergeSpec | front/src/store/chatStore.js:11-21 | for all inputs: keys are unique; the key set is the union; every entry equals the reference `Expected` value (last existing entry with the key, then each incoming entry with the key spread over it in order); ordered by `created_at`; entries with equal `created_at` keep map insertion order |
| MessageMerge.InsertionOrderSpec | front/src/store/chatStore.js:12-18 | `Array.from(map.values())` lists one entry per key, in first-insertion order of the keys across existing then incoming |
| MessageMerge.MergeIdempotent | front/src/store/chatStore.js:11-21 | merging the same incoming messages a second time changes nothing (a re-delivered push or ack is harmless) |
| MessageMerge.MergeOne | front/src/store/chatStore.js:11-21 | merging one message into a timeline with unique keys: exactly the message's key gains an entry (the previous entry with that key spread with the message), all other entries are kept, nothing else appears, and the result stays unique and ordered |
| Timeline.FirstLoadSendsNoCursor | front/src/store/chatStore.js:23 | a fresh timeline is not loading, has more, and its first page request carries no `before` cursor |
| Timeline.BeforeSpec | front/src/store/chatStore.js:119-129 | after a page lands, the next request carries `before` exactly when the page's `next_cursor` was truthy (and then carries it), which is exactly when `hasMore` holds; after a failed fetch the next request carries the cursor held before it |
| Timeline.CompletedSpec | front/src/store/chatStore.js:119-141 | a settled load is never loading; a failed fetch restores the snapshot with `loading: false`; a successful one merges the page under the snapshot's items (snapshot fields win), keeps `next_cursor` or null, and sets `hasMore` to whether it is truthy |
| Timeline.CompletedKeys | front/src/store/chatStore.js:120 | after a page lands, every key of the snapshot is still present and no key outside the snapshot and the page appears |
| Timeline.PageBookkeeping | back/app/blueprints/messages/routes.py:52-62 | against the server's page contract, `hasMore` holds exactly when the page was full; the stored cursor is then the last (oldest) item's `created_at` and no later than any item of the page |
| Timeline.NextPageIsOlder | back/app/blueprints/messages/routes.py:52-62 | the page fetched with a full page's cursor holds only messages strictly older than every message of that page |
| Timeline.ScreenStopsAfterShortPage | front/src/screens/ChatScreen.js:101-105 | the screen asks for another page after a successful load exactly when the page was full, and after a failed load exactly when the snapshot had more |
| Timeline.PatchWhereIdSpec | front/src/store/chatStore.js:169-175 | patching the entries whose `id` equals a value replaces just those entries' patched fields, keeps length and order, and leaves the rest unchanged |
| Timeline.AppendSpec | front/src/store/chatStore.js:160-168 | appending the local copy to a well-formed timeline keeps keys unique exactly when its key is new, and keeps the order exactly when no held message is later than it |
| Timeline.AppendCanBreakOrder | front/src/store/chatStore.js:165 | an appended message stamped earlier than a held one leaves the timeline out of order |
| Timeline.AckSpec | front/src/store/chatStore.js:188-211 | after an ack the timeline is well formed and holds exactly one entry under the server message's key, carrying every field of the server message; every other entry comes from the patched list |
| Timeline.AckRetiresLocalKey | front/src/store/chatStore.js:193-197 | when the server copy has its own truthy `id`, a pending entry matched, and every entry already under the server id carries the client id too (the server's copy landed with a page before the ack), no entry is left under the client id and the server entry is marked 'sent' |
| Timeline.MarkReadSpec | front/src/store/chatStore.js:243-257 | messages created no later than the read instant (`readAt` or now) get `read_at` and `localStatus: 'read'` and keep every other field; later ones and those without a valid date are untouched; well-formedness is kept |
| Timeline.StatusPatchSpec | front/src/store/chatStore.js:265-272 | a nullish timestamp in a status event keeps the old one; `localStatus` becomes 'read', else 'delivered', else stays, by the strongest timestamp given; no other field, key or sort key changes |
| Timeline.StatusSpec | front/src/store/chatStore.js:259-283 | messages whose `id` differs from the event's `message_id` are unchanged; matching ones change only in `delivered_at`, `read_at` and `localStatus`, and show 'read' when `read_at` is truthy; well-formedness is kept |
| Connection.FramesOfTransmit | front/src/ws/wsClient.js:83-88 | transmitting a list of frames on one socket appends exactly those frames, in order, to the wire |
| Connection.AddHandlerSpec | front/src/ws/wsClient.js:111-115 | registering a handler adds it once (set semantics), keeps the others, and is idempotent |
| Connection.RemoveHandlerSpec | front/src/ws/wsClient.js:117-119 | removing a handler removes exactly it, keeps the others, and is a no-op for an absent handler |
| Connection.OnThenOffRestores | front/src/ws/wsClient.js:111-119 | calling `off` right after `on` with a new handler restores the previous handler set |
| Connection.CountCallsTo | front/src/ws/wsClient.js:122-124 | one pass over a handler set calls each registered handler once and no other |
| Connection.EmitCallsEachHandlerOnce | front/src/ws/wsClient.js:121-128 | `emit` of a typed event calls a handler registered for that type exactly once, however many times it was registered |
| Connection.WSClient.constructor | front/src/ws/wsClient.js:4-12 | a new client has no socket, no token, status 'disconnected', no timer, no listeners, an empty queue |
| Connection.WSClient.Emit | front/src/ws/wsClient.js:121-128 | the calls made are the typed handlers with the payload, then the `*` handlers with `{ type, payload }`; nothing else changes |
| Connection.WSClient.CallEach | front/src/ws/wsClient.js:123 | calling every handler of a set with one argument appends exactly one call per handler, in set order, and changes only the recorded calls |
| Connection.WSClient.UpdateStatus | front/src/ws/wsClient.js:130-133 | the status is set and published once on `ws_status` |
| Connection.WSClient.On | front/src/ws/wsClient.js:111-115 | the handler joins the type's set; the returned unsubscriber names the type and handler |
| Connection.WSClient.Off | front/src/ws/wsClient.js:117-119 | the handler leaves the type's set when the type has one; nothing else changes |
| Connection.WSClient.Unsubscribe | front/src/ws/wsClient.js:114 | the unsubscriber acts as `off` for the captured type and handler: that handler leaves its type's set, the type's other handlers stay in order, and other types are untouched |
| Connection.WSClient.SendRaw | front/src/ws/wsClient.js:102-109 | the frame goes out on the current socket when it is open, else it is queued; either way everything handed over grows by exactly that frame |
| Connection.WSClient.ScheduleReconnect | front/src/ws/wsClient.js:75-81 | afterwards exactly one timer is pending, whether or not one already was |
| Connection.WSClient.Send | front/src/ws/wsClient.js:90-100 | the `{type, payload}` frame is sent or queued, in order after everything handed over before; a timer is scheduled exactly when it was queued with no socket or a closed one |
| Connection.WSClient.FlushQueue | front/src/ws/wsClient.js:83-88 | when the current socket is open the whole queue goes out on it in FIFO order and the queue empties; otherwise nothing changes |
| Connection.WSClient.OpenSocket | front/src/ws/wsClient.js:40-42 | 'connecting' is published and a new connecting socket becomes current |
| Connection.WSClient.SetAuthToken | front/src/ws/wsClient.js:14-19 | the token is stored and, when the socket is open, an auth frame with it goes out at once |
| Connection.WSClient.Connect | front/src/ws/wsClient.js:21-29 | without any token nothing changes; otherwise reconnecting is enabled and, unless the current socket is open or connecting, a socket is opened and 'connecting' is published once; otherwise no handler is called |
| Connection.WSClient.Disconnect | front/src/ws/wsClient.js:31-38 | reconnecting is disabled, the current socket is closed and forgotten, 'disconnected' is published, and a pending timer is left pending |
| Connection.WSClient.OnOpen | front/src/ws/wsClient.js:44-50 | 'connected' is published once (the only handler calls), then the auth frame (when a token is held) and the frames queued before go out on the open socket in order, and the queue is empty |
| Connection.WSClient.AuthenticateAndFlush | front/src/ws/wsClient.js:46-49 | the auth frame (when a token is held) and then the queue go out on the open socket in order; otherwise they stay queued; no handler is called |
| Connection.WSClient.OnMessage | front/src/ws/wsClient.js:52-61 | a parsed frame with a truthy `type` is emitted with `payload`, else `message`, else the frame itself; anything else is dropped |
| Connection.WSClient.OnError | front/src/ws/wsClient.js:63-65 | 'error' is published and nothing else changes |
| Connection.WSClient.OnClose | front/src/ws/wsClient.js:67-72 | the socket is closed, 'disconnected' is published once (the only handler calls), and a timer is pending afterwards exactly when one was or reconnecting is enabled |
| Connection.WSClient.TimerFires | front/src/ws/wsClient.js:77-80 | the timer clears, a new socket is opened whatever the state, and 'connecting' is published once |
| Connection.QueueDrainsAfterAuth | front/src/ws/wsClient.js:44-50 | frames sent before the first connection go out after the auth frame, in order, once the socket opens |
| Connection.TimerOutlivesDisconnect | front/src/ws/wsClient.js:31-38 | a close with reconnecting on starts the timer; a later `disconnect` does not cancel it, and its expiry opens a socket |
| Connection.TimerOpensSecondSocket | front/src/ws/wsClient.js:75-81 | a timer firing after a manual reconnect opened a socket replaces that open socket with a new one |
| Connection.WSClient.ClosingStarts | front/src/ws/wsClient.js:96 | a socket the server starts closing is CLOSING (neither open nor closed) until its `onclose`; nothing else changes |
| Connection.SendWhileClosingQueues | front/src/ws/wsClient.js:90-100 | a frame sent while the current socket is closing is queued and no reconnect timer is started |
| Connection.ConnectWhileClosing | front/src/ws/wsClient.js:21-29 | `connect` during the closing handshake opens a second socket, which becomes current while the first is still closing |
| Connection.LateCloseReplacesSocket | front/src/ws/wsClient.js:66-81 | the first socket's late `onclose` then reports 'disconnected' although the new socket is open and current, and arms a timer that replaces it |
| Chat.LocalTextMessageSpec | front/src/store/chatStore.js:144-159 | the local copy and the frame carry the same client id, which is also the copy's `id` and key; the copy is 'sending' and sorts at the current time |
| Chat.PushedDialogSpec | front/src/store/chatStore.js:213-232 | a pushed message becomes the dialog's last message; its counter goes up by one only when the dialog is not open and the sender is a known other user, and is reset to 0 otherwise |
| Chat.PushedDialogsSpec | front/src/store/chatStore.js:218-231 | every dialog keeps its position and `id`; dialogs with another id are untouched; a list without the message's dialog comes back unchanged (the push adds no dialog) |
| Chat.PushedDialogsTouch | front/src/store/chatStore.js:218-231 | the message's dialog keeps every field other than `last_message`, `last_message_at` and `unread_count`, gains those three, and its preview is the message with its `created_at` |
| Chat.ResetKeysSpec | front/src/store/chatStore.js:82 | `reset` removes exactly the stored keys equal to `dialogs_cache` or starting with `messages_`, and none of the group store's keys |
| Chat.ResetKeysAppend | front/src/store/chatStore.js:82 | the removed keys keep their storage order: filtering a concatenation is the concatenation of the filtered parts |
| Chat.ResetSparesGroupKeys | front/src/store/chatStore.js:82 | the keys `reset` removes never include the group store's cache keys |
| Chat.ChatStore.constructor | front/src/store/chatStore.js:25-35 | a new store has no dialogs, no timelines, no active dialog |
| Chat.ChatStore.SetActiveDialog | front/src/store/chatStore.js:69 | only the active dialog changes |
| Chat.ChatStore.Reset | front/src/store/chatStore.js:71-89 | the state is cleared and the removed storage keys are those `ResetKeys` selects |
| Chat.ChatStore.BeginLoadMessages | front/src/store/chatStore.js:109-115 | while a load is in flight nothing happens; otherwise the timeline is marked loading and the request (with its cursor and the snapshot read) is issued; `hasMore` is not consulted |
| Chat.ChatStore.CompleteLoadMessages | front/src/store/chatStore.js:116-141 | the dialog's timeline becomes the one rebuilt from the snapshot and the fetch result; when the cache write after a successful fetch rejects, it is the snapshot with loading off, and the page is lost |
| Chat.ChatStore.SendMessage | front/src/store/chatStore.js:144-186 | the local copy is appended, the dialog's preview updated, and one `message:send` frame handed to the connection manager: written to the current socket when it was open, else queued, with a reconnect timer armed exactly when there was no socket or it was CLOSED (or one was already pending); its sockets, status, token, listeners and handler calls are left as they were |
| Chat.ChatStore.ApplyAck | front/src/store/chatStore.js:188-211 | without a message nothing changes; otherwise the dialog's timeline becomes the acked timeline and the dialog's preview is the server copy |
| Chat.ChatStore.ApplyIncomingMessage | front/src/store/chatStore.js:213-241 | a message without `dialog_id` is ignored; otherwise it is merged into its dialog's timeline and the dialog list updated as `PushedDialogs` says |
| Chat.ChatStore.MarkRead | front/src/store/chatStore.js:243-257 | the timeline is marked read up to the read instant and the dialog's counter is 0 |
| Chat.ChatStore.ApplyStatus | front/src/store/chatStore.js:259-283 | a nullish payload throws and changes nothing; a payload without dialog or message id is ignored; otherwise the message is patched and the counter cleared when `read_at` is truthy |
| Chat.SecondLoadIsIgnored | front/src/store/chatStore.js:110-111 | a second load of the same dialog while the first is in flight issues no request |
| Chat.PushDuringLoadIsLost | front/src/store/chatStore.js:110-130 | a message pushed into a dialog while its page is loading disappears when the (empty) page lands, because the page is merged into the snapshot |
| Groups.NormalizeUrlSpec | front/src/store/groupStore.js:34-38 | falsy values and "http" strings are kept, other strings gain the API base, other values throw; with an "http" base, normalising twice is normalising once |
| Groups.WithUnreadDefaultsSpec | front/src/store/groupStore.js:76 | server order is kept; a group without `unread_count` gets 0; a group with one, even null, keeps it |
| Groups.ReplaceByIdSpec | front/src/store/groupStore.js:100-102 | every group keeps its position and `id`, the groups with the returned group's id become it and the others are untouched; a list without that id comes back unchanged (the returned group is not added), and replacing again changes nothing |
| Groups.GroupSendAgrees | front/src/store/groupStore.js:152-188 | the local copy and the payload agree on client id, kind, text and file URL; with an attachment the kind is the attachment's and the text is null; without, 'text' and the text |
| Groups.PushedGroupSpec | front/src/store/groupStore.js:218-224 | a pushed message becomes the group's last message; the counter goes up by one when the group is not open and the sender is not the user, otherwise it is kept (a missing one becomes 0) |
| Groups.UnreadPoliciesDiffer | front/src/store/groupStore.js:221-223 | for the user's own message in a conversation that is not open, the dialog store resets the counter to 0 while the group store keeps it (a count of 3 stays 3) |
| Groups.PushedGroupsSpec | front/src/store/groupStore.js:218-225 | every group keeps its position and `id`; groups with another id are untouched; a list without the message's group comes back unchanged (the push adds no group) |
| Groups.PushedGroupsTouch | front/src/store/groupStore.js:218-225 | the message's group keeps every field other than `last_message`, `last_message_at` and `unread_count`, gains those three, and its preview is the message with its `created_at` |
| Groups.GroupStore.constructor | front/src/store/groupStore.js:40-46 | a new store has no groups, no error, no timelines, no active group |
| Groups.GroupStore.SetActiveGroup | front/src/store/groupStore.js:90 | only the active group changes; the list's loading, error and refreshing flags are left as they were |
| Groups.GroupStore.BeginLoadGroups | front/src/store/groupStore.js:73 | loading is on and the error cleared |
| Groups.GroupStore.CompleteLoadGroups | front/src/store/groupStore.js:74-82 | after a successful fetch the list is the server's with default counters; a failed fetch keeps the list; a failed fetch or a rejected cache write sets the error to the message or 'Failed to load groups' and rethrows, and only then; loading and refreshing end either way |
| Groups.GroupStore.CreateGroup | front/src/store/groupStore.js:92-96 | the created group is prepended and returned; the list's loading, error and refreshing flags are left as they were |
| Groups.GroupStore.AddMembers | front/src/store/groupStore.js:98-104 | the groups with the returned group's id are replaced by it, and it is returned; the list's loading, error and refreshing flags are left as they were |
| Groups.GroupStore.BeginLoadMessages | front/src/store/groupStore.js:106-110 | as for dialogs: nothing while loading, else mark loading and issue the request with the snapshot; the list's loading, error and refreshing flags are left as they were |
| Groups.GroupStore.CompleteLoadMessages | front/src/store/groupStore.js:111-127 | the group's timeline becomes the one rebuilt from the snapshot and the fetch result; a rejected cache write leaves the snapshot with loading off; the list's loading, error and refreshing flags are left as they were |
| Groups.GroupStore.SendMessage | front/src/store/groupStore.js:130-193 | a rejected upload, an upload without `url` and `absolute_url`, or a file URL that cannot be normalised throws before any store field or anything of the connection manager changes; otherwise the local copy is appended, one `group:message:send` frame written to the open socket or else queued (a reconnect timer armed exactly when there was no socket or it was CLOSED, or one was pending), and one REST post recorded exactly when the client's status before the send was not 'connected'; the connection manager's sockets, status, token, listeners and handler calls are left as they were, and so are the list's loading, error and refreshing flags |
| Groups.GroupStore.ApplyAck | front/src/store/groupStore.js:195-210 | as for dialogs, keyed by `group_id`; the group list is untouched; the list's loading, error and refreshing flags are left as they were |
| Groups.GroupStore.ApplyIncomingMessage | front/src/store/groupStore.js:212-228 | a message without `group_id` is ignored; otherwise merged into its group's timeline and the group list updated as `PushedGroups` says; the list's loading, error and refreshing flags are left as they were |
| Uuid.UuidFallback | front/src/utils/uuid.js:7-23 | the in-place masking and the hex loop produce the 8-4-4-4-12 text of the masked bytes, which is a version-4 identifier and reads back as those bytes |
| Uuid.MaskedSpec | front/src/utils/uuid.js:9-10 | byte 6 gets version nibble 4 and byte 8 variant bits 10; every other bit of every byte is kept |
| Uuid.HexSpec | front/src/utils/uuid.js:11-12 | each byte becomes two lower-case hex digits, high nibble first, in byte order |
| Uuid.UnhexHex | front/src/utils/uuid.js:11-12 | reading the hex text back two digits at a time gives the bytes |
| Uuid.UuidRoundTrip | front/src/utils/uuid.js:13-23 | removing the dashes and reading the digits back recovers the masked bytes, so distinct masked bytes give distinct identifiers |
| Uuid.UuidShape | front/src/utils/uuid.js:13-23 | every identifier has 36 characters, dashes at 8, 13, 18 and 23, lower-case hex elsewhere, '4' at 14 and one of '8', '9', 'a', 'b' at 19 |
| Bubble.StatusLabelSpec | front/src/components/MessageBubble.js:5-11 | 'Read' exactly when `read_at` is truthy; 'Delivered' exactly when only `delivered_at` is; 'Sending'/'Sent' only while neither is; '' exactly when nothing applies; peers' bubbles show no label |
| Bubble.PendingShowsSending | front/src/components/MessageBubble.js:20 | the optimistic copies of both stores show 'Sending' to their sender and nothing to a peer |
| Bubble.AckedShowsSent | front/src/store/chatStore.js:193-197 | an acknowledged entry shows at least 'Sent', and exactly 'Sent' when no delivery timestamp is set |
| Bubble.MarkedShowsRead | front/src/store/chatStore.js:243-251 | every message `markRead` stamps shows 'Read' |
| Bubble.StatusNeverDemotes | front/src/store/chatStore.js:265-272 | a status event whose timestamps are each absent or a real date never moves the label back, and one with `read_at` shows 'Read' |
| Bubble.EmptyStampDemotes | front/src/store/chatStore.js:268 | an empty-string `read_at` counts as given (`??` skips only null and undefined) and erases a read message's label |

## Left out

- Persistence through AsyncStorage (the contents of the caches, `initFromCache`, the removal of keys) is not modelled. In the modelled actions, whether a cache write resolves matters only where it is awaited inside a `try`, and is a parameter there: in `loadMessages` a rejection runs the `catch`, so the thread is the snapshot with loading off and the merged page is lost (`Chat.ChatStore.CompleteLoadMessages`, `Groups.GroupStore.CompleteLoadMessages`); in `loadGroups` the new list stays, the error is set and rethrown (`Groups.GroupStore.CompleteLoadGroups`). In the other modelled actions the writes are not awaited and change no store field. `loadDialogs`, which is not modelled, is a third place: it awaits its cache write inside its `try`, and a rejection there sets `dialogsError` and rethrows.
- Connection.WSClient.On, Connection.WSClient.Off and Connection.WSClient.Emit: `listeners` is a plain object, so a type naming an inherited member of `Object.prototype` (`constructor`, `toString`, `__proto__`) makes `on`, `off` and `emit` throw a TypeError (caught and logged inside `onmessage`, where the `*` handlers are then not called). The model treats every type as an ordinary key; neither the server nor the app uses such type names.
- The REST calls (`getMessages`, `getGroups`, `createGroupApi`, `addGroupMembersApi`, `postGroupMessage`) and the upload are parameters: a fetch result, an upload outcome, or the returned group. Rejections of their promises after the state has changed are not modelled.
- Groups.GroupStore.CreateGroup: takes the returned `group` as an object. A response without `group` (which would prepend `undefined`) is not modelled.
- Groups.GroupStore.AddMembers: likewise takes the returned `group` as an object.
- `loadDialogs`, `refreshDialogs`, `refreshGroups`, `initFromCache`, `setWsStatus` and `setAppState` are outside the modelled core.
- Screens, `authStore` and the server are outside the modelled core. The server's page contract appears only as the predicate `FollowsCursorContract`, and the screen's paging guard only as `ScreenWouldLoad`.
- `Crypto.randomUUID` and `Crypto.getRandomBytes` are not modelled. The random bytes are a parameter; the native `randomUUID` path is a foreign call.
- Dates are modelled as instants in milliseconds. ISO-8601 text is stood in for by `DateText`, an injective text with no "http" prefix. Date parsing of arbitrary strings is modelled as invalid (NaN).
- MessageMerge.UniqueMerge: a NaN comparison inside the sort (a message without a valid `created_at`) is modelled as the key 0. JavaScript's sort with an inconsistent comparator is implementation-defined.
- Handler effects are not modelled. A handler's call is recorded; what it does, and any re-entry into the client from inside a handler, are not modelled.
- Timer scheduling is not modelled. The 3000 ms delay is not modelled; the timer's expiry is an event.
- The JSON text of frames is not modelled; frames are values. `console.warn` on an unparsable frame is not modelled.
- Objects are compared by value, not by reference. `===` on two distinct objects with equal fields is false in JavaScript, true here. The ids the stores compare are numbers or strings.
- Spreading a string (`{ ...'ab' }` yields index keys) is modelled as spreading nothing.
- Chat.ChatStore.SendMessage and Groups.GroupStore.SendMessage: require the connection manager's invariant `Valid()` (nothing queued while the socket is open). This holds between events; it is not a demand of the source.
