/** The direct-dialog store: the dialog list, one timeline per dialog and the
    active dialog, changed only by the actions below. Frames go out through
    the shared connection manager. */
module Chat {
  import opened JsValues
  import opened MessageMerge
  import opened Timeline
  import opened Connection
  import opened StableSort

  /** The optimistic copy of a text message the user just sent. */
  function LocalTextMessage(dialogId: JsValue, userId: JsValue, text: JsValue, clientMsgId: string, now: int): JsObject {
    map[
      "id" := Str(clientMsgId),
      "client_msg_id" := Str(clientMsgId),
      "dialog_id" := dialogId,
      "sender_id" := userId,
      "type" := Str("text"),
      "text" := text,
      "created_at" := Stamp(now),
      "delivered_at" := Null,
      "read_at" := Null,
      "localStatus" := Str("sending")
    ]
  }

  /** The payload of the `message:send` frame. */
  function SendPayload(dialogId: JsValue, text: JsValue, clientMsgId: string): JsValue {
    Obj(map["dialog_id" := dialogId, "client_msg_id" := Str(clientMsgId), "msg_type" := Str("text"), "text" := text])
  }

  /** The local copy and the frame carry the same client id, which is also the
      local copy's `id` and hence its key; the copy is pending and stamped now. */
  lemma LocalTextMessageSpec(dialogId: JsValue, userId: JsValue, text: JsValue, clientMsgId: string, now: int)
    requires clientMsgId != ""
    ensures var m := LocalTextMessage(dialogId, userId, text, clientMsgId, now);
      && m["id"] == m["client_msg_id"] == Str(clientMsgId)
      && Key(m) == Str(clientMsgId)
      && m["localStatus"] == Str("sending")
      && SortKey(m) == now
      && Get(AsObject(SendPayload(dialogId, text, clientMsgId)), "client_msg_id") == m["client_msg_id"]
  {
  }

  /** The dialog's `unread_count` after a push: reset to 0 when the dialog is
      open or the sender is not a known other user, `(unread_count || 0) + 1`
      otherwise. */
  function PushedUnread(d: JsObject, message: JsObject, dialogId: JsValue, activeDialogId: JsValue, currentUserId: JsValue): JsValue {
    var shouldCountUnread := Truthy(currentUserId) && Get(message, "sender_id") != currentUserId;
    if activeDialogId == dialogId || !shouldCountUnread then Num(0) else PlusOne(Get(d, "unread_count"))
  }

  /** A dialog after a push into it: `{ ...d, last_message, last_message_at, unread_count }`. */
  function PushedDialog(d: JsObject, message: JsValue, dialogId: JsValue, activeDialogId: JsValue, currentUserId: JsValue): JsObject {
    var m := AsObject(message);
    d + map[
      "last_message" := message,
      "last_message_at" := Get(m, "created_at"),
      "unread_count" := PushedUnread(d, m, dialogId, activeDialogId, currentUserId)]
  }

  /** The dialog list after a push into `dialogId`. */
  function PushedDialogs(dialogs: seq<JsObject>, message: JsValue, dialogId: JsValue, activeDialogId: JsValue, currentUserId: JsValue): seq<JsObject> {
    seq(|dialogs|, i requires 0 <= i < |dialogs| =>
      if Get(dialogs[i], "id") != dialogId then dialogs[i]
      else PushedDialog(dialogs[i], message, dialogId, activeDialogId, currentUserId))
  }

  /** The counter goes up by exactly one (from a number, or from a missing or
      falsy count) when the dialog is not open and the sender is a known
      other user, and is 0 otherwise; the preview becomes the message. */
  lemma PushedDialogSpec(d: JsObject, message: JsValue, dialogId: JsValue, activeDialogId: JsValue, currentUserId: JsValue)
    ensures var p := PushedDialog(d, message, dialogId, activeDialogId, currentUserId);
      var u := p["unread_count"];
      var counted := activeDialogId != dialogId && Truthy(currentUserId)
                     && Get(AsObject(message), "sender_id") != currentUserId;
      && p["last_message"] == message
      && (!counted ==> u == Num(0))
      && (counted && Get(d, "unread_count").Num? ==> u == Num(Get(d, "unread_count").n + 1))
      && (counted && !Truthy(Get(d, "unread_count")) ==> u == Num(1))
  {
  }

  /** A push never changes the `id` of the conversation it touches. */
  lemma PushedDialogKeepsId(d: JsObject, message: JsValue, dialogId: JsValue, activeDialogId: JsValue, currentUserId: JsValue)
    ensures Get(PushedDialog(d, message, dialogId, activeDialogId, currentUserId), "id") == Get(d, "id")
  {
  }

  /** The fields a push leaves on the conversation it touches. */
  lemma PushedDialogFields(d: JsObject, message: JsValue, dialogId: JsValue, activeDialogId: JsValue, currentUserId: JsValue)
    ensures var p := PushedDialog(d, message, dialogId, activeDialogId, currentUserId);
      && p.Keys == d.Keys + {"last_message", "last_message_at", "unread_count"}
      && p["last_message"] == message
      && p["last_message_at"] == Get(AsObject(message), "created_at")
      && (forall k :: k in d && k !in {"last_message", "last_message_at", "unread_count"} ==> p[k] == d[k])
  {
  }

  /** Only the dialog the message belongs to changes: every entry keeps its
      position and its `id`, and a list without that dialog is returned as
      it was. */
  lemma PushedDialogsSpec(dialogs: seq<JsObject>, message: JsValue, dialogId: JsValue, activeDialogId: JsValue, currentUserId: JsValue)
    ensures |PushedDialogs(dialogs, message, dialogId, activeDialogId, currentUserId)| == |dialogs|
    ensures forall i :: 0 <= i < |dialogs| ==> Get(PushedDialogs(dialogs, message, dialogId, activeDialogId, currentUserId)[i], "id") == Get(dialogs[i], "id")
    ensures forall i :: 0 <= i < |dialogs| && Get(dialogs[i], "id") != dialogId ==> PushedDialogs(dialogs, message, dialogId, activeDialogId, currentUserId)[i] == dialogs[i]
    ensures (forall i :: 0 <= i < |dialogs| ==> Get(dialogs[i], "id") != dialogId) ==> PushedDialogs(dialogs, message, dialogId, activeDialogId, currentUserId) == dialogs
  {
    var r := PushedDialogs(dialogs, message, dialogId, activeDialogId, currentUserId);
    forall i | 0 <= i < |dialogs|
      ensures Get(r[i], "id") == Get(dialogs[i], "id")
    {
      PushedDialogKeepsId(dialogs[i], message, dialogId, activeDialogId, currentUserId);
    }
    if forall i :: 0 <= i < |dialogs| ==> Get(dialogs[i], "id") != dialogId {
      PushedDialogsAbsent(dialogs, message, dialogId, activeDialogId, currentUserId);
    }
  }

  /** A push into a dialog the list does not hold leaves the list as it was. */
  lemma PushedDialogsAbsent(dialogs: seq<JsObject>, message: JsValue, dialogId: JsValue, activeDialogId: JsValue, currentUserId: JsValue)
    requires forall i :: 0 <= i < |dialogs| ==> Get(dialogs[i], "id") != dialogId
    ensures PushedDialogs(dialogs, message, dialogId, activeDialogId, currentUserId) == dialogs
  {
    var r := PushedDialogs(dialogs, message, dialogId, activeDialogId, currentUserId);
    assert forall i :: 0 <= i < |r| ==> r[i] == dialogs[i];
  }

  /** The dialog the message belongs to keeps every field other than the
      preview, its instant and the counter, gains those three, and shows the
      message. */
  lemma PushedDialogsTouch(dialogs: seq<JsObject>, message: JsValue, dialogId: JsValue, activeDialogId: JsValue, currentUserId: JsValue)
    ensures var r := PushedDialogs(dialogs, message, dialogId, activeDialogId, currentUserId);
      forall i :: 0 <= i < |r| && Get(dialogs[i], "id") == dialogId ==>
        && r[i].Keys == dialogs[i].Keys + {"last_message", "last_message_at", "unread_count"}
        && r[i]["last_message"] == message
        && r[i]["last_message_at"] == Get(AsObject(message), "created_at")
        && (forall k :: k in dialogs[i] && k !in {"last_message", "last_message_at", "unread_count"} ==> r[i][k] == dialogs[i][k])
  {
    forall i | 0 <= i < |dialogs| && Get(dialogs[i], "id") == dialogId {
      PushedDialogFields(dialogs[i], message, dialogId, activeDialogId, currentUserId);
    }
  }

  /** `reset` removes the cached dialog list and every cached direct timeline. */
  predicate ResetRemoves(k: string) {
    k == "dialogs_cache" || StartsWith(k, "messages_")
  }

  function ResetKeys(keys: seq<string>): seq<string>
    decreases |keys|
  {
    if keys == [] then []
    else (if ResetRemoves(keys[0]) then [keys[0]] else []) + ResetKeys(keys[1..])
  }

  /** Exactly the stored keys of this store are removed, never the group
      store's (`groups_cache`, `group_messages_*`). */
  lemma {:induction false} ResetKeysSpec(keys: seq<string>)
    ensures forall k :: k in ResetKeys(keys) <==> k in keys && ResetRemoves(k)
    ensures forall k :: k in ResetKeys(keys) ==> k != "groups_cache" && !StartsWith(k, "group_messages_")
    decreases |keys|
  {
    if keys != [] {
      ResetKeysSpec(keys[1..]);
      assert keys == [keys[0]] + keys[1..];
      ResetSparesGroupKeys(keys[0]);
    }
  }

  /** The filter keeps the storage order: filtering a concatenation is the
      concatenation of the filtered parts. */
  lemma {:induction false} ResetKeysAppend(xs: seq<string>, ys: seq<string>)
    ensures ResetKeys(xs + ys) == ResetKeys(xs) + ResetKeys(ys)
    decreases |xs|
  {
    if xs == [] {
      assert xs + ys == ys;
    } else {
      assert (xs + ys)[0] == xs[0];
      assert (xs + ys)[1..] == xs[1..] + ys;
      ResetKeysAppend(xs[1..], ys);
    }
  }

  lemma ResetSparesGroupKeys(k: string)
    ensures ResetRemoves(k) ==> k != "groups_cache" && !StartsWith(k, "group_messages_")
  {
    if StartsWith(k, "messages_") {
      FirstChar(k, "messages_");
    }
    if StartsWith(k, "group_messages_") {
      FirstChar(k, "group_messages_");
    }
  }

  lemma FirstChar(k: string, p: string)
    requires StartsWith(k, p) && p != ""
    ensures k[0] == p[0]
  {
    assert k[..|p|][0] == k[0];
  }

  class ChatStore {
    var dialogs: seq<JsObject>
    var messagesByDialogId: map<string, Thread>
    var activeDialogId: JsValue
    /** The shared connection manager. */
    const ws: WSClient

    constructor(client: WSClient)
      ensures dialogs == [] && messagesByDialogId == map[] && activeDialogId == Null && ws == client
    {
      dialogs, messagesByDialogId, activeDialogId := [], map[], Null;
      ws := client;
    }

    function ThreadFor(dialogId: JsValue): Thread
      reads this
    {
      ThreadOf(messagesByDialogId, dialogId)
    }

    /** `setActiveDialog(dialogId)` */
    method SetActiveDialog(dialogId: JsValue)
      modifies this
      ensures activeDialogId == dialogId
      ensures dialogs == old(dialogs) && messagesByDialogId == old(messagesByDialogId)
    {
      activeDialogId := dialogId;
    }

    /** `reset()`: clear the state; returns the storage keys it removes. */
    method Reset(storedKeys: seq<string>) returns (toRemove: seq<string>)
      modifies this
      ensures dialogs == [] && messagesByDialogId == map[] && activeDialogId == Null
      ensures toRemove == ResetKeys(storedKeys)
    {
      dialogs, messagesByDialogId, activeDialogId := [], map[], Null;
      toRemove := ResetKeys(storedKeys);
    }

    /** `loadMessages(dialogId)` up to the fetch: nothing while a load is in
        flight; otherwise mark the dialog loading and issue the request,
        remembering the state read. `hasMore` is not consulted. */
    method BeginLoadMessages(dialogId: JsValue) returns (req: Option<PageRequest>)
      modifies this
      ensures var cur := old(ThreadFor(dialogId));
        if cur.loading
        then req == None && messagesByDialogId == old(messagesByDialogId)
        else && req == Some(PageRequest(dialogId, Before(cur), cur))
             && messagesByDialogId == old(messagesByDialogId)[PropertyKey(dialogId) := cur.(loading := true)]
      ensures dialogs == old(dialogs) && activeDialogId == old(activeDialogId)
    {
      var current := ThreadFor(dialogId);
      if current.loading {
        return None;
      }
      messagesByDialogId := messagesByDialogId[PropertyKey(dialogId) := current.(loading := true)];
      req := Some(PageRequest(dialogId, Before(current), current));
    }

    /** `loadMessages(dialogId)` after the fetch settles: the dialog's state is
        rebuilt from the snapshot taken at the start. `cached` says whether the
        cache write that follows a successful fetch resolved; a rejection there
        runs the same `catch` as a failed fetch, and the merged page is lost. */
    method CompleteLoadMessages(req: PageRequest, r: FetchResult, cached: bool)
      modifies this
      ensures cached ==> messagesByDialogId == old(messagesByDialogId)[PropertyKey(req.conversation) := Completed(req.snapshot, r)]
      ensures !cached ==> messagesByDialogId == old(messagesByDialogId)[PropertyKey(req.conversation) := req.snapshot.(loading := false)]
      ensures dialogs == old(dialogs) && activeDialogId == old(activeDialogId)
    {
      var settled := if cached then r else FetchFailed;
      messagesByDialogId := messagesByDialogId[PropertyKey(req.conversation) := Completed(req.snapshot, settled)];
    }

    /** `sendMessage(dialogId, text)` with the current user's id, the new
        client id and the clock passed in: append the local copy (without
        re-sorting), touch the dialog, send one `message:send` frame. */
    method SendMessage(dialogId: JsValue, text: JsValue, userId: JsValue, clientMsgId: string, now: int)
      requires ws.Valid()
      modifies this, ws
      ensures ws.Valid()
      ensures var cur := old(ThreadFor(dialogId));
        messagesByDialogId == old(messagesByDialogId)[PropertyKey(dialogId) :=
          cur.(items := cur.items + [LocalTextMessage(dialogId, userId, text, clientMsgId, now)], loading := false)]
      ensures dialogs == PatchWhereId(old(dialogs), dialogId, map[
        "last_message" := Obj(LocalTextMessage(dialogId, userId, text, clientMsgId, now)),
        "last_message_at" := Stamp(now)])
      ensures ws.Outbound() == old(ws.Outbound()) + [EventFrame("message:send", SendPayload(dialogId, text, clientMsgId))]
      ensures old(ws.IsOpen()) ==>
        ws.wire == old(ws.wire) + [Transmission(old(ws.ws).value, EventFrame("message:send", SendPayload(dialogId, text, clientMsgId)))]
      ensures !old(ws.IsOpen()) ==>
        ws.wire == old(ws.wire) && ws.pendingMessages == old(ws.pendingMessages) + [EventFrame("message:send", SendPayload(dialogId, text, clientMsgId))]
      ensures ws.reconnectTimer == (old(ws.reconnectTimer) || (!old(ws.IsOpen()) && old(ws.GoneOrClosed())))
      ensures activeDialogId == old(activeDialogId)
      ensures unchanged(ws`sockets, ws`ws, ws`token, ws`status, ws`shouldReconnect, ws`listeners, ws`calls)
    {
      var localMsg := LocalTextMessage(dialogId, userId, text, clientMsgId, now);
      var current := ThreadFor(dialogId);
      messagesByDialogId := messagesByDialogId[PropertyKey(dialogId) :=
        current.(items := current.items + [localMsg], loading := false)];
      dialogs := PatchWhereId(dialogs, dialogId, map["last_message" := Obj(localMsg), "last_message_at" := Stamp(now)]);
      ws.Send("message:send", SendPayload(dialogId, text, clientMsgId));
    }

    /** `applyAck(ack)`: without a message, nothing; otherwise fold the server
        copy into the pending entry and touch the dialog. */
    method ApplyAck(ack: JsValue)
      modifies this
      ensures var a := AsObject(ack);
        var message := Get(a, "message");
        if !Truthy(message)
        then dialogs == old(dialogs) && messagesByDialogId == old(messagesByDialogId)
        else
          var m := AsObject(message);
          var id := Get(m, "dialog_id");
          var cur := old(ThreadFor(id));
          && messagesByDialogId == old(messagesByDialogId)[PropertyKey(id) :=
               cur.(items := AckedItems(cur.items, Get(a, "client_msg_id"), m))]
          && dialogs == PatchWhereId(old(dialogs), id, map["last_message" := message, "last_message_at" := Get(m, "created_at")])
      ensures activeDialogId == old(activeDialogId)
    {
      var a := AsObject(ack);
      var message := Get(a, "message");
      if !Truthy(message) {
        return;
      }
      var m := AsObject(message);
      var id := Get(m, "dialog_id");
      var current := ThreadFor(id);
      messagesByDialogId := messagesByDialogId[PropertyKey(id) :=
        current.(items := AckedItems(current.items, Get(a, "client_msg_id"), m))];
      dialogs := PatchWhereId(dialogs, id, map["last_message" := message, "last_message_at" := Get(m, "created_at")]);
    }

    /** `applyIncomingMessage(message)` with the current user's id passed in:
        ignored without a `dialog_id`; otherwise merged into that dialog's
        timeline, and the dialog's preview and counter updated. */
    method ApplyIncomingMessage(message: JsValue, currentUserId: JsValue)
      modifies this
      ensures var m := AsObject(message);
        var id := Get(m, "dialog_id");
        if !Truthy(id)
        then dialogs == old(dialogs) && messagesByDialogId == old(messagesByDialogId)
        else
          var cur := old(ThreadFor(id));
          && messagesByDialogId == old(messagesByDialogId)[PropertyKey(id) := cur.(items := Merge(cur.items, [m]))]
          && dialogs == PushedDialogs(old(dialogs), message, id, old(activeDialogId), currentUserId)
      ensures activeDialogId == old(activeDialogId)
    {
      var m := AsObject(message);
      var id := Get(m, "dialog_id");
      if !Truthy(id) {
        return;
      }
      var current := ThreadFor(id);
      messagesByDialogId := messagesByDialogId[PropertyKey(id) := current.(items := Merge(current.items, [m]))];
      dialogs := PushedDialogs(dialogs, message, id, activeDialogId, currentUserId);
    }

    /** `markRead(dialogId, lastMessageId, readAt)` with the clock passed in;
        `lastMessageId` plays no part. */
    method MarkRead(dialogId: JsValue, lastMessageId: JsValue, readAt: JsValue, now: int)
      modifies this
      ensures var cur := old(ThreadFor(dialogId));
        messagesByDialogId == old(messagesByDialogId)[PropertyKey(dialogId) := cur.(items := MarkReadItems(cur.items, readAt, now))]
      ensures dialogs == PatchWhereId(old(dialogs), dialogId, map["unread_count" := Num(0)])
      ensures activeDialogId == old(activeDialogId)
    {
      var current := ThreadFor(dialogId);
      messagesByDialogId := messagesByDialogId[PropertyKey(dialogId) := current.(items := MarkReadItems(current.items, readAt, now))];
      dialogs := PatchWhereId(dialogs, dialogId, map["unread_count" := Num(0)]);
    }

    /** `applyStatus(payload)`: a nullish payload throws (destructuring it
        fails) and changes nothing; a payload without `dialog_id` or
        `message_id` is ignored; otherwise the message is patched, and the
        dialog's counter cleared when `read_at` is given. */
    method ApplyStatus(payload: JsValue) returns (threw: bool)
      modifies this
      ensures threw <==> Nullish(payload)
      ensures var p := AsObject(payload);
        var id, mid := Get(p, "dialog_id"), Get(p, "message_id");
        var deliveredAt, readAt := Get(p, "delivered_at"), Get(p, "read_at");
        if threw || !Truthy(id) || !Truthy(mid)
        then dialogs == old(dialogs) && messagesByDialogId == old(messagesByDialogId)
        else
          var cur := old(ThreadFor(id));
          && messagesByDialogId == old(messagesByDialogId)[PropertyKey(id) :=
               cur.(items := StatusItems(cur.items, mid, deliveredAt, readAt))]
          && dialogs == if Truthy(readAt) then PatchWhereId(old(dialogs), id, map["unread_count" := Num(0)]) else old(dialogs)
      ensures activeDialogId == old(activeDialogId)
    {
      if Nullish(payload) {
        return true;
      }
      threw := false;
      var p := AsObject(payload);
      var id, mid := Get(p, "dialog_id"), Get(p, "message_id");
      var deliveredAt, readAt := Get(p, "delivered_at"), Get(p, "read_at");
      if !Truthy(id) || !Truthy(mid) {
        return;
      }
      var current := ThreadFor(id);
      messagesByDialogId := messagesByDialogId[PropertyKey(id) := current.(items := StatusItems(current.items, mid, deliveredAt, readAt))];
      if Truthy(readAt) {
        dialogs := PatchWhereId(dialogs, id, map["unread_count" := Num(0)]);
      }
    }
  }

  // ---------------------------------------------------------------------------
  // Runs of the store.

  /** A second `loadMessages` while the first is in flight issues no request. */
  method SecondLoadIsIgnored() returns (first: Option<PageRequest>, second: Option<PageRequest>)
    ensures first == Some(PageRequest(Num(1), None, InitialMessagesState()))
    ensures second == None
  {
    var c := new WSClient();
    var s := new ChatStore(c);
    first := s.BeginLoadMessages(Num(1));
    second := s.BeginLoadMessages(Num(1));
  }

  /** A message pushed while a page is loading is lost when the page lands:
      the page is merged into the state read before the request. */
  method PushDuringLoadIsLost() returns (during: seq<JsObject>, after: seq<JsObject>)
    ensures during == [map["id" := Num(9), "dialog_id" := Num(1), "created_at" := Stamp(5)]]
    ensures after == []
  {
    var c := new WSClient();
    var s := new ChatStore(c);
    var req := s.BeginLoadMessages(Num(1));
    var pushed: JsObject := map["id" := Num(9), "dialog_id" := Num(1), "created_at" := Stamp(5)];
    s.ApplyIncomingMessage(Obj(pushed), Num(2));
    during := s.ThreadFor(Num(1)).items;
    assert SpreadEach(SetEach([], []), [pushed]) == [Entry(Num(9), pushed)];
    assert Values([Entry(Num(9), pushed)]) == [pushed];
    assert [pushed][..0] == [];
    assert SortBy([pushed], SortKey) == [pushed];
    assert Merge([], [pushed]) == [pushed];
    s.CompleteLoadMessages(req.value, Fetched([], Null), true);
    after := s.ThreadFor(Num(1)).items;
    assert Merge([], []) == [];
  }
}
