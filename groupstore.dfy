/** The group store: the group list, one timeline per group and the active
    group. Message actions mirror the direct-dialog store, with their own
    unread rule; sending can carry an uploaded attachment and falls back to a
    REST post when the socket is not connected. */
module Groups {
  import opened JsValues
  import opened MessageMerge
  import opened Timeline
  import opened Connection
  import Chat

  /** `normalizeUrl(url)` against the API base: falsy values and strings
      starting with "http" are returned as they are, other strings are
      prefixed with the base; any other value makes `url.startsWith` throw
      (`None`). */
  function NormalizeUrl(base: string, url: JsValue): Option<JsValue> {
    if !Truthy(url) then Some(url)
    else match url
      case Str(s) => if StartsWith(s, "http") then Some(url) else Some(Str(base + s))
      case Stamp(t) => Some(Str(base + DateText(t)))
      case _ => None
  }

  lemma StartsWithPrefix(a: string, b: string, p: string)
    requires StartsWith(a, p)
    ensures StartsWith(a + b, p)
  {
    assert (a + b)[..|p|] == a[..|p|];
  }

  /** Strings always normalise; an "http" URL or a falsy value is kept, any
      other string gains the base; with an "http" base, normalising twice is
      normalising once. */
  lemma NormalizeUrlSpec(base: string, url: JsValue)
    ensures !Truthy(url) ==> NormalizeUrl(base, url) == Some(url)
    ensures url.Str? && StartsWith(url.s, "http") ==> NormalizeUrl(base, url) == Some(url)
    ensures url.Str? && url.s != "" && !StartsWith(url.s, "http") ==> NormalizeUrl(base, url) == Some(Str(base + url.s))
    ensures (url.Num? && url.n != 0) || (url.Bool? && url.b) || url.Obj? ==> NormalizeUrl(base, url) == None
    ensures StartsWith(base, "http") && NormalizeUrl(base, url).Some? ==>
      NormalizeUrl(base, NormalizeUrl(base, url).value) == NormalizeUrl(base, url)
  {
    if StartsWith(base, "http") {
      match url
      case Str(s) => StartsWithPrefix(base, s, "http");
      case Stamp(t) => StartsWithPrefix(base, DateText(t), "http");
      case _ =>
    }
  }

  /** `{ unread_count: g.unread_count || 0, ...g }` */
  function WithUnreadDefault(g: JsObject): JsObject {
    map["unread_count" := Or(Get(g, "unread_count"), Num(0))] + g
  }

  function WithUnreadDefaults(gs: seq<JsObject>): seq<JsObject> {
    seq(|gs|, i requires 0 <= i < |gs| => WithUnreadDefault(gs[i]))
  }

  /** Server order is kept; a group without `unread_count` gets 0; a group
      that has one keeps it as it is, even a null one, since its own fields
      are spread last. */
  lemma WithUnreadDefaultsSpec(gs: seq<JsObject>)
    ensures |WithUnreadDefaults(gs)| == |gs|
    ensures forall i :: 0 <= i < |gs| && "unread_count" !in gs[i] ==>
      WithUnreadDefaults(gs)[i] == gs[i]["unread_count" := Num(0)]
    ensures forall i :: 0 <= i < |gs| && "unread_count" in gs[i] ==> WithUnreadDefaults(gs)[i] == gs[i]
  {
  }

  /** `groups.map(g => g.id === group.id ? group : g)` */
  function ReplaceById(gs: seq<JsObject>, group: JsObject): seq<JsObject> {
    seq(|gs|, i requires 0 <= i < |gs| => if Get(gs[i], "id") == Get(group, "id") then group else gs[i])
  }

  /** Exactly the groups with the returned group's id are replaced: every
      entry keeps its position and its `id`, a list without that group is
      returned as it was (the server's copy is not added), and replacing
      again with the same copy changes nothing. */
  lemma ReplaceByIdSpec(gs: seq<JsObject>, group: JsObject)
    ensures var r := ReplaceById(gs, group);
      && |r| == |gs|
      && (forall i :: 0 <= i < |r| ==> Get(r[i], "id") == Get(gs[i], "id"))
      && (forall i :: 0 <= i < |r| && Get(gs[i], "id") != Get(group, "id") ==> r[i] == gs[i])
      && (forall i :: 0 <= i < |r| && Get(gs[i], "id") == Get(group, "id") ==> r[i] == group)
      && ((forall i :: 0 <= i < |gs| ==> Get(gs[i], "id") != Get(group, "id")) ==> r == gs)
      && ReplaceById(r, group) == r
  {
    var r := ReplaceById(gs, group);
    if forall i :: 0 <= i < |gs| ==> Get(gs[i], "id") != Get(group, "id") {
      assert forall i :: 0 <= i < |r| ==> r[i] == gs[i];
    }
    assert forall i :: 0 <= i < |r| ==> ReplaceById(r, group)[i] == r[i];
  }

  /** What the upload step settled with. */
  datatype UploadOutcome = Uploaded(result: JsValue) | UploadRejected

  /** How `sendMessage` ended: normally, or by throwing at one of its steps. */
  datatype SendOutcome = Sent | UploadThrew | UploadFailed | FileUrlThrew

  /** A `postGroupMessage(groupId, payload)` call. */
  datatype RestPost = RestPost(groupId: JsValue, payload: JsObject)

  /** `!uploaded?.url && !uploaded?.absolute_url` */
  predicate UploadMissingUrl(uploaded: JsValue) {
    !Truthy(Get(AsObject(uploaded), "url")) && !Truthy(Get(AsObject(uploaded), "absolute_url"))
  }

  /** `normalizeUrl(uploaded?.absolute_url || uploaded?.url)` */
  function FileUrl(base: string, uploaded: JsValue): Option<JsValue> {
    var u := AsObject(uploaded);
    NormalizeUrl(base, Or(Get(u, "absolute_url"), Get(u, "url")))
  }

  function MessageType(attachment: JsValue): JsValue {
    if Truthy(attachment) then Get(AsObject(attachment), "kind") else Str("text")
  }

  function MessageText(attachment: JsValue, text: JsValue): JsValue {
    if Truthy(attachment) then Null else text
  }

  /** The optimistic copy of a group message. */
  function LocalGroupMessage(groupId: JsValue, userId: JsValue, text: JsValue, attachment: JsValue,
                             uploaded: JsValue, fileUrl: JsValue, clientMsgId: string, now: int): JsObject {
    var u := AsObject(uploaded);
    map[
      "id" := Str(clientMsgId),
      "client_msg_id" := Str(clientMsgId),
      "group_id" := groupId,
      "sender_id" := userId,
      "type" := MessageType(attachment),
      "text" := MessageText(attachment, text),
      "file_url" := fileUrl,
      "file_name" := Get(u, "file_name"),
      "file_mime" := Get(u, "file_mime"),
      "file_size" := Get(u, "file_size"),
      "created_at" := Stamp(now),
      "delivered_at" := Null,
      "read_at" := Null,
      "localStatus" := Str("sending")
    ]
  }

  /** The payload of the `group:message:send` frame and of the REST fallback. */
  function GroupPayload(groupId: JsValue, text: JsValue, attachment: JsValue, uploaded: JsValue,
                        fileUrl: JsValue, clientMsgId: string): JsObject {
    var u := AsObject(uploaded);
    map[
      "group_id" := groupId,
      "client_msg_id" := Str(clientMsgId),
      "msg_type" := MessageType(attachment),
      "text" := MessageText(attachment, text),
      "file_url" := fileUrl,
      "file_name" := Get(u, "file_name"),
      "file_mime" := Get(u, "file_mime"),
      "file_size" := Get(u, "file_size")
    ]
  }

  /** The local copy and the payload agree on the client id, the kind, the
      text and the file; with an attachment the kind is the attachment's and
      the text is null. */
  lemma GroupSendAgrees(groupId: JsValue, userId: JsValue, text: JsValue, attachment: JsValue,
                        uploaded: JsValue, fileUrl: JsValue, clientMsgId: string, now: int)
    ensures var m := LocalGroupMessage(groupId, userId, text, attachment, uploaded, fileUrl, clientMsgId, now);
      var p := GroupPayload(groupId, text, attachment, uploaded, fileUrl, clientMsgId);
      && m["client_msg_id"] == p["client_msg_id"] == m["id"]
      && m["type"] == p["msg_type"] && m["text"] == p["text"] && m["file_url"] == p["file_url"] == fileUrl
      && m["localStatus"] == Str("sending")
      && (Truthy(attachment) ==> m["type"] == Get(AsObject(attachment), "kind") && m["text"] == Null)
      && (!Truthy(attachment) ==> m["type"] == Str("text") && m["text"] == text)
  {
  }

  /** The group's `unread_count` after a push: `(count || 0) + 1` when the
      group is not open and the sender is not the current user, otherwise
      `count || 0`. */
  function PushedUnread(g: JsObject, message: JsObject, groupId: JsValue, activeGroupId: JsValue, currentUserId: JsValue): JsValue {
    var shouldCountUnread := activeGroupId != groupId && Get(message, "sender_id") != currentUserId;
    if shouldCountUnread then PlusOne(Get(g, "unread_count")) else Or(Get(g, "unread_count"), Num(0))
  }

  function PushedGroup(g: JsObject, message: JsValue, groupId: JsValue, activeGroupId: JsValue, currentUserId: JsValue): JsObject {
    var m := AsObject(message);
    g + map[
      "last_message" := message,
      "last_message_at" := Get(m, "created_at"),
      "unread_count" := PushedUnread(g, m, groupId, activeGroupId, currentUserId)]
  }

  function PushedGroups(gs: seq<JsObject>, message: JsValue, groupId: JsValue, activeGroupId: JsValue, currentUserId: JsValue): seq<JsObject> {
    seq(|gs|, i requires 0 <= i < |gs| =>
      if Get(gs[i], "id") != groupId then gs[i] else PushedGroup(gs[i], message, groupId, activeGroupId, currentUserId))
  }

  /** The counter goes up by exactly one when the group is not open and the
      sender is not the current user; otherwise a numeric count is kept and a
      missing one becomes 0. */
  lemma PushedGroupSpec(g: JsObject, message: JsValue, groupId: JsValue, activeGroupId: JsValue, currentUserId: JsValue)
    ensures var p := PushedGroup(g, message, groupId, activeGroupId, currentUserId);
      var u := p["unread_count"];
      var c := Get(g, "unread_count");
      var counted := activeGroupId != groupId && Get(AsObject(message), "sender_id") != currentUserId;
      && p["last_message"] == message
      && (counted && c.Num? ==> u == Num(c.n + 1))
      && (counted && !Truthy(c) ==> u == Num(1))
      && (!counted && Truthy(c) ==> u == c)
      && (!counted && !Truthy(c) ==> u == Num(0))
  {
  }

  /** A push never changes the `id` of the conversation it touches. */
  lemma PushedGroupKeepsId(g: JsObject, message: JsValue, groupId: JsValue, activeGroupId: JsValue, currentUserId: JsValue)
    ensures Get(PushedGroup(g, message, groupId, activeGroupId, currentUserId), "id") == Get(g, "id")
  {
  }

  /** The fields a push leaves on the conversation it touches. */
  lemma PushedGroupFields(g: JsObject, message: JsValue, groupId: JsValue, activeGroupId: JsValue, currentUserId: JsValue)
    ensures var p := PushedGroup(g, message, groupId, activeGroupId, currentUserId);
      && p.Keys == g.Keys + {"last_message", "last_message_at", "unread_count"}
      && p["last_message"] == message
      && p["last_message_at"] == Get(AsObject(message), "created_at")
      && (forall k :: k in g && k !in {"last_message", "last_message_at", "unread_count"} ==> p[k] == g[k])
  {
  }

  /** Only the group the message belongs to changes: every entry keeps its
      position and its `id`, and a list without that group is returned as
      it was. */
  lemma PushedGroupsSpec(gs: seq<JsObject>, message: JsValue, groupId: JsValue, activeGroupId: JsValue, currentUserId: JsValue)
    ensures |PushedGroups(gs, message, groupId, activeGroupId, currentUserId)| == |gs|
    ensures forall i :: 0 <= i < |gs| ==> Get(PushedGroups(gs, message, groupId, activeGroupId, currentUserId)[i], "id") == Get(gs[i], "id")
    ensures forall i :: 0 <= i < |gs| && Get(gs[i], "id") != groupId ==> PushedGroups(gs, message, groupId, activeGroupId, currentUserId)[i] == gs[i]
    ensures (forall i :: 0 <= i < |gs| ==> Get(gs[i], "id") != groupId) ==> PushedGroups(gs, message, groupId, activeGroupId, currentUserId) == gs
  {
    var r := PushedGroups(gs, message, groupId, activeGroupId, currentUserId);
    forall i | 0 <= i < |gs|
      ensures Get(r[i], "id") == Get(gs[i], "id")
    {
      PushedGroupKeepsId(gs[i], message, groupId, activeGroupId, currentUserId);
    }
    if forall i :: 0 <= i < |gs| ==> Get(gs[i], "id") != groupId {
      PushedGroupsAbsent(gs, message, groupId, activeGroupId, currentUserId);
    }
  }

  /** A push into a group the list does not hold leaves the list as it was. */
  lemma PushedGroupsAbsent(gs: seq<JsObject>, message: JsValue, groupId: JsValue, activeGroupId: JsValue, currentUserId: JsValue)
    requires forall i :: 0 <= i < |gs| ==> Get(gs[i], "id") != groupId
    ensures PushedGroups(gs, message, groupId, activeGroupId, currentUserId) == gs
  {
    var r := PushedGroups(gs, message, groupId, activeGroupId, currentUserId);
    assert forall i :: 0 <= i < |r| ==> r[i] == gs[i];
  }

  /** The group the message belongs to keeps every field other than the
      preview, its instant and the counter, gains those three, and shows the
      message. */
  lemma PushedGroupsTouch(gs: seq<JsObject>, message: JsValue, groupId: JsValue, activeGroupId: JsValue, currentUserId: JsValue)
    ensures var r := PushedGroups(gs, message, groupId, activeGroupId, currentUserId);
      forall i :: 0 <= i < |r| && Get(gs[i], "id") == groupId ==>
        && r[i].Keys == gs[i].Keys + {"last_message", "last_message_at", "unread_count"}
        && r[i]["last_message"] == message
        && r[i]["last_message_at"] == Get(AsObject(message), "created_at")
        && (forall k :: k in gs[i] && k !in {"last_message", "last_message_at", "unread_count"} ==> r[i][k] == gs[i][k])
  {
    forall i | 0 <= i < |gs| && Get(gs[i], "id") == groupId {
      PushedGroupFields(gs[i], message, groupId, activeGroupId, currentUserId);
    }
  }

  /** The two stores treat the user's own message in a conversation that is
      not open differently: the dialog counter is reset to 0, the group
      counter is kept. */
  lemma UnreadPoliciesDiffer(conversation: JsObject, message: JsValue, id: JsValue, activeId: JsValue, userId: JsValue)
    requires activeId != id && Truthy(userId)
    requires Get(AsObject(message), "sender_id") == userId
    requires Get(conversation, "unread_count") == Num(3)
    ensures Chat.PushedDialog(conversation, message, id, activeId, userId)["unread_count"] == Num(0)
    ensures PushedGroup(conversation, message, id, activeId, userId)["unread_count"] == Num(3)
  {
  }

  class GroupStore {
    var groups: seq<JsObject>
    var groupsLoading: bool
    var groupsError: JsValue
    var groupsRefreshing: bool
    var messagesByGroupId: map<string, Thread>
    var activeGroupId: JsValue
    /** Every REST fallback post issued, in order. */
    var restPosts: seq<RestPost>
    /** `API_BASE_URL` */
    const apiBaseUrl: string
    /** The shared connection manager. */
    const ws: WSClient

    constructor(base: string, client: WSClient)
      ensures groups == [] && !groupsLoading && groupsError == Null && !groupsRefreshing
      ensures messagesByGroupId == map[] && activeGroupId == Null && restPosts == []
      ensures apiBaseUrl == base && ws == client
    {
      groups, groupsLoading, groupsError, groupsRefreshing := [], false, Null, false;
      messagesByGroupId, activeGroupId, restPosts := map[], Null, [];
      apiBaseUrl, ws := base, client;
    }

    function ThreadFor(groupId: JsValue): Thread
      reads this
    {
      ThreadOf(messagesByGroupId, groupId)
    }

    /** `setActiveGroup(groupId)` */
    method SetActiveGroup(groupId: JsValue)
      modifies this
      ensures activeGroupId == groupId
      ensures groups == old(groups) && messagesByGroupId == old(messagesByGroupId) && restPosts == old(restPosts)
      ensures unchanged(this`groupsLoading, this`groupsError, this`groupsRefreshing)
    {
      activeGroupId := groupId;
    }

    /** `loadGroups()` up to the fetch. */
    method BeginLoadGroups()
      modifies this
      ensures groupsLoading && groupsError == Null
      ensures groups == old(groups) && groupsRefreshing == old(groupsRefreshing)
      ensures messagesByGroupId == old(messagesByGroupId) && activeGroupId == old(activeGroupId) && restPosts == old(restPosts)
    {
      groupsLoading, groupsError := true, Null;
    }

    /** `loadGroups()` after the fetch: the list, with default counters, or the
        error message (the error is rethrown). `items` absent reads as empty.
        `cached` says whether the cache write after a successful fetch
        resolved; when it rejects, the new list stays but the error is set and
        rethrown. `errorMessage` is `err?.message` of whichever step rejected. */
    method CompleteLoadGroups(fetched: Option<seq<JsObject>>, cached: bool, errorMessage: JsValue) returns (threw: bool)
      modifies this
      ensures threw <==> fetched.None? || !cached
      ensures !groupsLoading && !groupsRefreshing
      ensures fetched.Some? ==> groups == WithUnreadDefaults(fetched.value)
      ensures fetched.None? ==> groups == old(groups)
      ensures groupsError == if threw then Or(errorMessage, Str("Failed to load groups")) else old(groupsError)
      ensures messagesByGroupId == old(messagesByGroupId) && activeGroupId == old(activeGroupId) && restPosts == old(restPosts)
    {
      groupsLoading, groupsRefreshing := false, false;
      threw := false;
      if fetched.Some? {
        groups := WithUnreadDefaults(fetched.value);
        if !cached {
          threw := true;
        }
      } else {
        threw := true;
      }
      if threw {
        groupsError := Or(errorMessage, Str("Failed to load groups"));
      }
    }

    /** `createGroup(...)` once the API returned `group`: prepend it. */
    method CreateGroup(group: JsObject) returns (created: JsObject)
      modifies this
      ensures created == group
      ensures groups == [group] + old(groups)
      ensures messagesByGroupId == old(messagesByGroupId) && activeGroupId == old(activeGroupId) && restPosts == old(restPosts)
      ensures unchanged(this`groupsLoading, this`groupsError, this`groupsRefreshing)
    {
      groups := [group] + groups;
      created := group;
    }

    /** `addMembers(groupId, ...)` once the API returned `group`: replace the
        groups with its id (the `groupId` argument plays no part here). */
    method AddMembers(groupId: JsValue, group: JsObject) returns (updated: JsObject)
      modifies this
      ensures updated == group
      ensures groups == ReplaceById(old(groups), group)
      ensures messagesByGroupId == old(messagesByGroupId) && activeGroupId == old(activeGroupId) && restPosts == old(restPosts)
      ensures unchanged(this`groupsLoading, this`groupsError, this`groupsRefreshing)
    {
      groups := ReplaceById(groups, group);
      updated := group;
    }

    /** `loadMessages(groupId)` up to the fetch. */
    method BeginLoadMessages(groupId: JsValue) returns (req: Option<PageRequest>)
      modifies this
      ensures var cur := old(ThreadFor(groupId));
        if cur.loading
        then req == None && messagesByGroupId == old(messagesByGroupId)
        else && req == Some(PageRequest(groupId, Before(cur), cur))
             && messagesByGroupId == old(messagesByGroupId)[PropertyKey(groupId) := cur.(loading := true)]
      ensures groups == old(groups) && activeGroupId == old(activeGroupId) && restPosts == old(restPosts)
      ensures unchanged(this`groupsLoading, this`groupsError, this`groupsRefreshing)
    {
      var current := ThreadFor(groupId);
      if current.loading {
        return None;
      }
      messagesByGroupId := messagesByGroupId[PropertyKey(groupId) := current.(loading := true)];
      req := Some(PageRequest(groupId, Before(current), current));
    }

    /** `loadMessages(groupId)` after the fetch settles; `cached` as for the
        dialog store: a rejected cache write discards the merged page. */
    method CompleteLoadMessages(req: PageRequest, r: FetchResult, cached: bool)
      modifies this
      ensures cached ==> messagesByGroupId == old(messagesByGroupId)[PropertyKey(req.conversation) := Completed(req.snapshot, r)]
      ensures !cached ==> messagesByGroupId == old(messagesByGroupId)[PropertyKey(req.conversation) := req.snapshot.(loading := false)]
      ensures groups == old(groups) && activeGroupId == old(activeGroupId) && restPosts == old(restPosts)
      ensures unchanged(this`groupsLoading, this`groupsError, this`groupsRefreshing)
    {
      var settled := if cached then r else FetchFailed;
      messagesByGroupId := messagesByGroupId[PropertyKey(req.conversation) := Completed(req.snapshot, settled)];
    }

    /** `sendMessage(groupId, text, attachment)` with the user id, the client
        id, the clock and the upload's outcome passed in. Every throw happens
        before the state or the socket is touched. */
    method SendMessage(groupId: JsValue, text: JsValue, attachment: JsValue, upload: UploadOutcome,
                       userId: JsValue, clientMsgId: string, now: int) returns (outcome: SendOutcome)
      requires ws.Valid()
      modifies this, ws
      ensures ws.Valid()
      ensures var uploaded := if Truthy(attachment) && upload.Uploaded? then upload.result else Null;
        outcome == (
          if Truthy(attachment) && upload.UploadRejected? then UploadThrew
          else if Truthy(attachment) && UploadMissingUrl(uploaded) then UploadFailed
          else if FileUrl(apiBaseUrl, uploaded).None? then FileUrlThrew
          else Sent)
      ensures outcome != Sent ==>
        && messagesByGroupId == old(messagesByGroupId) && restPosts == old(restPosts)
        && ws.Outbound() == old(ws.Outbound())
      ensures outcome != Sent ==> unchanged(ws)
      ensures outcome == Sent ==>
        var uploaded := if Truthy(attachment) then upload.result else Null;
        var fileUrl := FileUrl(apiBaseUrl, uploaded).value;
        var cur := old(ThreadFor(groupId));
        var payload := GroupPayload(groupId, text, attachment, uploaded, fileUrl, clientMsgId);
        && messagesByGroupId == old(messagesByGroupId)[PropertyKey(groupId) :=
             cur.(items := cur.items + [LocalGroupMessage(groupId, userId, text, attachment, uploaded, fileUrl, clientMsgId, now)],
                  loading := false)]
        && ws.Outbound() == old(ws.Outbound()) + [EventFrame("group:message:send", Obj(payload))]
        && (old(ws.IsOpen()) ==> ws.wire == old(ws.wire) + [Transmission(old(ws.ws).value, EventFrame("group:message:send", Obj(payload)))])
        && (!old(ws.IsOpen()) ==>
              ws.wire == old(ws.wire) && ws.pendingMessages == old(ws.pendingMessages) + [EventFrame("group:message:send", Obj(payload))])
        && ws.reconnectTimer == (old(ws.reconnectTimer) || (!old(ws.IsOpen()) && old(ws.GoneOrClosed())))
        && restPosts == old(restPosts) + (if old(ws.status) != Connected then [RestPost(groupId, payload)] else [])
      ensures groups == old(groups) && activeGroupId == old(activeGroupId)
      ensures unchanged(ws`sockets, ws`ws, ws`token, ws`status, ws`shouldReconnect, ws`listeners, ws`calls)
      ensures unchanged(this`groupsLoading, this`groupsError, this`groupsRefreshing)
    {
      var uploaded := Null;
      if Truthy(attachment) {
        if upload.UploadRejected? {
          return UploadThrew;
        }
        uploaded := upload.result;
        if UploadMissingUrl(uploaded) {
          return UploadFailed;
        }
      }
      var fileUrl := FileUrl(apiBaseUrl, uploaded);
      if fileUrl.None? {
        return FileUrlThrew;
      }
      var localMsg := LocalGroupMessage(groupId, userId, text, attachment, uploaded, fileUrl.value, clientMsgId, now);
      var current := ThreadFor(groupId);
      messagesByGroupId := messagesByGroupId[PropertyKey(groupId) :=
        current.(items := current.items + [localMsg], loading := false)];
      var payload := GroupPayload(groupId, text, attachment, uploaded, fileUrl.value, clientMsgId);
      ws.Send("group:message:send", Obj(payload));
      if ws.status != Connected {
        restPosts := restPosts + [RestPost(groupId, payload)];
      }
      outcome := Sent;
    }

    /** `applyAck(ack)`: like the direct-dialog store, keyed by `group_id`;
        the group list is not touched. */
    method ApplyAck(ack: JsValue)
      modifies this
      ensures var a := AsObject(ack);
        var message := Get(a, "message");
        if !Truthy(message)
        then messagesByGroupId == old(messagesByGroupId)
        else
          var m := AsObject(message);
          var id := Get(m, "group_id");
          var cur := old(ThreadFor(id));
          messagesByGroupId == old(messagesByGroupId)[PropertyKey(id) :=
            cur.(items := AckedItems(cur.items, Get(a, "client_msg_id"), m))]
      ensures groups == old(groups) && activeGroupId == old(activeGroupId) && restPosts == old(restPosts)
      ensures unchanged(this`groupsLoading, this`groupsError, this`groupsRefreshing)
    {
      var a := AsObject(ack);
      var message := Get(a, "message");
      if !Truthy(message) {
        return;
      }
      var m := AsObject(message);
      var id := Get(m, "group_id");
      var current := ThreadFor(id);
      messagesByGroupId := messagesByGroupId[PropertyKey(id) :=
        current.(items := AckedItems(current.items, Get(a, "client_msg_id"), m))];
    }

    /** `applyIncomingMessage(message)` with the current user's id passed in. */
    method ApplyIncomingMessage(message: JsValue, currentUserId: JsValue)
      modifies this
      ensures var m := AsObject(message);
        var id := Get(m, "group_id");
        if !Truthy(id)
        then groups == old(groups) && messagesByGroupId == old(messagesByGroupId)
        else
          var cur := old(ThreadFor(id));
          && messagesByGroupId == old(messagesByGroupId)[PropertyKey(id) := cur.(items := Merge(cur.items, [m]))]
          && groups == PushedGroups(old(groups), message, id, old(activeGroupId), currentUserId)
      ensures activeGroupId == old(activeGroupId) && restPosts == old(restPosts)
      ensures unchanged(this`groupsLoading, this`groupsError, this`groupsRefreshing)
    {
      var m := AsObject(message);
      var id := Get(m, "group_id");
      if !Truthy(id) {
        return;
      }
      var current := ThreadFor(id);
      messagesByGroupId := messagesByGroupId[PropertyKey(id) := current.(items := Merge(current.items, [m]))];
      groups := PushedGroups(groups, message, id, activeGroupId, currentUserId);
    }
  }
}
