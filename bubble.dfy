/** The delivery label a message bubble shows under the user's own messages,
    and how the store actions move it. */
module Bubble {
  import opened JsValues
  import opened Timeline
  import Chat
  import Groups

  /** `statusLabel(msg)`: the strongest delivery fact wins. */
  function StatusLabel(m: JsObject): string {
    if Truthy(Get(m, "read_at")) then "Read"
    else if Truthy(Get(m, "delivered_at")) then "Delivered"
    else if Get(m, "localStatus") == Str("sending") then "Sending"
    else if Get(m, "localStatus") == Str("sent") then "Sent"
    else ""
  }

  /** The status part of the bubble's meta line: only own messages carry one. */
  function MetaLabel(m: JsObject, isOwn: bool): string {
    if isOwn then StatusLabel(m) else ""
  }

  /** The progress a label reports, from nothing to read. */
  function Rank(shown: string): nat {
    if shown == "Read" then 4
    else if shown == "Delivered" then 3
    else if shown == "Sent" then 2
    else if shown == "Sending" then 1
    else 0
  }

  /** Timestamps decide before `localStatus`: a read message shows "Read"
      whatever its `localStatus`, and "Sending" or "Sent" only show while
      neither timestamp is set. */
  lemma StatusLabelSpec(m: JsObject)
    ensures StatusLabel(m) == "Read" <==> Truthy(Get(m, "read_at"))
    ensures StatusLabel(m) == "Delivered" <==> !Truthy(Get(m, "read_at")) && Truthy(Get(m, "delivered_at"))
    ensures StatusLabel(m) in {"Sending", "Sent"} ==> !Truthy(Get(m, "read_at")) && !Truthy(Get(m, "delivered_at"))
    ensures StatusLabel(m) == "" <==>
      !Truthy(Get(m, "read_at")) && !Truthy(Get(m, "delivered_at"))
      && Get(m, "localStatus") != Str("sending") && Get(m, "localStatus") != Str("sent")
    ensures forall isOwn: bool :: !isOwn ==> MetaLabel(m, isOwn) == ""
  {
  }

  /** The optimistic copies both stores append show "Sending" on the sender's
      side and nothing on the peer's. */
  lemma PendingShowsSending(dialogId: JsValue, groupId: JsValue, userId: JsValue, text: JsValue, attachment: JsValue,
                            uploaded: JsValue, fileUrl: JsValue, clientMsgId: string, now: int)
    ensures MetaLabel(Chat.LocalTextMessage(dialogId, userId, text, clientMsgId, now), true) == "Sending"
    ensures MetaLabel(Groups.LocalGroupMessage(groupId, userId, text, attachment, uploaded, fileUrl, clientMsgId, now), true) == "Sending"
    ensures MetaLabel(Chat.LocalTextMessage(dialogId, userId, text, clientMsgId, now), false) == ""
  {
  }

  /** An acknowledged entry shows at least "Sent", and exactly "Sent" when the
      server copy carries no delivery timestamp. */
  lemma AckedShowsSent(items: seq<JsObject>, cid: JsValue, message: JsObject, i: int)
    requires 0 <= i < |items| && MatchesClientId(items[i], cid)
    ensures Rank(StatusLabel(AckItems(items, cid, message)[i])) >= 2
    ensures (&& !Truthy(Get(message, "read_at")) && !Truthy(Get(message, "delivered_at"))
             && !Truthy(Get(items[i], "read_at")) && !Truthy(Get(items[i], "delivered_at")))
      ==> StatusLabel(AckItems(items, cid, message)[i]) == "Sent"
  {
    var e := AckItems(items, cid, message)[i];
    assert e == (items[i] + message)["localStatus" := Str("sent")];
    assert Get(e, "read_at") == Get(message, "read_at") || Get(e, "read_at") == Get(items[i], "read_at");
    assert Get(e, "delivered_at") == Get(message, "delivered_at") || Get(e, "delivered_at") == Get(items[i], "delivered_at");
  }

  /** `markRead` turns every message it stamps into "Read": the stamp is the
      given instant or the current time, never a falsy value. */
  lemma MarkedShowsRead(items: seq<JsObject>, readAt: JsValue, now: int, i: int)
    requires 0 <= i < |items| && ReadBy(items[i], readAt, now)
    ensures StatusLabel(MarkReadItems(items, readAt, now)[i]) == "Read"
  {
    MarkReadSpec(items, readAt, now);
  }

  /** A status event never moves a label back, as long as each timestamp it
      carries is either absent or a real date. */
  lemma StatusNeverDemotes(m: JsObject, deliveredAt: JsValue, readAt: JsValue)
    requires Nullish(deliveredAt) || Truthy(deliveredAt)
    requires Nullish(readAt) || Truthy(readAt)
    ensures Rank(StatusLabel(StatusPatch(m, deliveredAt, readAt))) >= Rank(StatusLabel(m))
    ensures Truthy(readAt) ==> StatusLabel(StatusPatch(m, deliveredAt, readAt)) == "Read"
  {
    StatusPatchSpec(m, deliveredAt, readAt);
  }

  /** An empty-string `read_at` in a status event does count as given (`??`
      only skips null and undefined), and erases a read message's label. */
  lemma EmptyStampDemotes()
    ensures var m := map["read_at" := Stamp(5), "localStatus" := Str("read")];
      && StatusLabel(m) == "Read"
      && StatusLabel(StatusPatch(m, Null, Str(""))) == ""
  {
    var m: JsObject := map["read_at" := Stamp(5), "localStatus" := Str("read")];
    StatusPatchSpec(m, Null, Str(""));
  }
}
