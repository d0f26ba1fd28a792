/** The per-conversation message state both stores keep, `{items, loading,
    nextCursor, hasMore}`, and the pure item-level updates their actions
    apply to it. */
module Timeline {
  import opened JsValues
  import opened StableSort
  import opened MessageMerge

  datatype Thread = Thread(items: seq<JsObject>, loading: bool, nextCursor: JsValue, hasMore: bool)

  /** `initialMessagesState()` */
  function InitialMessagesState(): Thread {
    Thread([], false, Null, true)
  }

  /** `byId[id] || initialMessagesState()` */
  function ThreadOf(threads: map<string, Thread>, id: JsValue): Thread {
    var k := PropertyKey(id);
    if k in threads then threads[k] else InitialMessagesState()
  }

  /** A timeline as `uniqueMerge` leaves it: one message per key, in `created_at` order. */
  predicate WellFormed(items: seq<JsObject>) {
    UniqueKeys(items) && Ordered(items)
  }

  // ---------------------------------------------------------------------------
  // loadMessages: read the state, mark it loading, fetch, then write the result.

  /** The `before` parameter of the page request: present only when a cursor is held. */
  function Before(t: Thread): Option<JsValue> {
    if Truthy(t.nextCursor) then Some(t.nextCursor) else None
  }

  /** An outstanding page fetch: the conversation, the `before` cursor sent,
      and the state read before the request (`current`). */
  datatype PageRequest = PageRequest(conversation: JsValue, before: Option<JsValue>, snapshot: Thread)

  /** What the page fetch settles with: the response body's `items` (absent
      items read as the empty list) and `next_cursor`, or a rejection. */
  datatype FetchResult = Fetched(items: seq<JsObject>, nextCursor: JsValue) | FetchFailed

  /** The conversation's state once the fetch has settled. It is computed from
      the snapshot alone: whatever was applied to the conversation while the
      request was in flight is overwritten. */
  function Completed(snapshot: Thread, r: FetchResult): Thread {
    match r
    case Fetched(items, nc) =>
      var cursor := Or(nc, Null);
      Thread(Merge(items, snapshot.items), false, cursor, Truthy(cursor))
    case FetchFailed => snapshot.(loading := false)
  }

  lemma FirstLoadSendsNoCursor()
    ensures Before(InitialMessagesState()) == None
    ensures !InitialMessagesState().loading && InitialMessagesState().hasMore
  {
  }

  /** The cursor the next request sends after a fetch settles: the page's
      `next_cursor` exactly when it is truthy, so a falsy `next_cursor`
      (null, missing, 0 or "") ends paging; after a failure, the cursor the
      conversation held before the request. */
  lemma BeforeSpec(snapshot: Thread, items: seq<JsObject>, nc: JsValue)
    ensures Before(Completed(snapshot, Fetched(items, nc))) == if Truthy(nc) then Some(nc) else None
    ensures Before(Completed(snapshot, FetchFailed)) == Before(snapshot)
    ensures Before(Completed(snapshot, Fetched(items, nc))).Some? <==> Completed(snapshot, Fetched(items, nc)).hasMore
  {
  }

  /** A settled fetch always clears `loading`. A page replaces the cursor by
      `next_cursor || null` and `hasMore` says whether one is held; the items
      are the page merged with the snapshot's items, where the snapshot's
      fields win over the server's for a shared key. A failure restores the
      snapshot. */
  lemma CompletedSpec(snapshot: Thread, r: FetchResult)
    ensures !Completed(snapshot, r).loading
    ensures r.FetchFailed? ==> Completed(snapshot, r) == snapshot.(loading := false)
    ensures r.Fetched? ==>
      var t := Completed(snapshot, r);
      && (Truthy(r.nextCursor) ==> t.nextCursor == r.nextCursor)
      && (!Truthy(r.nextCursor) ==> t.nextCursor == Null)
      && (t.hasMore <==> t.nextCursor != Null)
      && WellFormed(t.items)
      && KeySet(t.items) == KeySet(r.items) + KeySet(snapshot.items)
      && forall m :: m in t.items ==> m == Expected(r.items, snapshot.items, Key(m))
  {
    if r.Fetched? {
      MergeSpec(r.items, snapshot.items);
    }
  }

  /** Merging a page never drops a message the snapshot held, and a message
      that is neither in the page nor in the snapshot is not in the result. */
  lemma CompletedKeys(snapshot: Thread, items: seq<JsObject>, nc: JsValue, k: JsValue)
    ensures k in KeySet(snapshot.items) ==> k in KeySet(Completed(snapshot, Fetched(items, nc)).items)
    ensures k !in KeySet(snapshot.items) && k !in KeySet(items) ==>
      forall m :: m in Completed(snapshot, Fetched(items, nc)).items ==> Key(m) != k
  {
    MergeSpec(items, snapshot.items);
    forall m | m in Completed(snapshot, Fetched(items, nc)).items ensures Key(m) in KeySet(items) + KeySet(snapshot.items) {
    }
  }

  // ---------------------------------------------------------------------------
  // The server's page contract (GET /dialogs/<id>/messages).

  /** A page as the server produces it: at most `limit` messages, newest
      first, all strictly older than the `before` cursor when one is given,
      and `next_cursor` equal to the last (oldest) item's `created_at` exactly
      when the page is full. */
  predicate FollowsCursorContract(before: Option<JsValue>, items: seq<JsObject>, nextCursor: JsValue, limit: nat) {
    && 0 < limit && |items| <= limit
    && (forall i :: 0 <= i < |items| ==> Get(items[i], "created_at").Stamp?)
    && (forall i, j :: 0 <= i < j < |items| ==> SortKey(items[j]) <= SortKey(items[i]))
    && (before.Some? ==> before.value.Stamp? && forall i :: 0 <= i < |items| ==> SortKey(items[i]) < before.value.t)
    && nextCursor == (if |items| == limit then Get(items[|items| - 1], "created_at") else Null)
  }

  /** Against that contract, `hasMore` is set exactly when the page was full,
      and the cursor held is the oldest instant of the page. */
  lemma PageBookkeeping(snapshot: Thread, before: Option<JsValue>, items: seq<JsObject>, nc: JsValue, limit: nat)
    requires FollowsCursorContract(before, items, nc, limit)
    ensures var t := Completed(snapshot, Fetched(items, nc));
      && (t.hasMore <==> |items| == limit)
      && (t.hasMore ==> t.nextCursor == Get(items[|items| - 1], "created_at"))
      && (t.hasMore ==> t.nextCursor.Stamp? && forall m :: m in items ==> t.nextCursor.t <= SortKey(m))
      && (Before(t).Some? <==> |items| == limit)
  {
    if |items| == limit {
      var last := |items| - 1;
      assert Get(items[last], "created_at").Stamp?;
      forall m | m in items ensures SortKey(items[last]) <= SortKey(m) {
        var i :| 0 <= i < |items| && items[i] == m;
        if i < last {
        }
      }
    }
  }

  /** The page fetched with the cursor of a full page holds only messages
      strictly older than every message of that full page. */
  lemma NextPageIsOlder(before: Option<JsValue>, page1: seq<JsObject>, nc1: JsValue,
                        page2: seq<JsObject>, nc2: JsValue, limit: nat, snapshot: Thread)
    requires FollowsCursorContract(before, page1, nc1, limit)
    requires Before(Completed(snapshot, Fetched(page1, nc1))).Some?
    requires FollowsCursorContract(Before(Completed(snapshot, Fetched(page1, nc1))), page2, nc2, limit)
    ensures forall x, y :: x in page2 && y in page1 ==> SortKey(x) < SortKey(y)
  {
    PageBookkeeping(snapshot, before, page1, nc1, limit);
    var t := Completed(snapshot, Fetched(page1, nc1));
    forall x, y | x in page2 && y in page1 ensures SortKey(x) < SortKey(y) {
      var i :| 0 <= i < |page2| && page2[i] == x;
    }
  }

  /** The chat screen asks for another page only when more are known to exist
      and none is loading. */
  predicate ScreenWouldLoad(t: Thread) {
    t.hasMore && !t.loading
  }

  /** After a short page the screen stops asking; after a failure it asks
      again exactly when it would have before. */
  lemma ScreenStopsAfterShortPage(snapshot: Thread, before: Option<JsValue>, items: seq<JsObject>, nc: JsValue, limit: nat)
    requires FollowsCursorContract(before, items, nc, limit)
    ensures ScreenWouldLoad(Completed(snapshot, Fetched(items, nc))) <==> |items| == limit
    ensures ScreenWouldLoad(Completed(snapshot, FetchFailed)) <==> snapshot.hasMore
  {
    PageBookkeeping(snapshot, before, items, nc, limit);
  }

  // ---------------------------------------------------------------------------
  // Conversation lists: `list.map(d => d.id === id ? { ...d, ...patch } : d)`.

  function PatchWhereId(list: seq<JsObject>, id: JsValue, patch: JsObject): seq<JsObject> {
    seq(|list|, i requires 0 <= i < |list| => if Get(list[i], "id") == id then list[i] + patch else list[i])
  }

  /** Entries whose `id` matches take the patch's fields and keep their
      others; the rest are untouched; order and length are kept. */
  lemma PatchWhereIdSpec(list: seq<JsObject>, id: JsValue, patch: JsObject)
    ensures |PatchWhereId(list, id, patch)| == |list|
    ensures forall i :: 0 <= i < |list| && Get(list[i], "id") != id ==> PatchWhereId(list, id, patch)[i] == list[i]
    ensures forall i, f :: 0 <= i < |list| && Get(list[i], "id") == id && f in patch ==>
      f in PatchWhereId(list, id, patch)[i] && PatchWhereId(list, id, patch)[i][f] == patch[f]
    ensures forall i, f :: 0 <= i < |list| && Get(list[i], "id") == id && f !in patch && f in list[i] ==>
      f in PatchWhereId(list, id, patch)[i] && PatchWhereId(list, id, patch)[i][f] == list[i][f]
  {
  }

  // ---------------------------------------------------------------------------
  // Optimistic send: the local message is appended, not merged.

  /** Appending keeps keys distinct exactly when the new key is fresh, and keeps
      the order exactly when no held message is later than the new one. */
  lemma AppendSpec(items: seq<JsObject>, local: JsObject)
    requires WellFormed(items)
    ensures UniqueKeys(items + [local]) <==> Key(local) !in KeySet(items)
    ensures Ordered(items + [local]) <==> forall m :: m in items ==> SortKey(m) <= SortKey(local)
  {
    var s := items + [local];
    if Key(local) in KeySet(items) {
      var m :| m in items && Key(m) == Key(local);
      var i :| 0 <= i < |items| && items[i] == m;
      assert s[i] == m && s[|items|] == local;
    }
    if !forall m :: m in items ==> SortKey(m) <= SortKey(local) {
      var m :| m in items && SortKey(m) > SortKey(local);
      var i :| 0 <= i < |items| && items[i] == m;
      assert s[i] == m && s[|items|] == local;
    }
    if forall m :: m in items ==> SortKey(m) <= SortKey(local) {
      forall i, j | 0 <= i < j < |s| ensures SortKey(s[i]) <= SortKey(s[j]) {
        if j == |items| {
          assert s[i] in items;
        }
      }
    }
  }

  /** A local message stamped earlier than a held one (a client clock behind
      the server's) leaves the timeline out of order until the next merge. */
  lemma AppendCanBreakOrder()
    ensures WellFormed([map["id" := Num(1), "created_at" := Stamp(10)]])
    ensures !Ordered([map["id" := Num(1), "created_at" := Stamp(10)], map["id" := Str("c"), "created_at" := Stamp(5)]])
  {
    var a: JsObject := map["id" := Num(1), "created_at" := Stamp(10)];
    var b: JsObject := map["id" := Str("c"), "created_at" := Stamp(5)];
    assert SortKey(a) == 10 && SortKey(b) == 5;
    assert [a, b][0] == a && [a, b][1] == b;
  }

  // ---------------------------------------------------------------------------
  // applyAck: fold the server copy into the pending entry, then merge it in.

  predicate MatchesClientId(m: JsObject, cid: JsValue) {
    Get(m, "client_msg_id") == cid || Get(m, "id") == cid
  }

  /** `{ ...m, ...message, localStatus: 'sent' }` for the matching entries. */
  function AckItems(items: seq<JsObject>, cid: JsValue, message: JsObject): seq<JsObject> {
    seq(|items|, i requires 0 <= i < |items| =>
      if MatchesClientId(items[i], cid) then (items[i] + message)["localStatus" := Str("sent")] else items[i])
  }

  /** `uniqueMerge(updatedItems, [message])` */
  function AckedItems(items: seq<JsObject>, cid: JsValue, message: JsObject): seq<JsObject> {
    Merge(AckItems(items, cid, message), [message])
  }

  /** After an ack the timeline is well formed and holds exactly one entry under
      the server message's key, carrying every field of the server message. */
  lemma AckSpec(items: seq<JsObject>, cid: JsValue, message: JsObject)
    ensures WellFormed(AckedItems(items, cid, message))
    ensures exists r :: r in AckedItems(items, cid, message) && Key(r) == Key(message)
    ensures forall r :: r in AckedItems(items, cid, message) && Key(r) == Key(message) ==>
      forall f :: f in message ==> f in r && r[f] == message[f]
    ensures forall r :: r in AckedItems(items, cid, message) ==> Key(r) == Key(message) || r in AckItems(items, cid, message)
  {
    MergeSingle(AckItems(items, cid, message), message);
  }

  /** One entry after the patch: never under the client id, and marked 'sent'
      when it sits under the server id. */
  lemma AckEntry(items: seq<JsObject>, cid: JsValue, message: JsObject, j: int)
    requires "id" in message && Truthy(message["id"]) && message["id"] != cid
    requires 0 <= j < |items|
    requires Key(items[j]) == Key(message) ==> MatchesClientId(items[j], cid)
    ensures Key(AckItems(items, cid, message)[j]) != cid
    ensures Key(AckItems(items, cid, message)[j]) == Key(message) ==>
      Get(AckItems(items, cid, message)[j], "localStatus") == Str("sent")
  {
  }

  /** When the server message has a truthy `id` of its own, the pending entry
      ends up marked 'sent' under that id, and no entry remains under the
      client id. Entries already stored under the server id must carry the
      client id too (the server's own copy, landed with a page before the ack). */
  lemma AckRetiresLocalKey(items: seq<JsObject>, cid: JsValue, message: JsObject, i: int)
    requires "id" in message && Truthy(message["id"]) && message["id"] != cid
    requires "localStatus" !in message
    requires 0 <= i < |items| && MatchesClientId(items[i], cid)
    requires forall j :: 0 <= j < |items| && Key(items[j]) == Key(message) ==> MatchesClientId(items[j], cid)
    ensures forall r :: r in AckedItems(items, cid, message) ==> Key(r) != cid
    ensures forall r :: r in AckedItems(items, cid, message) && Key(r) == Key(message) ==> Get(r, "localStatus") == Str("sent")
  {
    var u := AckItems(items, cid, message);
    MergeSingle(u, message);
    forall x | x in u ensures Key(x) != cid && (Key(x) == Key(message) ==> Get(x, "localStatus") == Str("sent")) {
      var j :| 0 <= j < |u| && u[j] == x;
      AckEntry(items, cid, message, j);
    }
    assert Key(u[i]) == Key(message);
    LastWithKeyFacts(u, Key(message));
  }

  // ---------------------------------------------------------------------------
  // markRead: stamp every message created no later than the read instant.

  /** `readAt || new Date().toISOString()` */
  function ReadStamp(readAt: JsValue, now: int): JsValue {
    Or(readAt, Stamp(now))
  }

  predicate ReadBy(m: JsObject, readAt: JsValue, now: int) {
    NotLater(TimeOf(Get(m, "created_at")), TimeOf(ReadStamp(readAt, now)))
  }

  function MarkReadItems(items: seq<JsObject>, readAt: JsValue, now: int): seq<JsObject> {
    seq(|items|, i requires 0 <= i < |items| =>
      if ReadBy(items[i], readAt, now)
      then items[i]["read_at" := ReadStamp(readAt, now)]["localStatus" := Str("read")]
      else items[i])
  }

  /** Messages created no later than the read instant get `read_at` and
      `localStatus: 'read'` and keep every other field; later ones (and those
      without a valid `created_at`) are untouched. Keys and order survive. */
  lemma MarkReadSpec(items: seq<JsObject>, readAt: JsValue, now: int)
    ensures |MarkReadItems(items, readAt, now)| == |items|
    ensures forall i :: 0 <= i < |items| && ReadBy(items[i], readAt, now) ==>
      var m := MarkReadItems(items, readAt, now)[i];
      && m["read_at"] == ReadStamp(readAt, now) && m["localStatus"] == Str("read")
      && m - {"read_at", "localStatus"} == items[i] - {"read_at", "localStatus"}
    ensures forall i :: 0 <= i < |items| && !ReadBy(items[i], readAt, now) ==>
      MarkReadItems(items, readAt, now)[i] == items[i]
    ensures WellFormed(items) ==> WellFormed(MarkReadItems(items, readAt, now))
  {
    var r := MarkReadItems(items, readAt, now);
    assert forall i :: 0 <= i < |items| ==> Key(r[i]) == Key(items[i]) && SortKey(r[i]) == SortKey(items[i]);
  }

  // ---------------------------------------------------------------------------
  // applyStatus: patch the delivery timestamps of one message.

  function StatusLocal(m: JsObject, deliveredAt: JsValue, readAt: JsValue): JsValue {
    if Truthy(readAt) then Str("read") else if Truthy(deliveredAt) then Str("delivered") else Get(m, "localStatus")
  }

  /** `{ ...m, delivered_at: delivered_at ?? m.delivered_at, read_at: read_at ?? m.read_at, localStatus }` */
  function StatusPatch(m: JsObject, deliveredAt: JsValue, readAt: JsValue): JsObject {
    m["delivered_at" := Coalesce(deliveredAt, Get(m, "delivered_at"))]
     ["read_at" := Coalesce(readAt, Get(m, "read_at"))]
     ["localStatus" := StatusLocal(m, deliveredAt, readAt)]
  }

  function StatusItems(items: seq<JsObject>, messageId: JsValue, deliveredAt: JsValue, readAt: JsValue): seq<JsObject> {
    seq(|items|, i requires 0 <= i < |items| =>
      if Get(items[i], "id") == messageId then StatusPatch(items[i], deliveredAt, readAt) else items[i])
  }

  /** A nullish timestamp in the payload keeps the old one; `localStatus`
      follows the strongest timestamp given; no other field changes. */
  lemma StatusPatchSpec(m: JsObject, deliveredAt: JsValue, readAt: JsValue)
    ensures var p := StatusPatch(m, deliveredAt, readAt);
      && p["delivered_at"] == (if Nullish(deliveredAt) then Get(m, "delivered_at") else deliveredAt)
      && p["read_at"] == (if Nullish(readAt) then Get(m, "read_at") else readAt)
      && (Truthy(readAt) ==> p["localStatus"] == Str("read"))
      && (!Truthy(readAt) && Truthy(deliveredAt) ==> p["localStatus"] == Str("delivered"))
      && (!Truthy(readAt) && !Truthy(deliveredAt) ==> p["localStatus"] == Get(m, "localStatus"))
      && p - {"delivered_at", "read_at", "localStatus"} == m - {"delivered_at", "read_at", "localStatus"}
      && Key(p) == Key(m) && SortKey(p) == SortKey(m)
  {
  }

  /** A status event keeps every key and every `created_at`, so a well-formed
      timeline stays well formed. */
  lemma StatusKeepsWellFormed(items: seq<JsObject>, messageId: JsValue, deliveredAt: JsValue, readAt: JsValue)
    ensures |StatusItems(items, messageId, deliveredAt, readAt)| == |items|
    ensures WellFormed(items) ==> WellFormed(StatusItems(items, messageId, deliveredAt, readAt))
  {
    var r := StatusItems(items, messageId, deliveredAt, readAt);
    forall i | 0 <= i < |items| ensures Key(r[i]) == Key(items[i]) && SortKey(r[i]) == SortKey(items[i]) {
      StatusPatchSpec(items[i], deliveredAt, readAt);
    }
  }

  /** Messages whose `id` differs from the payload's are unchanged; the
      matching ones change only in the three status fields, as
      `StatusPatchSpec` says. Keys and order survive. */
  lemma StatusSpec(items: seq<JsObject>, messageId: JsValue, deliveredAt: JsValue, readAt: JsValue)
    ensures |StatusItems(items, messageId, deliveredAt, readAt)| == |items|
    ensures forall i :: 0 <= i < |items| && Get(items[i], "id") != messageId ==>
      StatusItems(items, messageId, deliveredAt, readAt)[i] == items[i]
    ensures forall i :: 0 <= i < |items| && Get(items[i], "id") == messageId ==>
      && StatusItems(items, messageId, deliveredAt, readAt)[i] - {"delivered_at", "read_at", "localStatus"}
         == items[i] - {"delivered_at", "read_at", "localStatus"}
      && (Truthy(readAt) ==> StatusItems(items, messageId, deliveredAt, readAt)[i]["localStatus"] == Str("read"))
    ensures WellFormed(items) ==> WellFormed(StatusItems(items, messageId, deliveredAt, readAt))
  {
    StatusKeepsWellFormed(items, messageId, deliveredAt, readAt);
    var r := StatusItems(items, messageId, deliveredAt, readAt);
    forall i | 0 <= i < |items| && Get(items[i], "id") == messageId
      ensures r[i] - {"delivered_at", "read_at", "localStatus"} == items[i] - {"delivered_at", "read_at", "localStatus"}
      ensures Truthy(readAt) ==> r[i]["localStatus"] == Str("read")
    {
      StatusPatchSpec(items[i], deliveredAt, readAt);
    }
  }
}
