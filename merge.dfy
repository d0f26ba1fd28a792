/** `uniqueMerge(existing, incoming)`: the one primitive through which page
    loads, pushes and acks reach a conversation's timeline. Messages are keyed by
    `id || client_msg_id`; an incoming message is spread over the stored one with
    the same key; the result is ordered by `created_at`. */
module MessageMerge {
  import opened JsValues
  import opened StableSort

  /** The key a message is stored under: `m.id || m.client_msg_id`. */
  function Key(m: JsObject): JsValue {
    Or(Get(m, "id"), Get(m, "client_msg_id"))
  }

  /** The instant a message's `created_at` denotes; a `created_at` that is not
      a date (NaN in JavaScript) sorts as instant 0. */
  function SortKey(m: JsObject): int {
    match TimeOf(Get(m, "created_at"))
    case Some(t) => t
    case None => 0
  }

  predicate UniqueKeys(ms: seq<JsObject>) {
    forall i, j :: 0 <= i < j < |ms| ==> Key(ms[i]) != Key(ms[j])
  }

  function KeySet(ms: seq<JsObject>): set<JsValue> {
    set m | m in ms :: Key(m)
  }

  predicate Ordered(ms: seq<JsObject>) {
    SortedBy(ms, SortKey)
  }

  // ---------------------------------------------------------------------------
  // The JavaScript `Map` that uniqueMerge builds: entries in first-insertion order.

  datatype Entry = Entry(key: JsValue, value: JsObject)

  /** `map.get(k)` */
  function MapGet(t: seq<Entry>, k: JsValue): Option<JsObject>
    decreases |t|
  {
    if t == [] then None
    else if t[0].key == k then Some(t[0].value)
    else MapGet(t[1..], k)
  }

  /** `map.set(k, v)`: replaces the value in place, or appends a new entry. */
  function MapSet(t: seq<Entry>, k: JsValue, v: JsObject): seq<Entry>
    decreases |t|
  {
    if t == [] then [Entry(k, v)]
    else if t[0].key == k then [Entry(k, v)] + t[1..]
    else [t[0]] + MapSet(t[1..], k, v)
  }

  /** `Array.from(map.values())` */
  function Values(t: seq<Entry>): seq<JsObject> {
    seq(|t|, i requires 0 <= i < |t| => t[i].value)
  }

  /** `{ ...prior, ...m }` where `prior` may be `undefined`. */
  function Spread(prior: Option<JsObject>, m: JsObject): JsObject {
    match prior
    case None => m
    case Some(p) => p + m
  }

  /** `existing.forEach(m => map.set(m.id || m.client_msg_id, m))` */
  function SetEach(t: seq<Entry>, ms: seq<JsObject>): seq<Entry>
    decreases |ms|
  {
    if ms == [] then t
    else
      var m := ms[|ms| - 1];
      MapSet(SetEach(t, ms[..|ms| - 1]), Key(m), m)
  }

  /** `incoming.forEach(m => map.set(key, { ...map.get(key), ...m }))` */
  function SpreadEach(t: seq<Entry>, ms: seq<JsObject>): seq<Entry>
    decreases |ms|
  {
    if ms == [] then t
    else
      var m := ms[|ms| - 1];
      var t' := SpreadEach(t, ms[..|ms| - 1]);
      MapSet(t', Key(m), Spread(MapGet(t', Key(m)), m))
  }

  /** The merged messages before sorting, in the map's insertion order. */
  function InsertionOrder(existing: seq<JsObject>, incoming: seq<JsObject>): seq<JsObject> {
    Values(SpreadEach(SetEach([], existing), incoming))
  }

  /** What `uniqueMerge(existing, incoming)` returns. */
  function Merge(existing: seq<JsObject>, incoming: seq<JsObject>): seq<JsObject> {
    SortBy(InsertionOrder(existing, incoming), SortKey)
  }

  /** uniqueMerge as the source runs it: two passes that fill a local map, then
      the sort. */
  method UniqueMerge(existing: seq<JsObject>, incoming: seq<JsObject>) returns (merged: seq<JsObject>)
    ensures merged == Merge(existing, incoming)
    ensures UniqueKeys(merged) && Ordered(merged)
    ensures KeySet(merged) == KeySet(existing) + KeySet(incoming)
  {
    var table: seq<Entry> := [];
    var i := 0;
    while i < |existing|
      invariant 0 <= i <= |existing|
      invariant table == SetEach([], existing[..i])
    {
      assert existing[..i + 1][..i] == existing[..i];
      table := MapSet(table, Key(existing[i]), existing[i]);
      i := i + 1;
    }
    assert existing[..i] == existing;
    var j := 0;
    ghost var start := table;
    while j < |incoming|
      invariant 0 <= j <= |incoming|
      invariant table == SpreadEach(start, incoming[..j])
    {
      assert incoming[..j + 1][..j] == incoming[..j];
      var m := incoming[j];
      table := MapSet(table, Key(m), Spread(MapGet(table, Key(m)), m));
      j := j + 1;
    }
    assert incoming[..j] == incoming;
    merged := SortBy(Values(table), SortKey);
    MergeSpec(existing, incoming);
  }

  // ---------------------------------------------------------------------------
  // An independent description of the result.

  /** The distinct keys of `ms`, in order of first appearance. */
  function KeysInOrder(ms: seq<JsObject>): seq<JsValue>
    decreases |ms|
  {
    if ms == [] then []
    else
      var p := KeysInOrder(ms[..|ms| - 1]);
      var k := Key(ms[|ms| - 1]);
      if k in p then p else p + [k]
  }

  /** The last message of `ms` stored under key `k`. */
  function LastWithKey(ms: seq<JsObject>, k: JsValue): Option<JsObject>
    decreases |ms|
  {
    if ms == [] then None
    else if Key(ms[|ms| - 1]) == k then Some(ms[|ms| - 1])
    else LastWithKey(ms[..|ms| - 1], k)
  }

  /** All messages of `ms` stored under key `k`, spread one over the other in order. */
  function Overlay(ms: seq<JsObject>, k: JsValue): JsObject
    decreases |ms|
  {
    if ms == [] then map[]
    else if Key(ms[|ms| - 1]) == k then Overlay(ms[..|ms| - 1], k) + ms[|ms| - 1]
    else Overlay(ms[..|ms| - 1], k)
  }

  /** The merged message for key `k`: the last existing message with that key,
      with every incoming message with that key spread over it in order. */
  function Expected(existing: seq<JsObject>, incoming: seq<JsObject>, k: JsValue): JsObject {
    Spread(LastWithKey(existing, k), Overlay(incoming, k))
  }

  ghost predicate Shaped(t: seq<Entry>, keys: seq<JsValue>, a: seq<JsObject>, b: seq<JsObject>) {
    && |t| == |keys|
    && forall i :: 0 <= i < |t| ==> t[i].key == keys[i] && t[i].value == Expected(a, b, keys[i])
  }

  ghost predicate DistinctKeys(t: seq<Entry>) {
    forall i, j :: 0 <= i < j < |t| ==> t[i].key != t[j].key
  }

  lemma {:induction false} LastWithKeyFacts(ms: seq<JsObject>, k: JsValue)
    ensures LastWithKey(ms, k).Some? <==> exists j :: 0 <= j < |ms| && Key(ms[j]) == k
    ensures LastWithKey(ms, k).Some? ==> Key(LastWithKey(ms, k).value) == k && LastWithKey(ms, k).value in ms
    decreases |ms|
  {
    if ms != [] {
      var p := ms[..|ms| - 1];
      LastWithKeyFacts(p, k);
      if Key(ms[|ms| - 1]) != k {
        if exists j :: 0 <= j < |ms| && Key(ms[j]) == k {
          var j :| 0 <= j < |ms| && Key(ms[j]) == k;
          assert p[j] == ms[j];
        }
        if LastWithKey(ms, k).Some? {
          assert LastWithKey(ms, k).value in p;
        }
      }
    }
  }

  lemma {:induction false} KeysInOrderFacts(ms: seq<JsObject>)
    ensures forall i, j :: 0 <= i < j < |KeysInOrder(ms)| ==> KeysInOrder(ms)[i] != KeysInOrder(ms)[j]
    ensures forall k :: k in KeysInOrder(ms) <==> LastWithKey(ms, k).Some?
    decreases |ms|
  {
    if ms != [] {
      var p := ms[..|ms| - 1];
      KeysInOrderFacts(p);
    }
  }

  lemma KeySetIsKeysInOrder(ms: seq<JsObject>)
    ensures forall k :: k in KeySet(ms) <==> k in KeysInOrder(ms)
  {
    KeysInOrderFacts(ms);
    forall k ensures k in KeySet(ms) <==> LastWithKey(ms, k).Some? {
      LastWithKeyFacts(ms, k);
      if k in KeySet(ms) {
        var m :| m in ms && Key(m) == k;
        var j :| 0 <= j < |ms| && ms[j] == m;
      }
    }
  }

  lemma {:induction false} LastWithKeyConcat(a: seq<JsObject>, b: seq<JsObject>, k: JsValue)
    ensures LastWithKey(a + b, k) == if LastWithKey(b, k).Some? then LastWithKey(b, k) else LastWithKey(a, k)
    decreases |b|
  {
    if b == [] {
      assert a + b == a;
    } else {
      assert (a + b)[..|a + b| - 1] == a + b[..|b| - 1];
      LastWithKeyConcat(a, b[..|b| - 1], k);
    }
  }

  lemma {:induction false} OverlayAbsent(ms: seq<JsObject>, k: JsValue)
    requires LastWithKey(ms, k).None?
    ensures Overlay(ms, k) == map[]
    decreases |ms|
  {
    if ms != [] {
      OverlayAbsent(ms[..|ms| - 1], k);
    }
  }

  /** Spreading two messages stored under the same key gives one stored under it. */
  lemma KeyOfUnion(x: JsObject, y: JsObject, k: JsValue)
    requires Key(x) == k && Key(y) == k
    ensures Key(x + y) == k
  {
  }

  lemma {:induction false} KeyOfOverlay(ms: seq<JsObject>, k: JsValue)
    requires LastWithKey(ms, k).Some?
    ensures Key(Overlay(ms, k)) == k
    decreases |ms|
  {
    var p, last := ms[..|ms| - 1], ms[|ms| - 1];
    if Key(last) == k {
      if LastWithKey(p, k).Some? {
        KeyOfOverlay(p, k);
        KeyOfUnion(Overlay(p, k), last, k);
      } else {
        OverlayAbsent(p, k);
        assert Overlay(ms, k) == last;
      }
    } else {
      KeyOfOverlay(p, k);
    }
  }

  lemma KeyOfExpected(a: seq<JsObject>, b: seq<JsObject>, k: JsValue)
    requires LastWithKey(a, k).Some? || LastWithKey(b, k).Some?
    ensures Key(Expected(a, b, k)) == k
  {
    LastWithKeyFacts(a, k);
    if LastWithKey(b, k).Some? {
      KeyOfOverlay(b, k);
      if LastWithKey(a, k).Some? {
        KeyOfUnion(LastWithKey(a, k).value, Overlay(b, k), k);
      }
    } else {
      OverlayAbsent(b, k);
      assert LastWithKey(a, k).value + map[] == LastWithKey(a, k).value;
    }
  }

  lemma {:induction false} MapSetHit(t: seq<Entry>, k: JsValue, v: JsObject, i: int)
    requires DistinctKeys(t) && 0 <= i < |t| && t[i].key == k
    ensures MapGet(t, k) == Some(t[i].value)
    ensures MapSet(t, k, v) == t[i := Entry(k, v)]
    decreases |t|
  {
    if i > 0 {
      assert t[0].key != k;
      MapSetHit(t[1..], k, v, i - 1);
    }
  }

  lemma {:induction false} MapSetMiss(t: seq<Entry>, k: JsValue, v: JsObject)
    requires forall i :: 0 <= i < |t| ==> t[i].key != k
    ensures MapGet(t, k) == None
    ensures MapSet(t, k, v) == t + [Entry(k, v)]
    decreases |t|
  {
    if t != [] {
      MapSetMiss(t[1..], k, v);
    }
  }

  lemma {:induction false} SetEachShape(a: seq<JsObject>)
    ensures |SetEach([], a)| == |KeysInOrder(a)|
    ensures forall i :: 0 <= i < |SetEach([], a)| ==>
      SetEach([], a)[i].key == KeysInOrder(a)[i] && LastWithKey(a, KeysInOrder(a)[i]) == Some(SetEach([], a)[i].value)
    decreases |a|
  {
    if a != [] {
      var p, m := a[..|a| - 1], a[|a| - 1];
      SetEachShape(p);
      KeysInOrderFacts(p);
      var t := SetEach([], p);
      var k := Key(m);
      if k in KeysInOrder(p) {
        var i :| 0 <= i < |KeysInOrder(p)| && KeysInOrder(p)[i] == k;
        MapSetHit(t, k, m, i);
      } else {
        MapSetMiss(t, k, m);
      }
    }
  }

  /** How one more incoming message changes the expected value of each key. */
  lemma ExpectedStep(a: seq<JsObject>, b: seq<JsObject>, k2: JsValue)
    requires b != []
    ensures Expected(a, b, k2) ==
      if Key(b[|b| - 1]) == k2 then Expected(a, b[..|b| - 1], k2) + b[|b| - 1] else Expected(a, b[..|b| - 1], k2)
  {
    var b', m := b[..|b| - 1], b[|b| - 1];
    var l := LastWithKey(a, k2);
    if Key(m) == k2 && l.Some? {
      assert l.value + (Overlay(b', k2) + m) == (l.value + Overlay(b', k2)) + m;
    }
  }

  /** An incoming message whose key is already in the table updates that entry. */
  lemma ShapedHit(t: seq<Entry>, keys: seq<JsValue>, a: seq<JsObject>, b: seq<JsObject>, i: int)
    requires b != [] && Shaped(t, keys, a, b[..|b| - 1])
    requires 0 <= i < |t| && keys[i] == Key(b[|b| - 1])
    requires forall j :: 0 <= j < |t| && j != i ==> keys[j] != keys[i]
    ensures Shaped(t[i := Entry(keys[i], t[i].value + b[|b| - 1])], keys, a, b)
  {
    var t2 := t[i := Entry(keys[i], t[i].value + b[|b| - 1])];
    forall j | 0 <= j < |t2| ensures t2[j].key == keys[j] && t2[j].value == Expected(a, b, keys[j]) {
      ExpectedStep(a, b, keys[j]);
    }
  }

  /** An incoming message with a new key is appended to the table. */
  lemma ShapedMiss(t: seq<Entry>, keys: seq<JsValue>, a: seq<JsObject>, b: seq<JsObject>)
    requires b != [] && Shaped(t, keys, a, b[..|b| - 1])
    requires Key(b[|b| - 1]) !in keys
    requires LastWithKey(a, Key(b[|b| - 1])).None? && LastWithKey(b[..|b| - 1], Key(b[|b| - 1])).None?
    ensures Shaped(t + [Entry(Key(b[|b| - 1]), b[|b| - 1])], keys + [Key(b[|b| - 1])], a, b)
  {
    var b', m := b[..|b| - 1], b[|b| - 1];
    var k := Key(m);
    OverlayAbsent(b', k);
    assert Expected(a, b, k) == m by {
      ExpectedStep(a, b, k);
      assert map[] + m == m;
    }
    var t2, keys2 := t + [Entry(k, m)], keys + [k];
    forall j | 0 <= j < |t2| ensures t2[j].key == keys2[j] && t2[j].value == Expected(a, b, keys2[j]) {
      if j < |t| {
        ExpectedStep(a, b, keys2[j]);
      }
    }
  }

  /** A table whose keys follow a duplicate-free key list has distinct keys. */
  lemma ShapedDistinct(t: seq<Entry>, keys: seq<JsValue>, a: seq<JsObject>, b: seq<JsObject>)
    requires Shaped(t, keys, a, b)
    requires forall i, j :: 0 <= i < j < |keys| ==> keys[i] != keys[j]
    ensures DistinctKeys(t)
  {
  }

  /** After the existing messages are stored, the table holds each key's last
      existing message, in first-appearance order. */
  lemma SpreadEachBase(a: seq<JsObject>)
    ensures Shaped(SetEach([], a), KeysInOrder(a), a, [])
    ensures DistinctKeys(SetEach([], a))
  {
    var t0 := SetEach([], a);
    SetEachShape(a);
    KeysInOrderFacts(a);
    forall i | 0 <= i < |t0| ensures t0[i].value == Expected(a, [], KeysInOrder(a)[i]) {
      var v := t0[i].value;
      assert v + map[] == v;
    }
    ShapedDistinct(t0, KeysInOrder(a), a, []);
  }

  /** One more incoming message keeps the table shaped by the expected values. */
  lemma SpreadStep(t: seq<Entry>, a: seq<JsObject>, b: seq<JsObject>)
    requires b != []
    requires Shaped(t, KeysInOrder(a + b[..|b| - 1]), a, b[..|b| - 1]) && DistinctKeys(t)
    ensures var m := b[|b| - 1];
      var t2 := MapSet(t, Key(m), Spread(MapGet(t, Key(m)), m));
      Shaped(t2, KeysInOrder(a + b), a, b) && DistinctKeys(t2)
  {
    var b', m := b[..|b| - 1], b[|b| - 1];
    assert (a + b)[..|a + b| - 1] == a + b';
    assert (a + b)[|a + b| - 1] == m;
    var keys' := KeysInOrder(a + b');
    var k := Key(m);
    KeysInOrderFacts(a + b');
    KeysInOrderFacts(a + b);
    var t2 := MapSet(t, k, Spread(MapGet(t, k), m));
    if k in keys' {
      var i :| 0 <= i < |keys'| && keys'[i] == k;
      MapSetHit(t, k, Spread(MapGet(t, k), m), i);
      ShapedHit(t, keys', a, b, i);
    } else {
      MapSetMiss(t, k, Spread(MapGet(t, k), m));
      LastWithKeyConcat(a, b', k);
      ShapedMiss(t, keys', a, b);
    }
    ShapedDistinct(t2, KeysInOrder(a + b), a, b);
  }

  lemma {:induction false} SpreadEachShape(a: seq<JsObject>, b: seq<JsObject>)
    ensures Shaped(SpreadEach(SetEach([], a), b), KeysInOrder(a + b), a, b)
    ensures DistinctKeys(SpreadEach(SetEach([], a), b))
    decreases |b|
  {
    if b == [] {
      assert a + b == a;
      SpreadEachBase(a);
    } else {
      SpreadEachShape(a, b[..|b| - 1]);
      SpreadStep(SpreadEach(SetEach([], a), b[..|b| - 1]), a, b);
    }
  }

  /** The unsorted result: one message per distinct key, in first-appearance
      order over `existing` then `incoming`, each as `Expected` describes. */
  lemma InsertionOrderSpec(a: seq<JsObject>, b: seq<JsObject>)
    ensures |InsertionOrder(a, b)| == |KeysInOrder(a + b)|
    ensures forall i :: 0 <= i < |InsertionOrder(a, b)| ==>
      && InsertionOrder(a, b)[i] == Expected(a, b, KeysInOrder(a + b)[i])
      && Key(InsertionOrder(a, b)[i]) == KeysInOrder(a + b)[i]
    ensures UniqueKeys(InsertionOrder(a, b))
  {
    SpreadEachShape(a, b);
    KeysInOrderFacts(a + b);
    var io, keys := InsertionOrder(a, b), KeysInOrder(a + b);
    forall i | 0 <= i < |io| ensures Key(io[i]) == keys[i] {
      LastWithKeyConcat(a, b, keys[i]);
      KeyOfExpected(a, b, keys[i]);
    }
  }

  lemma KeySetConcat(a: seq<JsObject>, b: seq<JsObject>)
    ensures KeySet(a + b) == KeySet(a) + KeySet(b)
  {
    assert forall m :: m in a + b <==> m in a || m in b;
  }

  /** Before the sort: one message per key of either input, each as
      `Expected` describes. */
  lemma InsertionOrderKeys(a: seq<JsObject>, b: seq<JsObject>)
    ensures UniqueKeys(InsertionOrder(a, b))
    ensures KeySet(InsertionOrder(a, b)) == KeySet(a) + KeySet(b)
    ensures forall r :: r in InsertionOrder(a, b) ==> r == Expected(a, b, Key(r))
  {
    var io := InsertionOrder(a, b);
    InsertionOrderSpec(a, b);
    KeySetIsKeysInOrder(a + b);
    KeySetConcat(a, b);
    forall k ensures k in KeySet(io) <==> k in KeysInOrder(a + b) {
      if k in KeysInOrder(a + b) {
        var i :| 0 <= i < |KeysInOrder(a + b)| && KeysInOrder(a + b)[i] == k;
        assert io[i] in io;
      }
      if k in KeySet(io) {
        var r :| r in io && Key(r) == k;
        var i :| 0 <= i < |io| && io[i] == r;
      }
    }
    forall r | r in io ensures r == Expected(a, b, Key(r)) {
      var i :| 0 <= i < |io| && io[i] == r;
    }
  }

  lemma SameElementsKeySet(x: seq<JsObject>, y: seq<JsObject>)
    requires forall e :: e in x <==> e in y
    ensures KeySet(x) == KeySet(y)
  {
  }

  /** Exactly one message per key of either input, each the existing message
      overlaid by the incoming ones; ascending by `created_at`, and among equal
      `created_at` values in the map's insertion order. */
  lemma MergeSpec(a: seq<JsObject>, b: seq<JsObject>)
    ensures UniqueKeys(Merge(a, b))
    ensures KeySet(Merge(a, b)) == KeySet(a) + KeySet(b)
    ensures forall r :: r in Merge(a, b) ==> r == Expected(a, b, Key(r))
    ensures Ordered(Merge(a, b))
    ensures forall t :: WithKey(Merge(a, b), SortKey, t) == WithKey(InsertionOrder(a, b), SortKey, t)
  {
    var io := InsertionOrder(a, b);
    InsertionOrderKeys(a, b);
    SortSpec(io, SortKey);
    assert DistinctUnder(io, Key);
    SortKeepsDistinct(io, SortKey, Key);
    SameElementsKeySet(Merge(a, b), io);
  }

  // ---------------------------------------------------------------------------
  // Idempotence: merging the same incoming page again changes nothing.

  lemma {:induction false} KeysInOrderOfUnique(ms: seq<JsObject>)
    requires UniqueKeys(ms)
    ensures KeysInOrder(ms) == seq(|ms|, i requires 0 <= i < |ms| => Key(ms[i]))
    decreases |ms|
  {
    if ms != [] {
      var p := ms[..|ms| - 1];
      KeysInOrderOfUnique(p);
      var k := Key(ms[|ms| - 1]);
      assert k !in KeysInOrder(p) by {
        forall j | 0 <= j < |p| ensures KeysInOrder(p)[j] != k {
          assert KeysInOrder(p)[j] == Key(ms[j]);
        }
      }
    }
  }

  lemma {:induction false} KeysInOrderAbsorb(ms: seq<JsObject>, b: seq<JsObject>)
    requires forall m :: m in b ==> Key(m) in KeysInOrder(ms)
    ensures KeysInOrder(ms + b) == KeysInOrder(ms)
    decreases |b|
  {
    if b == [] {
      assert ms + b == ms;
    } else {
      var b' := b[..|b| - 1];
      assert (ms + b)[..|ms + b| - 1] == ms + b';
      assert (ms + b)[|ms + b| - 1] == b[|b| - 1];
      KeysInOrderAbsorb(ms, b');
    }
  }

  lemma {:induction false} LastWithKeyOfUnique(ms: seq<JsObject>, i: int)
    requires UniqueKeys(ms) && 0 <= i < |ms|
    ensures LastWithKey(ms, Key(ms[i])) == Some(ms[i])
    decreases |ms|
  {
    if i < |ms| - 1 {
      LastWithKeyOfUnique(ms[..|ms| - 1], i);
    }
  }

  /** Spreading the same incoming messages a second time changes no field. */
  lemma ExpectedAgain(a: seq<JsObject>, b: seq<JsObject>, k: JsValue)
    ensures Expected(a, b, k) + Overlay(b, k) == Expected(a, b, k)
  {
    var o := Overlay(b, k);
    match LastWithKey(a, k)
    case None =>
      assert o + o == o;
    case Some(l) =>
      assert (l + o) + o == l + o;
  }

  /** `uniqueMerge(uniqueMerge(a, b), b) == uniqueMerge(a, b)`. */
  /** A merged entry is unchanged by spreading the same incoming page again. */
  lemma EntryAgain(a: seq<JsObject>, b: seq<JsObject>, m: seq<JsObject>, i: int)
    requires UniqueKeys(m) && 0 <= i < |m|
    requires m[i] == Expected(a, b, Key(m[i]))
    ensures Expected(m, b, Key(m[i])) == m[i]
  {
    LastWithKeyOfUnique(m, i);
    ExpectedAgain(a, b, Key(m[i]));
  }

  /** The keys of a timeline with distinct keys, followed by messages it
      already has keys for, are the timeline's own keys in order. */
  lemma KeysAfterAbsorb(m: seq<JsObject>, b: seq<JsObject>)
    requires UniqueKeys(m) && KeySet(b) <= KeySet(m)
    ensures |KeysInOrder(m + b)| == |m|
    ensures forall i :: 0 <= i < |m| ==> KeysInOrder(m + b)[i] == Key(m[i])
  {
    KeysInOrderOfUnique(m);
    KeySetIsKeysInOrder(m);
    assert forall x :: x in b ==> Key(x) in KeySet(b);
    KeysInOrderAbsorb(m, b);
  }

  /** Re-inserting `b` into a timeline that already holds every key of `b`,
      each entry having absorbed `b` once, leaves the timeline as it was. */
  lemma InsertionOrderAbsorbs(a: seq<JsObject>, b: seq<JsObject>, m: seq<JsObject>)
    requires UniqueKeys(m) && KeySet(b) <= KeySet(m)
    requires forall i :: 0 <= i < |m| ==> m[i] == Expected(a, b, Key(m[i]))
    ensures InsertionOrder(m, b) == m
  {
    KeysAfterAbsorb(m, b);
    InsertionOrderSpec(m, b);
    var io := InsertionOrder(m, b);
    forall i | 0 <= i < |m| ensures io[i] == m[i] {
      EntryAgain(a, b, m, i);
    }
  }

  /** Re-inserting a merged page's messages keeps the merged order. */
  lemma InsertionOrderOfMerged(a: seq<JsObject>, b: seq<JsObject>)
    ensures InsertionOrder(Merge(a, b), b) == Merge(a, b)
  {
    var m := Merge(a, b);
    MergeSpec(a, b);
    assert forall i :: 0 <= i < |m| ==> m[i] in m;
    InsertionOrderAbsorbs(a, b, m);
  }

  lemma MergeIdempotent(a: seq<JsObject>, b: seq<JsObject>)
    ensures Merge(Merge(a, b), b) == Merge(a, b)
  {
    MergeSpec(a, b);
    InsertionOrderOfMerged(a, b);
    SortSorted(Merge(a, b), SortKey);
  }

  lemma OverlaySingle(m: JsObject, k: JsValue)
    ensures Overlay([m], k) == if Key(m) == k then m else map[]
  {
    assert [m][..0] == [];
    assert map[] + m == m;
  }

  /** Merging one message into a timeline with distinct keys: the message
      lands under its key, spread over the entry it replaces; every other
      entry is kept as it was, and nothing else appears. */
  lemma MergeSingle(items: seq<JsObject>, m: JsObject)
    ensures UniqueKeys(Merge(items, [m])) && Ordered(Merge(items, [m]))
    ensures forall r :: r in Merge(items, [m]) && Key(r) == Key(m) ==> r == Spread(LastWithKey(items, Key(m)), m)
    ensures exists r :: r in Merge(items, [m]) && Key(r) == Key(m)
    ensures forall r :: r in Merge(items, [m]) ==> Key(r) == Key(m) || r in items
  {
    var res := Merge(items, [m]);
    MergeSpec(items, [m]);
    OverlaySingle(m, Key(m));
    assert Key(m) in KeySet([m]);
    forall r | r in res && Key(r) != Key(m) ensures r in items {
      assert Key(r) in KeySet(items) + KeySet([m]);
      UntouchedEntry(items, m, r);
    }
  }

  /** An entry under a key the incoming message does not carry is the last
      existing message with that key. */
  lemma UntouchedEntry(items: seq<JsObject>, m: JsObject, r: JsObject)
    requires Key(r) != Key(m) && Key(r) in KeySet(items)
    requires r == Expected(items, [m], Key(r))
    ensures r in items
  {
    OverlaySingle(m, Key(r));
    LastWithKeyFacts(items, Key(r));
    var x :| x in items && Key(x) == Key(r);
    var i :| 0 <= i < |items| && items[i] == x;
    var l := LastWithKey(items, Key(r)).value;
    assert l + map[] == l;
  }

  lemma MergeOne(items: seq<JsObject>, m: JsObject)
    requires UniqueKeys(items)
    ensures UniqueKeys(Merge(items, [m])) && Ordered(Merge(items, [m]))
    ensures forall r :: r in Merge(items, [m]) && Key(r) == Key(m) ==> r == Spread(LastWithKey(items, Key(m)), m)
    ensures exists r :: r in Merge(items, [m]) && Key(r) == Key(m)
    ensures forall x :: x in items && Key(x) != Key(m) ==> x in Merge(items, [m])
    ensures forall r :: r in Merge(items, [m]) ==> Key(r) == Key(m) || r in items
  {
    var res := Merge(items, [m]);
    MergeSingle(items, m);
    MergeSpec(items, [m]);
    forall x | x in items && Key(x) != Key(m) ensures x in res {
      var i :| 0 <= i < |items| && items[i] == x;
      LastWithKeyOfUnique(items, i);
      OverlaySingle(m, Key(x));
      assert x + map[] == x;
      assert Key(x) in KeySet(items);
      var r :| r in res && Key(r) == Key(x);
    }
  }
}
