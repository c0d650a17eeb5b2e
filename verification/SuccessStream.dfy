/**
  The committed success stream: what a plan promises to emit, and the cursor that emits it.

  SHA-256 is idealised: a digest is the term that remembers what was hashed, so equal data have
  equal digests and nothing else is assumed.  A chunk carries its raw bytes; base64 only matters
  for frame sizes, which FrameSizes accounts for.
*/
module SuccessStream {
  import opened Wire

  datatype Digest = Sha256(preimage: Bytes)

  /** A semantic item or completion result: its JSON text, and whether the codec accepts it apart
      from size (kind match, field validation, encoding, strict JSON and depth). */
  datatype Value = Value(valid: bool, json: Bytes)

  datatype PlannedItem = PlannedItem(
    kind: string,
    value: Value,
    fragmented: bool,
    payload: Bytes,
    chunks: nat,
    digest: Digest)

  datatype Plan = Plan(items: seq<PlannedItem>, result: Value, frameCount: nat)

  datatype Body =
    | Item(kind: string, value: Value)
    | ItemBegin(itemId: nat, kind: string, bytes: nat)
    | ItemChunk(itemId: nat, index: nat, data: Bytes)
    | ItemEnd(itemId: nat, chunks: nat, digest: Digest)
    | Completed(result: Value)

  // ---------------------------------------------------------------- what a plan stands for

  function ChunkCount(payload: Bytes): nat {
    (|payload| + FRAGMENT_CHUNK_BYTES - 1) / FRAGMENT_CHUNK_BYTES
  }

  /** The `index`-th slice of at most 512 KiB. */
  function ChunkData(payload: Bytes, index: nat): Bytes
    requires index * FRAGMENT_CHUNK_BYTES <= |payload|
  {
    var start := index * FRAGMENT_CHUNK_BYTES;
    payload[start..Min(start + FRAGMENT_CHUNK_BYTES, |payload|)]
  }

  predicate ItemOk(item: PlannedItem) {
    item.fragmented ==>
      && 1 <= item.chunks <= MAX_CHUNKS
      && item.chunks == ChunkCount(item.payload)
      && item.digest == Sha256(item.payload)
  }

  function Chunks(item: PlannedItem, itemId: nat): (bodies: seq<Body>)
    requires ItemOk(item) && item.fragmented
    ensures |bodies| == item.chunks
  {
    seq(item.chunks, (i: nat) requires i < item.chunks => ItemChunk(itemId, i, ChunkData(item.payload, i)))
  }

  function ItemFrames(item: PlannedItem, itemId: nat): (bodies: seq<Body>)
    requires ItemOk(item)
    ensures |bodies| == if item.fragmented then item.chunks + 2 else 1
  {
    if item.fragmented then
      [ItemBegin(itemId, item.kind, |item.payload|)]
      + Chunks(item, itemId)
      + [ItemEnd(itemId, item.chunks, item.digest)]
    else
      [Item(item.kind, item.value)]
  }

  predicate ItemsOk(items: seq<PlannedItem>) { forall i :: 0 <= i < |items| ==> ItemOk(items[i]) }

  /** The frames of the items from `from` on, then the completion. */
  function StreamFrom(plan: Plan, from: nat): (bodies: seq<Body>)
    requires ItemsOk(plan.items) && from <= |plan.items|
    ensures |bodies| >= 1 + |plan.items| - from
    decreases |plan.items| - from
  {
    if from == |plan.items| then [Completed(plan.result)]
    else ItemFrames(plan.items[from], from + 1) + StreamFrom(plan, from + 1)
  }

  function Stream(plan: Plan): seq<Body>
    requires ItemsOk(plan.items)
  {
    StreamFrom(plan, 0)
  }

  /** What preflight guarantees of every plan it returns. */
  predicate PlanOk(plan: Plan) {
    && ItemsOk(plan.items)
    && plan.frameCount == |Stream(plan)|
    && plan.frameCount <= MAX_SAFE_INTEGER
  }

  lemma {:induction false} OnlyTheLastFrameCompletes(plan: Plan, from: nat, k: nat)
    requires ItemsOk(plan.items) && from <= |plan.items| && k < |StreamFrom(plan, from)|
    ensures StreamFrom(plan, from)[k].Completed? <==> k == |StreamFrom(plan, from)| - 1
    decreases |plan.items| - from
  {
    if from < |plan.items| {
      var head := |ItemFrames(plan.items[from], from + 1)|;
      if k >= head {
        OnlyTheLastFrameCompletes(plan, from + 1, k - head);
      }
    }
  }

  // ---------------------------------------------------------------- the cursor

  datatype Cursor = Cursor(
    plan: Plan,
    itemIndex: nat,
    phase: nat,
    chunkIndex: nat,
    hashed: Bytes,
    completed: bool)

  datatype Emission =
    | Emitted(cursor: Cursor, body: Body, terminal: bool)
    | Stuck(cursor: Cursor)

  function NewCursor(plan: Plan): Cursor { Cursor(plan, 0, 0, 0, "", false) }

  predicate SafeCount(n: int) { 0 <= n <= MAX_SAFE_INTEGER }

  /** One call of the cursor; `Stuck` is any of its error returns. */
  function Next(c: Cursor): Emission {
    if c.completed then Stuck(c)
    else if c.itemIndex >= |c.plan.items| then
      Emitted(c.(completed := true), Completed(c.plan.result), true)
    else
      var item := c.plan.items[c.itemIndex];
      if !item.fragmented then
        Emitted(c.(itemIndex := c.itemIndex + 1), Item(item.kind, item.value), false)
      else if !SafeCount(c.itemIndex + 1) then Stuck(c)
      else NextFragment(c, item)
  }

  function NextFragment(c: Cursor, item: PlannedItem): Emission {
    var itemId := c.itemIndex + 1;
    if c.phase == 0 then
      if !SafeCount(|item.payload|) then Stuck(c)
      else
        Emitted(c.(phase := 1, chunkIndex := 0, hashed := ""), ItemBegin(itemId, item.kind, |item.payload|), false)
    else if c.phase == 1 && c.chunkIndex < item.chunks then
      if |item.payload| < c.chunkIndex * FRAGMENT_CHUNK_BYTES then Stuck(c)
      else
        var data := ChunkData(item.payload, c.chunkIndex);
        var d := c.(hashed := c.hashed + data);
        if !SafeCount(c.chunkIndex) then Stuck(d)
        else Emitted(d.(chunkIndex := c.chunkIndex + 1), ItemChunk(itemId, c.chunkIndex, data), false)
    else if c.phase == 1 then
      if Sha256(c.hashed) != item.digest then Stuck(c)
      else
        var d := c.(phase := 0, itemIndex := c.itemIndex + 1);
        if !SafeCount(item.chunks) then Stuck(d) else Emitted(d, ItemEnd(itemId, item.chunks, item.digest), false)
    else Stuck(c)
  }

  // ---------------------------------------------------------------- the cursor emits the plan

  function Hashed(item: PlannedItem, chunkIndex: nat): Bytes {
    item.payload[..Min(chunkIndex * FRAGMENT_CHUNK_BYTES, |item.payload|)]
  }

  ghost predicate Good(c: Cursor) {
    && PlanOk(c.plan)
    && c.itemIndex <= |c.plan.items|
    && c.phase <= 1
    && (c.completed ==> c.itemIndex == |c.plan.items|)
    && (c.phase == 1 ==>
          && c.itemIndex < |c.plan.items|
          && var item := c.plan.items[c.itemIndex];
             item.fragmented && c.chunkIndex <= item.chunks && c.hashed == Hashed(item, c.chunkIndex))
  }

  /** The frames a cursor has yet to emit. */
  ghost function Rest(c: Cursor): seq<Body>
    requires Good(c)
  {
    if c.completed then []
    else if c.phase == 0 then StreamFrom(c.plan, c.itemIndex)
    else
      ItemFrames(c.plan.items[c.itemIndex], c.itemIndex + 1)[1 + c.chunkIndex..]
      + StreamFrom(c.plan, c.itemIndex + 1)
  }

  lemma NewCursorIsGood(plan: Plan)
    requires PlanOk(plan)
    ensures Good(NewCursor(plan)) && Rest(NewCursor(plan)) == Stream(plan)
    ensures |Rest(NewCursor(plan))| == plan.frameCount
  {}

  /** Each chunk of a planned item is non-empty, at most 512 KiB, and adds itself to the hash. */
  lemma ChunkBounds(item: PlannedItem, i: nat)
    requires ItemOk(item) && item.fragmented && i < item.chunks
    ensures i * FRAGMENT_CHUNK_BYTES < |item.payload|
    ensures 1 <= |ChunkData(item.payload, i)| <= FRAGMENT_CHUNK_BYTES
    ensures Hashed(item, i) + ChunkData(item.payload, i) == Hashed(item, i + 1)
    ensures Hashed(item, item.chunks) == item.payload
  {
    assert item.chunks * FRAGMENT_CHUNK_BYTES >= |item.payload|;
  }

  /** While frames remain, the cursor never fails, emits exactly the next one, and says `terminal`
      on the last one only. */
  ghost predicate EmitsNext(c: Cursor)
    requires Good(c) && Rest(c) != []
  {
    && Next(c).Emitted?
    && Good(Next(c).cursor)
    && Next(c).cursor.plan == c.plan
    && Rest(c) == [Next(c).body] + Rest(Next(c).cursor)
    && (Next(c).terminal <==> Rest(Next(c).cursor) == [])
    && (Next(c).terminal <==> Next(c).body.Completed?)
  }

  lemma NextEmitsBetweenItems(c: Cursor)
    requires Good(c) && !c.completed && c.phase == 0
    ensures EmitsNext(c)
  {
    if c.itemIndex < |c.plan.items| {
      var item := c.plan.items[c.itemIndex];
      assert ItemOk(item);
      ItemsWithinFrameCount(c.plan, c.itemIndex);
      if item.fragmented {
        ChunkBounds(item, 0);
        assert Next(c).cursor.hashed == Hashed(item, 0);
        assert Next(c).body == ItemFrames(item, c.itemIndex + 1)[0];
        assert ItemFrames(item, c.itemIndex + 1) == [Next(c).body] + ItemFrames(item, c.itemIndex + 1)[1..];
      }
    }
  }

  lemma NextEmitsChunk(c: Cursor)
    requires Good(c) && c.phase == 1 && c.chunkIndex < c.plan.items[c.itemIndex].chunks
    ensures EmitsNext(c)
  {
    var item := c.plan.items[c.itemIndex];
    ItemsWithinFrameCount(c.plan, c.itemIndex);
    ChunkBounds(item, c.chunkIndex);
    var frames := ItemFrames(item, c.itemIndex + 1);
    var i := 1 + c.chunkIndex;
    assert Next(c).body == frames[i];
    assert frames[i..] == [frames[i]] + frames[i + 1..];
  }

  lemma NextEmitsEnd(c: Cursor)
    requires Good(c) && c.phase == 1 && c.chunkIndex == c.plan.items[c.itemIndex].chunks
    ensures EmitsNext(c)
  {
    var item := c.plan.items[c.itemIndex];
    ItemsWithinFrameCount(c.plan, c.itemIndex);
    ChunkBounds(item, 0);
    var frames := ItemFrames(item, c.itemIndex + 1);
    assert frames[1 + c.chunkIndex..] == [Next(c).body];
  }

  lemma NextEmitsRest(c: Cursor)
    requires Good(c) && Rest(c) != []
    ensures EmitsNext(c)
  {
    if c.phase == 0 {
      NextEmitsBetweenItems(c);
    } else if c.chunkIndex < c.plan.items[c.itemIndex].chunks {
      NextEmitsChunk(c);
    } else {
      NextEmitsEnd(c);
    }
  }

  /** Every item still to come adds at least one frame, so item numbers stay within the frame count. */
  lemma {:induction false} ItemsWithinFrameCount(plan: Plan, from: nat)
    requires ItemsOk(plan.items) && from <= |plan.items|
    ensures |Stream(plan)| >= |StreamFrom(plan, from)| + from
  {
    if from > 0 {
      ItemsWithinFrameCount(plan, from - 1);
      assert ItemOk(plan.items[from - 1]);
    }
  }

  // ---------------------------------------------------------------- runs of the cursor

  /** The bodies the cursor emits when it is called until it says `terminal`. */
  ghost function Drain(c: Cursor): seq<Body>
    requires Good(c)
    decreases |Rest(c)|
  {
    if Rest(c) == [] then []
    else
      NextEmitsRest(c);
      [Next(c).body] + Drain(Next(c).cursor)
  }

  lemma {:induction false} DrainIsRest(c: Cursor)
    requires Good(c)
    ensures Drain(c) == Rest(c)
    decreases |Rest(c)|
  {
    if Rest(c) != [] {
      NextEmitsRest(c);
      DrainIsRest(Next(c).cursor);
    }
  }

  /** A committed plan streams to completion: exactly `frameCount` frames, `completed` last and only last. */
  lemma CommittedPlanStreamsToCompletion(plan: Plan)
    requires PlanOk(plan)
    ensures Drain(NewCursor(plan)) == Stream(plan)
    ensures |Drain(NewCursor(plan))| == plan.frameCount
    ensures forall k :: 0 <= k < plan.frameCount ==>
                          (Drain(NewCursor(plan))[k].Completed? <==> k == plan.frameCount - 1)
  {
    NewCursorIsGood(plan);
    DrainIsRest(NewCursor(plan));
    forall k | 0 <= k < plan.frameCount
      ensures Stream(plan)[k].Completed? <==> k == plan.frameCount - 1
    {
      OnlyTheLastFrameCompletes(plan, 0, k);
    }
  }

  /** What a client puts back together from a list of bodies: the chunk data in order. */
  function Reassembled(bodies: seq<Body>): Bytes {
    if bodies == [] then ""
    else (if bodies[0].ItemChunk? then bodies[0].data else "") + Reassembled(bodies[1..])
  }

  lemma {:induction false} ReassembledFrom(item: PlannedItem, itemId: nat, i: nat)
    requires ItemOk(item) && item.fragmented && i <= item.chunks
    ensures Hashed(item, i) + Reassembled(ItemFrames(item, itemId)[1 + i..]) == item.payload
    decreases item.chunks - i
  {
    var frames := ItemFrames(item, itemId);
    if i < item.chunks {
      var data, rest := ChunkData(item.payload, i), frames[1 + (i + 1)..];
      assert frames[1 + i] == ItemChunk(itemId, i, data);
      assert frames[1 + i..] == [frames[1 + i]] + rest;
      ReassembledChunk(itemId, i, data, rest);
      assert Hashed(item, i) + data == Hashed(item, i + 1) by { ChunkBounds(item, i); }
      Associate(Hashed(item, i), data, Reassembled(rest));
      ReassembledFrom(item, itemId, i + 1);
    } else {
      assert frames[1 + i..] == [ItemEnd(itemId, item.chunks, item.digest)];
      assert Reassembled(frames[1 + i..]) == "";
      assert Hashed(item, i) == item.payload by { ChunkBounds(item, 0); }
    }
  }

  lemma ReassembledChunk(itemId: nat, i: nat, data: Bytes, rest: seq<Body>)
    ensures Reassembled([ItemChunk(itemId, i, data)] + rest) == data + Reassembled(rest)
  {
    assert ([ItemChunk(itemId, i, data)] + rest)[1..] == rest;
  }

  lemma Associate(a: Bytes, b: Bytes, c: Bytes)
    ensures a + (b + c) == a + b + c
  {}

  /** The fragments of one item give its payload back, with the declared length, count and digest. */
  lemma FragmentsReassemble(item: PlannedItem, itemId: nat)
    requires ItemOk(item) && item.fragmented
    ensures var frames := ItemFrames(item, itemId);
            && frames[0] == ItemBegin(itemId, item.kind, |Reassembled(frames)|)
            && Reassembled(frames) == item.payload
            && frames[|frames| - 1] == ItemEnd(itemId, |frames| - 2, Sha256(Reassembled(frames)))
            && 1 <= |frames| - 2 <= MAX_CHUNKS
            && forall k :: 1 <= k < |frames| - 1 ==>
                             frames[k].ItemChunk? && frames[k].index == k - 1
                             && 1 <= |frames[k].data| <= FRAGMENT_CHUNK_BYTES
  {
    var frames := ItemFrames(item, itemId);
    ReassembledFrom(item, itemId, 0);
    assert Hashed(item, 0) == "";
    assert Reassembled(frames) == Reassembled(frames[1..]);
    forall k | 1 <= k < |frames| - 1
      ensures frames[k] == ItemChunk(itemId, k - 1, ChunkData(item.payload, k - 1))
      ensures 1 <= |ChunkData(item.payload, k - 1)| <= FRAGMENT_CHUNK_BYTES
    {
      ChunkBounds(item, k - 1);
    }
  }
}
