/**
  Planning a success before it is committed: every frame is sized and validated with maximal ids,
  so that whatever ids it gets later it can be written.
*/
module Preflight {
  import opened Wire
  import opened SuccessStream

  // ---------------------------------------------------------------- the size and validity of frames

  /** The number of decimal digits of n. */
  function Digits(n: nat): (d: nat)
    ensures d >= 1
  {
    if n < 10 then 1 else 1 + Digits(n / 10)
  }

  lemma {:induction false} DigitsMonotone(m: nat, n: nat)
    requires m <= n
    ensures Digits(m) <= Digits(n)
  {
    if m >= 10 {
      DigitsMonotone(m / 10, n / 10);
    }
  }

  /** RFC 4648 base64 with padding. */
  function Base64Length(bytes: nat): nat { (bytes + 2) / 3 * 4 }

  const DIGEST_TEXT_BYTES: nat := 64

  // The bytes of each frame's JSON text outside its numbers, strings and payload.
  const ITEM_TEXT: nat := 46        // {"type":"item","id":,"seq":,"kind":"","item":}
  const ITEM_BEGIN_TEXT: nat := 82 // {"type":"item_begin","id":,"seq":,"item_id":,"kind":"","encoding":"json","bytes":}
  const ITEM_CHUNK_TEXT: nat := 64  // {"type":"item_chunk","id":,"seq":,"item_id":,"index":,"data":""}
  const ITEM_END_TEXT: nat := 65    // {"type":"item_end","id":,"seq":,"item_id":,"chunks":,"sha256":""}
  const COMPLETED_TEXT: nat := 43   // {"type":"completed","id":,"seq":,"result":}

  function BodyBytes(body: Body): nat {
    match body
    case Item(kind, value) => ITEM_TEXT + |kind| + |value.json|
    case ItemBegin(itemId, kind, bytes) => ITEM_BEGIN_TEXT + Digits(itemId) + |kind| + Digits(bytes)
    case ItemChunk(itemId, index, data) => ITEM_CHUNK_TEXT + Digits(itemId) + Digits(index) + Base64Length(|data|)
    case ItemEnd(itemId, chunks, _) => ITEM_END_TEXT + Digits(itemId) + Digits(chunks) + DIGEST_TEXT_BYTES
    case Completed(result) => COMPLETED_TEXT + |result.json|
  }

  /** The length of the JSON text of a frame. */
  function WireBytes(id: nat, sequence: nat, body: Body): nat {
    Digits(id) + Digits(sequence) + BodyBytes(body)
  }

  predicate Positive(n: nat) { 1 <= n <= MAX_SAFE_INTEGER }

  const KINDS: set<string> := {
    "catalog_resource", "url_classification", "projected_record",
    "diff_resource", "diff_added", "diff_removed", "diff_field_change"
  }
  const LONGEST_KIND: nat := 18

  /** The bound on the length follows from the list; it is stated so that sizes need not unfold it. */
  predicate ValidKind(kind: string) { kind in KINDS && |kind| <= LONGEST_KIND }

  /** The validation every frame gets before it is encoded. */
  predicate ValidFrame(id: nat, sequence: nat, body: Body) {
    && Positive(id) && Positive(sequence)
    && match body
       case Item(kind, value) => ValidKind(kind) && value.valid
       case ItemBegin(itemId, kind, bytes) => Positive(itemId) && ValidKind(kind) && 2 <= bytes <= AGGREGATE_ITEM_BYTES
       case ItemChunk(itemId, index, data) => Positive(itemId) && index <= 127 && 1 <= |data| <= FRAGMENT_CHUNK_BYTES
       case ItemEnd(itemId, chunks, _) => Positive(itemId) && 1 <= chunks <= 128
       case Completed(result) => result.valid
  }

  datatype Verdict = Fits | Invalid | TooLarge

  function Marshal(id: nat, sequence: nat, body: Body): Verdict {
    if !ValidFrame(id, sequence, body) then Invalid
    else if WireBytes(id, sequence, body) > V1_FRAME_BYTES then TooLarge
    else Fits
  }

  /** The body with the largest item number in place of its own. */
  function WithMaximalIds(body: Body): Body {
    match body
    case ItemBegin(_, kind, bytes) => ItemBegin(MAX_SAFE_INTEGER, kind, bytes)
    case ItemChunk(_, index, data) => ItemChunk(MAX_SAFE_INTEGER, index, data)
    case ItemEnd(_, chunks, digest) => ItemEnd(MAX_SAFE_INTEGER, chunks, digest)
    case _ => body
  }

  predicate PreflightOk(body: Body) {
    Marshal(MAX_SAFE_INTEGER, MAX_SAFE_INTEGER, WithMaximalIds(body)).Fits?
  }

  predicate ItemIdOk(body: Body) {
    match body
    case ItemBegin(itemId, _, _) => Positive(itemId)
    case ItemChunk(itemId, _, _) => Positive(itemId)
    case ItemEnd(itemId, _, _) => Positive(itemId)
    case _ => true
  }

  /** No frame with real ids is longer than the one that was preflighted, so it can be written. */
  lemma PreflightedFrameFits(id: nat, sequence: nat, body: Body)
    requires Positive(id) && Positive(sequence) && ItemIdOk(body) && PreflightOk(body)
    ensures WireBytes(id, sequence, body) <= WireBytes(MAX_SAFE_INTEGER, MAX_SAFE_INTEGER, WithMaximalIds(body))
    ensures Marshal(id, sequence, body).Fits?
  {
    DigitsMonotone(id, MAX_SAFE_INTEGER);
    DigitsMonotone(sequence, MAX_SAFE_INTEGER);
    match body
    case ItemBegin(itemId, _, _) => DigitsMonotone(itemId, MAX_SAFE_INTEGER);
    case ItemChunk(itemId, _, _) => DigitsMonotone(itemId, MAX_SAFE_INTEGER);
    case ItemEnd(itemId, _, _) => DigitsMonotone(itemId, MAX_SAFE_INTEGER);
    case _ =>
  }

  // ---------------------------------------------------------------- what preflight admits

  /** One semantic item the operation produced. */
  datatype SemanticItem = SemanticItem(kind: string, value: Value)

  datatype PlanError = BadData | ResponseTooLarge | Interrupted

  /** MarshalItemPayload: validation first, then the 64 MiB bound. */
  function MarshalPayload(item: SemanticItem): Verdict {
    if !ValidKind(item.kind) || !item.value.valid then Invalid
    else if |item.value.json| > AGGREGATE_ITEM_BYTES then TooLarge
    else Fits
  }

  predicate AdmitsItem(item: SemanticItem, aggregate: int) {
    MarshalPayload(item).Fits? && |item.value.json| <= aggregate
  }

  predicate Inline(item: SemanticItem) {
    Marshal(MAX_SAFE_INTEGER, MAX_SAFE_INTEGER, Item(item.kind, item.value)).Fits?
  }

  /** How an admitted item is planned: inline when its maximal frame fits, in chunks otherwise. */
  function PlanItem(item: SemanticItem): PlannedItem {
    if Inline(item) then PlannedItem(item.kind, item.value, false, "", 0, Sha256(""))
    else
      PlannedItem(item.kind, item.value, true, item.value.json, ChunkCount(item.value.json), Sha256(item.value.json))
  }

  function FramesOf(item: SemanticItem): nat { if Inline(item) then 1 else ChunkCount(item.value.json) + 2 }

  function FramesUpTo(items: seq<SemanticItem>, n: nat): nat
    requires n <= |items|
  {
    if n == 0 then 1 else FramesUpTo(items, n - 1) + FramesOf(items[n - 1])
  }

  /** Everything preflight asks of an operation's data. */
  predicate Admissible(items: seq<SemanticItem>, result: Value, aggregate: int) {
    && Marshal(MAX_SAFE_INTEGER, MAX_SAFE_INTEGER, Completed(result)).Fits?
    && (forall i :: 0 <= i < |items| ==> AdmitsItem(items[i], aggregate))
    && FramesUpTo(items, |items|) <= MAX_SAFE_INTEGER
  }

  lemma {:induction false} FramesGrow(items: seq<SemanticItem>, m: nat, n: nat)
    requires m <= n <= |items|
    ensures FramesUpTo(items, m) <= FramesUpTo(items, n)
  {
    if m < n {
      FramesGrow(items, m, n - 1);
    }
  }

  lemma BeginFits(kind: string, bytes: nat)
    requires ValidKind(kind) && 2 <= bytes <= AGGREGATE_ITEM_BYTES
    ensures PreflightOk(ItemBegin(MAX_SAFE_INTEGER, kind, bytes))
  {
    SixteenDigits();
    DigitsMonotone(bytes, MAX_SAFE_INTEGER);
  }

  lemma ChunkFits(index: nat, data: Bytes)
    requires index < MAX_CHUNKS && 1 <= |data| <= FRAGMENT_CHUNK_BYTES
    ensures PreflightOk(ItemChunk(MAX_SAFE_INTEGER, index, data))
  {
    SixteenDigits();
    DigitsMonotone(index, MAX_SAFE_INTEGER);
  }

  lemma EndFits(chunks: nat, digest: Digest)
    requires 1 <= chunks <= MAX_CHUNKS
    ensures PreflightOk(ItemEnd(MAX_SAFE_INTEGER, chunks, digest))
  {
    SixteenDigits();
    DigitsMonotone(chunks, MAX_SAFE_INTEGER);
  }

  /** An admitted item that does not fit inline is cut into 1 to 128 chunks, and all its frames fit. */
  lemma FragmentsFit(item: SemanticItem, aggregate: int)
    requires AdmitsItem(item, aggregate) && !Inline(item)
    ensures ItemOk(PlanItem(item))
    ensures forall k :: 0 <= k < |ItemFrames(PlanItem(item), MAX_SAFE_INTEGER)| ==>
                          PreflightOk(ItemFrames(PlanItem(item), MAX_SAFE_INTEGER)[k])
  {
    var planned := PlanItem(item);
    LongPayload(item);
    assert ItemOk(planned);
    var frames := ItemFrames(planned, MAX_SAFE_INTEGER);
    forall k | 0 <= k < |frames|
      ensures PreflightOk(frames[k])
    {
      if k == 0 {
        BeginFits(item.kind, |item.value.json|);
      } else if k <= planned.chunks {
        ChunkBounds(planned, k - 1);
        ChunkFits(k - 1, ChunkData(planned.payload, k - 1));
      } else {
        EndFits(planned.chunks, planned.digest);
      }
    }
  }

  /** What does not fit inline is a long payload, not an invalid one. */
  lemma LongPayload(item: SemanticItem)
    requires MarshalPayload(item).Fits? && !Inline(item)
    ensures Marshal(MAX_SAFE_INTEGER, MAX_SAFE_INTEGER, Item(item.kind, item.value)).TooLarge?
    ensures |item.value.json| > FRAGMENT_CHUNK_BYTES
    ensures 1 <= ChunkCount(item.value.json) <= MAX_CHUNKS
  {
    SixteenDigits();
  }

  lemma SixteenDigits()
    ensures Digits(MAX_SAFE_INTEGER) == 16
  {
    assert Digits(9007) == 4;
    assert Digits(90071992) == 8;
    assert Digits(900719925474) == 12;
  }

  predicate IsPlanOf(planned: seq<PlannedItem>, items: seq<SemanticItem>) {
    && |planned| == |items|
    && forall i :: 0 <= i < |items| ==> planned[i] == PlanItem(items[i])
  }

  /** The planner's frame count is the length of the stream the cursor will emit. */
  lemma {:induction false} StreamCounts(items: seq<SemanticItem>, plan: Plan, from: nat)
    requires ItemsOk(plan.items) && IsPlanOf(plan.items, items) && from <= |items|
    ensures |StreamFrom(plan, from)| == FramesUpTo(items, |items|) - FramesUpTo(items, from) + 1
    decreases |items| - from
  {
    if from < |items| {
      StreamCounts(items, plan, from + 1);
      ItemCounts(items[from], from + 1);
    }
  }

  lemma ItemCounts(item: SemanticItem, itemId: nat)
    requires ItemOk(PlanItem(item))
    ensures |ItemFrames(PlanItem(item), itemId)| == FramesOf(item)
  {}
}
