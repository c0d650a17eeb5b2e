/** The planner as the program runs it, and what a plan it returns is worth. */
module Planner {
  import opened Wire
  import opened SuccessStream
  import opened Preflight

  datatype Planning = Planned(plan: Plan) | Refused(error: PlanError)

  /** The request's context: it reports an error from its `lifetime`-th check on, if it has a lifetime. */
  class Context {
    const lifetime: Option<nat>
    var checks: nat

    constructor (lifetime: Option<nat>)
      ensures this.lifetime == lifetime && checks == 0
    {
      this.lifetime, checks := lifetime, 0;
    }

    method Err() returns (ended: bool)
      modifies this
      ensures checks == old(checks) + 1
      ensures ended <==> lifetime.Some? && lifetime.value <= old(checks)
    {
      ended := lifetime.Some? && lifetime.value <= checks;
      checks := checks + 1;
    }

    /** One of the checks so far reported the end. */
    predicate Ended()
      reads this
    {
      lifetime.Some? && lifetime.value < checks
    }
  }

  ghost predicate FramesFit(item: PlannedItem)
    requires ItemOk(item)
  {
    forall k :: 0 <= k < |ItemFrames(item, MAX_SAFE_INTEGER)| ==> PreflightOk(ItemFrames(item, MAX_SAFE_INTEGER)[k])
  }

  ghost predicate ChunkWasSized(item: PlannedItem, index: nat)
    requires ItemOk(item) && item.fragmented && index < item.chunks
  {
    ChunkBounds(item, index);
    PreflightOk(ItemChunk(MAX_SAFE_INTEGER, index, ChunkData(item.payload, index)))
  }

  lemma SizedFramesFit(item: PlannedItem)
    requires ItemOk(item) && item.fragmented
    ensures FramesFit(item) <==>
            && PreflightOk(ItemBegin(MAX_SAFE_INTEGER, item.kind, |item.payload|))
            && (forall k :: 0 <= k < item.chunks ==> ChunkWasSized(item, k))
            && PreflightOk(ItemEnd(MAX_SAFE_INTEGER, item.chunks, item.digest))
  {
    var frames := ItemFrames(item, MAX_SAFE_INTEGER);
    assert frames[0] == ItemBegin(MAX_SAFE_INTEGER, item.kind, |item.payload|);
    assert frames[item.chunks + 1] == ItemEnd(MAX_SAFE_INTEGER, item.chunks, item.digest);
    forall k | 0 <= k < item.chunks
      ensures PreflightOk(frames[k + 1]) <==> ChunkWasSized(item, k)
    {
      ChunkBounds(item, k);
      assert frames[k + 1] == ItemChunk(MAX_SAFE_INTEGER, k, ChunkData(item.payload, k));
    }
    if FramesFit(item) {
      forall k | 0 <= k < item.chunks
        ensures ChunkWasSized(item, k)
      {
        assert PreflightOk(frames[k + 1]);
      }
    } else {
      var k :| 0 <= k < |frames| && !PreflightOk(frames[k]);
      if 1 <= k <= item.chunks {
        assert !ChunkWasSized(item, k - 1);
      }
    }
  }

  /** Sizes every fragment of an item under the largest ids. */
  method PreflightFragments(context: Context, item: PlannedItem) returns (error: Option<PlanError>)
    requires ItemOk(item) && item.fragmented
    modifies context
    ensures error.None? ==> FramesFit(item)
    ensures error == Some(BadData) ==> !FramesFit(item)
    ensures error == Some(Interrupted) ==> context.Ended()
    ensures !old(context.Ended()) && context.Ended() ==> error == Some(Interrupted)
    ensures old(context.checks) <= context.checks
    ensures error.None? || error.value.BadData? || error.value.Interrupted?
  {
    SizedFramesFit(item);
    var begin := ItemBegin(MAX_SAFE_INTEGER, item.kind, |item.payload|);
    if !Marshal(MAX_SAFE_INTEGER, MAX_SAFE_INTEGER, begin).Fits? {
      return Some(BadData);
    }
    error := PreflightChunks(context, item);
    if error.Some? {
      return;
    }
    var end := ItemEnd(MAX_SAFE_INTEGER, item.chunks, item.digest);
    if !Marshal(MAX_SAFE_INTEGER, MAX_SAFE_INTEGER, end).Fits? {
      return Some(BadData);
    }
    return None;
  }

  /** Sizes every chunk of an item. */
  method PreflightChunks(context: Context, item: PlannedItem) returns (error: Option<PlanError>)
    requires ItemOk(item) && item.fragmented
    modifies context
    ensures error.None? ==> forall k :: 0 <= k < item.chunks ==> ChunkWasSized(item, k)
    ensures error == Some(BadData) ==> exists k :: 0 <= k < item.chunks && !ChunkWasSized(item, k)
    ensures error == Some(Interrupted) ==> context.Ended()
    ensures !old(context.Ended()) && context.Ended() ==> error == Some(Interrupted)
    ensures old(context.checks) <= context.checks
    ensures error.None? || error.value.BadData? || error.value.Interrupted?
  {
    var index := 0;
    while index < item.chunks
      invariant index <= item.chunks && old(context.checks) <= context.checks
      invariant !old(context.Ended()) ==> !context.Ended()
      invariant forall k :: 0 <= k < index ==> ChunkWasSized(item, k)
    {
      var ended := context.Err();
      if ended {
        return Some(Interrupted);
      }
      ChunkBounds(item, index);
      var chunk := ItemChunk(MAX_SAFE_INTEGER, index, ChunkData(item.payload, index));
      if !Marshal(MAX_SAFE_INTEGER, MAX_SAFE_INTEGER, chunk).Fits? {
        assert !ChunkWasSized(item, index);
        return Some(BadData);
      }
      index := index + 1;
    }
    return None;
  }

  /** The checked addition of a plan's frame count. */
  function AddPlanFrames(frameCount: nat, count: nat): (sum: Option<nat>)
    ensures sum == if frameCount + count > MAX_SAFE_INTEGER then None else Some(frameCount + count)
  {
    if count > MAX_SAFE_INTEGER || frameCount > MAX_SAFE_INTEGER - count then None else Some(frameCount + count)
  }

  /** Every frame of the plan passed preflight under maximal ids. */
  ghost predicate Deliverable(plan: Plan)
    requires ItemsOk(plan.items)
  {
    && PreflightOk(Completed(plan.result))
    && forall i :: 0 <= i < |plan.items| ==> FramesFit(plan.items[i])
  }

  predicate TooLargeItem(item: SemanticItem, aggregate: int) {
    MarshalPayload(item).TooLarge? || (MarshalPayload(item).Fits? && |item.value.json| > aggregate)
  }

  predicate InvalidItem(item: SemanticItem) { MarshalPayload(item).Invalid? }

  function CompletionVerdict(result: Value): Verdict { Marshal(MAX_SAFE_INTEGER, MAX_SAFE_INTEGER, Completed(result)) }

  ghost predicate WellPlanned(item: SemanticItem, aggregate: int, planned: PlannedItem) {
    AdmitsItem(item, aggregate) && planned == PlanItem(item) && ItemOk(planned) && FramesFit(planned)
  }

  datatype ItemPlanning = ItemPlanned(item: PlannedItem, frames: nat) | ItemRefused(error: PlanError)

  /** One round of the planner's loop, up to the frame count. */
  method PreflightItem(context: Context, item: SemanticItem, aggregate: int) returns (planning: ItemPlanning)
    modifies context
    ensures planning.ItemPlanned? ==>
              WellPlanned(item, aggregate, planning.item) && planning.frames == FramesOf(item)
    ensures planning == ItemRefused(Interrupted) ==> context.Ended()
    ensures !old(context.Ended()) && context.Ended() ==> planning == ItemRefused(Interrupted)
    ensures old(context.checks) <= context.checks
    ensures planning == ItemRefused(ResponseTooLarge) ==> TooLargeItem(item, aggregate)
    ensures planning == ItemRefused(BadData) ==> InvalidItem(item)
  {
    var ended := context.Err();
    if ended {
      return ItemRefused(Interrupted);
    }
    var payload := MarshalPayload(item);
    if !payload.Fits? {
      return ItemRefused(if payload.TooLarge? then ResponseTooLarge else BadData);
    }
    if |item.value.json| > aggregate {
      return ItemRefused(ResponseTooLarge);
    }
    var inline := Marshal(MAX_SAFE_INTEGER, MAX_SAFE_INTEGER, Item(item.kind, item.value));
    if inline.Fits? {
      var planned := PlannedItem(item.kind, item.value, false, "", 0, Sha256(""));
      return ItemPlanned(planned, 1);
    }
    LongPayload(item);
    FragmentsFit(item, aggregate);
    if !inline.TooLarge? {
      return ItemRefused(BadData);
    }
    var chunks := ChunkCount(item.value.json);
    if chunks < 1 || chunks > MAX_CHUNKS {
      return ItemRefused(ResponseTooLarge);
    }
    var fragmented := PlannedItem(item.kind, item.value, true, item.value.json, chunks, Sha256(item.value.json));
    var error := PreflightFragments(context, fragmented);
    if error.Some? {
      return ItemRefused(error.value);
    }
    return ItemPlanned(fragmented, chunks + 2);
  }

  /** The planner's loop invariant: `planned` plans the items it covers, and they were all admitted. */
  ghost predicate Progress(items: seq<SemanticItem>, aggregate: int, planned: seq<PlannedItem>, frameCount: nat) {
    && |planned| <= |items| && AllPlanned(items, aggregate, planned)
    && frameCount == FramesUpTo(items, |planned|) <= MAX_SAFE_INTEGER
  }

  ghost predicate AllPlanned(items: seq<SemanticItem>, aggregate: int, planned: seq<PlannedItem>)
    requires |planned| <= |items|
  {
    forall k :: 0 <= k < |planned| ==> WellPlanned(items[k], aggregate, planned[k])
  }

  lemma PlannedGrows(items: seq<SemanticItem>, aggregate: int, planned: seq<PlannedItem>, next: PlannedItem)
    requires |planned| < |items| && AllPlanned(items, aggregate, planned)
    requires WellPlanned(items[|planned|], aggregate, next)
    ensures AllPlanned(items, aggregate, planned + [next])
  {
    var longer := planned + [next];
    assert longer[|planned|] == next;
    assert forall k :: 0 <= k < |planned| ==> longer[k] == planned[k];
  }

  lemma ProgressStep(items: seq<SemanticItem>, aggregate: int, planned: seq<PlannedItem>, frameCount: nat,
                     next: PlannedItem)
    requires Progress(items, aggregate, planned, frameCount) && |planned| < |items|
    requires WellPlanned(items[|planned|], aggregate, next)
    ensures frameCount + FramesOf(items[|planned|]) <= MAX_SAFE_INTEGER ==>
              Progress(items, aggregate, planned + [next], frameCount + FramesOf(items[|planned|]))
    ensures frameCount + FramesOf(items[|planned|]) > MAX_SAFE_INTEGER ==>
              FramesUpTo(items, |items|) > MAX_SAFE_INTEGER
  {
    FramesStep(items, |planned|);
    ProgressBy(items, aggregate, planned, frameCount, next, FramesOf(items[|planned|]));
  }

  lemma ProgressBy(items: seq<SemanticItem>, aggregate: int, planned: seq<PlannedItem>, frameCount: nat,
                   next: PlannedItem, frames: nat)
    requires Progress(items, aggregate, planned, frameCount) && |planned| < |items|
    requires WellPlanned(items[|planned|], aggregate, next)
    requires FramesUpTo(items, |planned| + 1) == frameCount + frames <= FramesUpTo(items, |items|)
    ensures frameCount + frames <= MAX_SAFE_INTEGER ==>
              Progress(items, aggregate, planned + [next], frameCount + frames)
    ensures frameCount + frames > MAX_SAFE_INTEGER ==> FramesUpTo(items, |items|) > MAX_SAFE_INTEGER
  {
    PlannedGrows(items, aggregate, planned, next);
    assert |planned + [next]| == |planned| + 1;
  }

  lemma FramesStep(items: seq<SemanticItem>, n: nat)
    requires n < |items|
    ensures FramesUpTo(items, n + 1) == FramesUpTo(items, n) + FramesOf(items[n])
    ensures FramesUpTo(items, n + 1) <= FramesUpTo(items, |items|)
  {
    FramesGrow(items, n + 1, |items|);
  }

  lemma ProgressEnds(items: seq<SemanticItem>, aggregate: int, plan: Plan)
    requires Progress(items, aggregate, plan.items, plan.frameCount) && |plan.items| == |items|
    requires CompletionVerdict(plan.result).Fits?
    ensures Admissible(items, plan.result, aggregate) && IsPlanOf(plan.items, items) && PlanOk(plan)
        && Deliverable(plan)
  {
    StreamCounts(items, plan, 0);
  }

  /**
    Plans a success before it is committed.  `dataValid` is the outcome of the checks that tie the
    data to the request.  With a context that does not end, a plan is returned exactly for a valid
    limit and admissible data; whatever the context does, a returned plan is sound.
  */
  method PreflightSuccess(context: Context, dataValid: bool, items: seq<SemanticItem>, result: Value, aggregate: int)
    returns (planning: Planning)
    modifies context
    ensures planning.Planned? ==>
              IsPlanOf(planning.plan.items, items) && planning.plan.result == result
              && PlanOk(planning.plan) && Deliverable(planning.plan)
    ensures planning.Planned? ==>
              0 < aggregate <= AGGREGATE_ITEM_BYTES && dataValid && Admissible(items, result, aggregate)
    ensures context.lifetime.None? && 0 < aggregate <= AGGREGATE_ITEM_BYTES && dataValid
            && Admissible(items, result, aggregate)
            ==> planning.Planned?
    ensures planning == Refused(Interrupted) ==> context.Ended()
    ensures !old(context.Ended()) && context.Ended() ==> planning == Refused(Interrupted)
    ensures planning == Refused(ResponseTooLarge) ==>
              || CompletionVerdict(result).TooLarge?
              || (exists i :: 0 <= i < |items| && TooLargeItem(items[i], aggregate))
              || FramesUpTo(items, |items|) > MAX_SAFE_INTEGER
    ensures planning == Refused(BadData) ==>
              || aggregate <= 0 || aggregate > AGGREGATE_ITEM_BYTES || !dataValid
              || CompletionVerdict(result).Invalid?
              || exists i :: 0 <= i < |items| && InvalidItem(items[i])
  {
    if aggregate <= 0 || aggregate > AGGREGATE_ITEM_BYTES || !dataValid {
      return Refused(BadData);
    }
    var completion := CompletionVerdict(result);
    if !completion.Fits? {
      return Refused(if completion.TooLarge? then ResponseTooLarge else BadData);
    }
    var planned: seq<PlannedItem>, frameCount: nat := [], 1;
    var i := 0;
    while i < |items|
      invariant i == |planned| <= |items|
      invariant Progress(items, aggregate, planned, frameCount)
      invariant !old(context.Ended()) ==> !context.Ended()
    {
      var planning := PreflightItem(context, items[i], aggregate);
      if planning.ItemRefused? {
        assert planning.error.ResponseTooLarge? ==> TooLargeItem(items[i], aggregate);
        assert planning.error.BadData? ==> InvalidItem(items[i]);
        return Refused(planning.error);
      }
      ProgressStep(items, aggregate, planned, frameCount, planning.item);
      var sum := AddPlanFrames(frameCount, planning.frames);
      if sum.None? {
        return Refused(ResponseTooLarge);
      }
      planned, frameCount := planned + [planning.item], sum.value;
      i := i + 1;
    }
    var plan := Plan(planned, result, frameCount);
    ProgressEnds(items, aggregate, plan);
    return Planned(plan);
  }

  // ---------------------------------------------------------------- a planned stream can be written

  lemma MaximalItemFrame(item: PlannedItem, itemId: nat, k: nat)
    requires ItemOk(item) && k < |ItemFrames(item, itemId)|
    ensures WithMaximalIds(ItemFrames(item, itemId)[k]) == WithMaximalIds(ItemFrames(item, MAX_SAFE_INTEGER)[k])
  {}

  lemma {:induction false} StreamFrameFits(plan: Plan, from: nat, k: nat)
    requires ItemsOk(plan.items) && Deliverable(plan) && |plan.items| <= MAX_SAFE_INTEGER
    requires from <= |plan.items| && k < |StreamFrom(plan, from)|
    ensures PreflightOk(StreamFrom(plan, from)[k]) && ItemIdOk(StreamFrom(plan, from)[k])
    decreases |plan.items| - from
  {
    if from < |plan.items| {
      var frames := ItemFrames(plan.items[from], from + 1);
      if k < |frames| {
        assert FramesFit(plan.items[from]);
        MaximalItemFrame(plan.items[from], from + 1, k);
      } else {
        StreamFrameFits(plan, from + 1, k - |frames|);
      }
    }
  }

  /** Once a plan is returned, whatever request id and sequence numbers its frames get, each one is
      valid and within the frame limit: nothing can fail after the commit. */
  lemma PlannedStreamCanBeWritten(plan: Plan, id: nat, sequence: nat, k: nat)
    requires PlanOk(plan) && Deliverable(plan)
    requires Positive(id) && Positive(sequence) && k < plan.frameCount
    ensures Marshal(id, sequence, Stream(plan)[k]).Fits?
  {
    ItemsWithinFrameCount(plan, |plan.items|);
    StreamFrameFits(plan, 0, k);
    PreflightedFrameFits(id, sequence, Stream(plan)[k]);
  }
}
