/** The success cursor as the object it is in the program. */
module SuccessCursor {
  import opened Wire
  import opened SuccessStream

  class Streamer {
    const plan: Plan
    var itemIndex: nat
    var phase: nat
    var chunkIndex: nat
    var hashed: Bytes
    var completed: bool

    function Value(): Cursor
      reads this
    {
      Cursor(plan, itemIndex, phase, chunkIndex, hashed, completed)
    }

    constructor (plan: Plan)
      ensures Value() == NewCursor(plan)
    {
      this.plan := plan;
      itemIndex, phase, chunkIndex, hashed, completed := 0, 0, 0, "", false;
    }

    /** The next frame body, or None where the program returns an error. */
    method Advance() returns (body: Option<Body>, terminal: bool)
      modifies this
      ensures Value() == Next(old(Value())).cursor
      ensures body == match Next(old(Value())) case Emitted(_, b, _) => Some(b) case Stuck(_) => None
      ensures body.Some? ==> terminal == Next(old(Value())).terminal
      ensures old(Good(Value())) && old(Rest(Value())) != [] ==>
                && body == Some(old(Rest(Value()))[0])
                && Good(Value()) && Rest(Value()) == old(Rest(Value()))[1..]
                && (terminal <==> Rest(Value()) == [])
    {
      if Good(Value()) && Rest(Value()) != [] {
        NextEmitsRest(Value());
      }
      terminal := false;
      if completed {
        return None, false;
      }
      if itemIndex >= |plan.items| {
        completed := true;
        return Some(Completed(plan.result)), true;
      }
      var item := plan.items[itemIndex];
      if !item.fragmented {
        itemIndex := itemIndex + 1;
        return Some(Item(item.kind, item.value)), false;
      }
      var itemId := itemIndex + 1;
      if !SafeCount(itemId) {
        return None, false;
      }
      if phase == 0 {
        if !SafeCount(|item.payload|) {
          return None, false;
        }
        phase, chunkIndex, hashed := 1, 0, "";
        return Some(ItemBegin(itemId, item.kind, |item.payload|)), false;
      }
      if phase != 1 {
        return None, false;
      }
      if chunkIndex < item.chunks {
        if |item.payload| < chunkIndex * FRAGMENT_CHUNK_BYTES {
          return None, false;
        }
        var data := ChunkData(item.payload, chunkIndex);
        hashed := hashed + data;
        if !SafeCount(chunkIndex) {
          return None, false;
        }
        body := Some(ItemChunk(itemId, chunkIndex, data));
        chunkIndex := chunkIndex + 1;
        return;
      }
      if Sha256(hashed) != item.digest {
        return None, false;
      }
      phase, itemIndex := 0, itemIndex + 1;
      if !SafeCount(item.chunks) {
        return None, false;
      }
      body := Some(ItemEnd(itemId, item.chunks, item.digest));
    }
  }
}
