/** The coordinator's view of a committed stream as a count is exact for the real cursor. */
module SuccessCounts {
  import Session
  import opened SuccessStream

  ghost function Counter(c: Cursor): Session.Cursor
    requires Good(c)
  {
    RestFits(c);
    Session.Cursor(c.plan.frameCount, c.plan.frameCount - |Rest(c)|)
  }

  lemma RestFits(c: Cursor)
    requires Good(c)
    ensures |Rest(c)| <= c.plan.frameCount
  {
    ItemsWithinFrameCount(c.plan, c.itemIndex);
    if c.itemIndex < |c.plan.items| {
      assert ItemOk(c.plan.items[c.itemIndex]);
    }
  }

  /** A new cursor counts from zero, and each call of the cursor is one step of the count: same
      failure, same terminal, same cursor after it. */
  lemma CursorCounts(c: Cursor)
    requires Good(c)
    ensures Counter(NewCursor(c.plan)) == Session.Cursor(c.plan.frameCount, 0)
    ensures Session.NextEmission(Counter(c)).Emitted? <==> Next(c).Emitted?
    ensures Next(c).Emitted? ==>
              && Good(Next(c).cursor)
              && Session.NextEmission(Counter(c)) == Session.Emitted(Counter(Next(c).cursor), Next(c).terminal)
  {
    NewCursorIsGood(c.plan);
    RestFits(c);
    if Rest(c) != [] {
      NextEmitsRest(c);
      assert Rest(c)[1..] == Rest(Next(c).cursor);
    }
  }
}
