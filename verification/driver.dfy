/**
 * The driver loop: steps the machine while input is buffered and a step
 * makes progress, and the feed operation that appends input first.
 */
module Driver {
  import opened Options
  import opened Bytes
  import opened Png
  import opened Machine

  /** One turn of the driver loop for the current phase. */
  function Step(p: Splitter): (t: Transition)
  {
    match p.phase
    case AwaitSignature => ReadSignature(p)
    case AwaitHeader =>
      var t := ReadChunkHeader(p);
      Transition(t.next.(lastChunk := t.next.chunk), t.events)
    case InChunk => ReadChunk(p)
    case AwaitCrc => CrcTurn(p)
    case Failed(_) => Transition(p, [])
  }

  /**
   * Orders the moves that consume no input: a header turn that only copies
   * the cursor's tag, a finished body moving to its CRC, and any fault.
   */
  function Rank(p: Splitter): (n: nat)
  {
    match p.phase
    case Failed(_) => 0
    case AwaitCrc => 1
    case AwaitHeader => if p.lastChunk == p.chunk then 2 else 3
    case _ => 2
  }

  /** Every step that changes the state consumes input or lowers the rank. */
  lemma StepProgress(p: Splitter)
    requires |p.buffer| > 0
    ensures var q := Step(p).next;
      |q.buffer| <= |p.buffer| &&
      (q != p ==> |q.buffer| < |p.buffer| || Rank(q) < Rank(p))
    ensures Step(p).next == p ==> Step(p).events == []
  {
    match p.phase
    case InChunk => ChunkProgress(p);
    case _ =>
  }

  /** The chunk-body step either waits unchanged, consumes input, or moves to a lower rank. */
  lemma ChunkProgress(p: Splitter)
    requires p.phase == InChunk && |p.buffer| > 0
    ensures var q := ReadChunk(p).next;
      |q.buffer| <= |p.buffer| &&
      (q != p ==> |q.buffer| < |p.buffer| || Rank(q) < Rank(p))
    ensures ReadChunk(p).next == p ==> ReadChunk(p).events == []
  {
    InvokeOk(HandlerFor(p.chunk), p);
    SettleProgress(p, Dispatch(p));
  }

  /** Settling a handler's outcome keeps the progress measure honest. */
  lemma SettleProgress(p: Splitter, h: Handled)
    requires p.phase == InChunk && |p.buffer| > 0 && HandlerOk(p, h)
    ensures var q := Settle(h).next;
      |q.buffer| <= |p.buffer| &&
      (q != p ==> |q.buffer| < |p.buffer| || Rank(q) < Rank(p))
    ensures Settle(h).next == p ==> Settle(h).events == []
  {
    if h.Took? {
      SettleTookProgress(p, h);
    }
  }

  /** The `Took` half of `SettleProgress`. */
  lemma SettleTookProgress(p: Splitter, h: Handled)
    requires p.phase == InChunk && |p.buffer| > 0 && HandlerOk(p, h) && h.Took?
    ensures var q := Settle(h).next;
      |q.buffer| <= |p.buffer| &&
      (q != p ==> |q.buffer| < |p.buffer| || Rank(q) < Rank(p))
    ensures Settle(h).next == p ==> Settle(h).events == []
  {
    var k, s, ev := h.count, h.after, h.events;
    var q := Consume(s, k).(consumed := s.consumed + k);
    var t := Settle(h);
    assert |q.buffer| == |s.buffer| - k && |t.next.buffer| == |q.buffer|;
    if k == 0 && |s.buffer| == |p.buffer| {
      assert q.consumed == p.consumed && q.chunkSize == p.chunkSize;
      if q.consumed < q.chunkSize {
        assert s == p && ev == [];
        assert q == s;
      } else {
        assert t.next.phase != InChunk;
      }
    }
  }

  /** Inside a chunk body, a turn settles what the selected handler took. */
  lemma ChunkTurnIsSettle(p: Splitter)
    requires p.phase == InChunk
    ensures Step(p) == Settle(Dispatch(p))
  {
  }

  /** A chunk turn runs the handler its tag selects. */
  lemma TurnOf(p: Splitter, x: Handler)
    requires p.phase == InChunk && HandlerFor(p.chunk) == x
    ensures Step(p) == Settle(Invoke(x, p))
  {
    ChunkTurnIsSettle(p);
  }

  /**
   * Runs the machine to its resting point. Where the source loops forever on a
   * step that cannot progress, the model stops.
   */
  function Run(p: Splitter): (t: Transition)
    decreases |p.buffer|, Rank(p)
  {
    if |p.buffer| == 0 then Transition(p, [])
    else
      var t := Step(p);
      if t.next == p then Transition(p, [])
      else
        StepProgress(p);
        var r := Run(t.next);
        Transition(r.next, t.events + r.events)
  }

  /** Appends input to both the buffer and the image accumulator. */
  function Append(p: Splitter, data: seq<byte>): (q: Splitter)
  {
    p.(buffer := p.buffer + data, image := p.image + data)
  }

  /** One write to the stream: append the bytes, then run the machine. */
  function Feed(p: Splitter, data: seq<byte>): (t: Transition)
  {
    Run(Append(p, data))
  }

  /** Several writes in order, collecting every event. */
  function FeedAll(p: Splitter, writes: seq<seq<byte>>): (t: Transition)
    decreases |writes|
  {
    if |writes| == 0 then Transition(p, [])
    else
      var t := Feed(p, writes[0]);
      var r := FeedAll(t.next, writes[1..]);
      Transition(r.next, t.events + r.events)
  }
}
