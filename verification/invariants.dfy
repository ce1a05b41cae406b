/**
 * What every reachable splitter keeps: the accounting between the input
 * buffer and the image accumulator, the chunk cursor bound, and the
 * conservation of input bytes across emitted images.
 */
module Invariants {
  import opened Options
  import opened Bytes
  import opened Png
  import opened Machine
  import opened Driver

  /** The bytes of every emitted image, concatenated in emission order. */
  function Images(events: seq<Event>): (r: seq<byte>)
  {
    if |events| == 0 then []
    else (if events[0].ImageOut? then events[0].bytes else []) + Images(events[1..])
  }

  lemma ImagesAppend(a: seq<Event>, b: seq<Event>)
    ensures Images(a + b) == Images(a) + Images(b)
  {
    if |a| == 0 {
      assert a + b == b;
    } else {
      assert (a + b)[1..] == a[1..] + b;
      ImagesAppend(a[1..], b);
    }
  }

  /** A fresh splitter satisfies the invariant. */
  lemma InitGood(indexed: bool)
    ensures Good(Init(indexed))
  {
  }

  /** Appending input to both sequences keeps the invariant. */
  lemma AppendKeepsGood(p: Splitter, data: seq<byte>)
    requires Good(p)
    ensures Good(Append(p, data))
  {
    var q := Append(p, data);
    assert q.image[q.imageLength..] == p.image[p.imageLength..] + data;
    if p.imageLength >= 8 {
      assert q.image[..8] == p.image[..8];
    }
  }

  /** The state a handler leaves behind is still accounted for. */
  lemma HandlerKeepsAccounted(p: Splitter, s: Splitter)
    requires Accounted(p) && HandlerFrame(p, s)
    ensures Accounted(s)
  {
    var d := |p.buffer| - |s.buffer|;
    assert s.image[s.imageLength..] == p.image[p.imageLength..][d..];
  }

  /** Settling a handler's outcome keeps the invariant. */
  lemma SettleKeepsGood(p: Splitter, h: Handled)
    requires Good(p) && p.phase == InChunk && HandlerOk(p, h)
    requires WholeBody(HandlerFor(p.chunk)) && h.Took? ==>
      h.after.buffer == p.buffer && (h.count == 0 || h.count == p.chunkSize)
    ensures Good(Settle(h).next)
  {
    HandlerKeepsAccounted(p, h.after);
  }

  /** A handler that needs the whole body takes either nothing or all of it. */
  lemma WholeBodyAllOrNothing(p: Splitter)
    requires p.phase == InChunk && WholeBody(HandlerFor(p.chunk))
    ensures Dispatch(p).Took? ==>
      Dispatch(p).after.buffer == p.buffer && (Dispatch(p).count == 0 || Dispatch(p).count == p.chunkSize)
  {
  }

  /** The signature step keeps the invariant. */
  lemma SignatureKeepsGood(p: Splitter)
    requires Good(p) && p.phase == AwaitSignature
    ensures Good(ReadSignature(p).next)
  {
    if |p.buffer| >= 8 && p.buffer[..8] == SIGNATURE {
      assert p.image == p.buffer;
    }
  }

  /** The CRC turn keeps the invariant, including the emission of an image. */
  lemma CrcKeepsGood(p: Splitter)
    requires Good(p) && p.phase == AwaitCrc
    ensures Good(CrcTurn(p).next)
  {
    var t := ReadCrc(p);
    if |p.buffer| >= 4 && p.lastChunk == Some(IEND) {
      var n := t.next.imageLength;
      assert Accounted(t.next);
      assert t.next.image[n..] == t.next.buffer;
    }
  }

  /** Every step keeps the invariant. */
  lemma StepKeepsGood(p: Splitter)
    requires Good(p)
    ensures Good(Step(p).next)
  {
    match p.phase
    case AwaitSignature => SignatureKeepsGood(p);
    case AwaitHeader =>
    case InChunk =>
      if WholeBody(HandlerFor(p.chunk)) {
        WholeBodyAllOrNothing(p);
      }
      InvokeOk(HandlerFor(p.chunk), p);
      SettleKeepsGood(p, Dispatch(p));
    case AwaitCrc => CrcKeepsGood(p);
    case Failed(_) =>
  }

  /** Running the machine keeps the invariant. */
  lemma {:induction false} RunKeepsGood(p: Splitter)
    requires Good(p)
    ensures Good(Run(p).next)
    decreases |p.buffer|, Rank(p)
  {
    if |p.buffer| > 0 && Step(p).next != p {
      StepProgress(p);
      StepKeepsGood(p);
      RunKeepsGood(Step(p).next);
    }
  }

  /**
   * After every write the accumulator holds exactly the consumed image bytes
   * followed by the unconsumed input.
   */
  lemma FeedKeepsGood(p: Splitter, data: seq<byte>)
    requires Good(p)
    ensures Good(Feed(p, data).next)
    ensures |Feed(p, data).next.image| == Feed(p, data).next.imageLength + |Feed(p, data).next.buffer|
  {
    AppendKeepsGood(p, data);
    RunKeepsGood(Append(p, data));
  }

  /** A step never loses or invents bytes: emitted images followed by the accumulator are unchanged. */
  lemma StepConserves(p: Splitter)
    ensures Images(Step(p).events) + Step(p).next.image == p.image
  {
    match p.phase
    case AwaitSignature =>
    case AwaitHeader =>
    case InChunk =>
      InvokeOk(HandlerFor(p.chunk), p);
      SettleConserves(Dispatch(p), p);
    case AwaitCrc =>
      if |p.buffer| >= 4 && p.lastChunk == Some(IEND) {
        var s := ReadCrc(p).next;
        var n := if s.imageLength <= |s.image| then s.imageLength else |s.image|;
        assert Images([ImageOut(s.image[..n])]) == s.image[..n];
        assert s.image[..n] + s.image[n..] == s.image;
      }
    case Failed(_) =>
  }

  /** Settling a handler's outcome emits no image and keeps the accumulator. */
  lemma SettleConserves(h: Handled, p: Splitter)
    requires HandlerOk(p, h)
    ensures Images(Settle(h).events) == [] && Settle(h).next.image == p.image
  {
    match h
    case Refused(s, f) =>
      assert Images([ErrorOut(f)]) == [];
    case Took(k, s, ev) =>
      NoImagesFromHandler(p, h);
      ImagesAppend(ev, [ErrorOut(BadChunkSize)]);
      assert Images([ErrorOut(BadChunkSize)]) == [];
  }

  /** Handlers emit format, metadata and frame events, never images. */
  lemma NoImagesFromHandler(p: Splitter, h: Handled)
    requires HandlerOk(p, h) && h.Took?
    ensures Images(h.events) == []
  {
    NoImagesIn(h.events);
  }

  lemma {:induction false} NoImagesIn(events: seq<Event>)
    requires ImageFree(events)
    ensures Images(events) == []
  {
    if |events| > 0 {
      NoImagesIn(events[1..]);
    }
  }

  /**
   * Running the machine conserves bytes: the images it emits, followed by
   * what stays in the accumulator, are the accumulator it started with.
   */
  lemma {:induction false} RunConserves(p: Splitter)
    ensures Images(Run(p).events) + Run(p).next.image == p.image
    decreases |p.buffer|, Rank(p)
  {
    if |p.buffer| > 0 && Step(p).next != p {
      var t := Step(p);
      StepProgress(p);
      StepConserves(p);
      RunConserves(t.next);
      ImagesAppend(t.events, Run(t.next).events);
    }
  }

  /** One write conserves bytes: its images and the accumulator are the old accumulator plus the write. */
  lemma FeedConserves(p: Splitter, data: seq<byte>)
    ensures Images(Feed(p, data).events) + Feed(p, data).next.image == p.image + data
  {
    RunConserves(Append(p, data));
  }

  /** The concatenation of several writes. */
  function Concat(writes: seq<seq<byte>>): (r: seq<byte>)
  {
    if |writes| == 0 then [] else writes[0] + Concat(writes[1..])
  }

  /**
   * Over any sequence of writes, the emitted images followed by the bytes
   * still accumulated are exactly the input, in order: every image is the
   * next slice of the stream, and nothing is dropped or repeated.
   */
  lemma {:induction false} FeedAllConserves(p: Splitter, writes: seq<seq<byte>>)
    ensures Images(FeedAll(p, writes).events) + FeedAll(p, writes).next.image == p.image + Concat(writes)
    decreases |writes|
  {
    if |writes| > 0 {
      var t := Feed(p, writes[0]);
      var r := FeedAll(t.next, writes[1..]);
      assert FeedAll(p, writes) == Transition(r.next, t.events + r.events);
      assert Concat(writes) == writes[0] + Concat(writes[1..]);
      FeedConserves(p, writes[0]);
      FeedAllConserves(t.next, writes[1..]);
      ImagesAppend(t.events, r.events);
      SplitSum(Images(t.events), Images(r.events), r.next.image, t.next.image, p.image, writes[0], Concat(writes[1..]));
    }
  }

  /** Regrouping of the conservation equations of two consecutive runs. */
  lemma SplitSum<T>(a: seq<T>, b: seq<T>, c: seq<T>, m: seq<T>, x: seq<T>, w: seq<T>, rest: seq<T>)
    requires a + m == x + w && b + c == m + rest
    ensures (a + b) + c == x + (w + rest)
  {
    calc {
      (a + b) + c;
      a + (b + c);
      a + (m + rest);
      (a + m) + rest;
      (x + w) + rest;
    }
  }

  /** Every reachable state keeps the invariant, whatever the writes. */
  lemma {:induction false} FeedAllKeepsGood(p: Splitter, writes: seq<seq<byte>>)
    requires Good(p)
    ensures Good(FeedAll(p, writes).next)
    decreases |writes|
  {
    if |writes| > 0 {
      FeedKeepsGood(p, writes[0]);
      FeedAllKeepsGood(Feed(p, writes[0]).next, writes[1..]);
    }
  }
}
