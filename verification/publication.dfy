/**
 * The format and metadata are published once per splitter, just before
 * the first image data, and never again: `sawIDAT` is never cleared.
 */
module Publication {
  import opened Options
  import opened Bytes
  import opened Png
  import opened Machine
  import opened Driver

  lemma CountFormatsAppend(a: seq<Event>, b: seq<Event>)
    ensures CountFormats(a + b) == CountFormats(a) + CountFormats(b)
  {
    if |a| == 0 {
      assert a + b == b;
    } else {
      assert (a + b)[1..] == a[1..] + b;
      CountFormatsAppend(a[1..], b);
    }
  }

  /** The format-publication accounting of one settled handler outcome. */
  lemma SettlePublishes(p: Splitter, h: Handled)
    requires p.phase == InChunk && HandlerOk(p, h) && PublishesOnce(p, h)
    ensures p.sawIDAT ==> Settle(h).next.sawIDAT
    ensures CountFormats(Settle(h).events) == (if !p.sawIDAT && Settle(h).next.sawIDAT then 1 else 0)
    ensures CountFormats(Settle(h).events) > 0 ==>
      |Settle(h).events| >= 2 && Settle(h).events[..2] == [FormatOut(p.format), MetaOut(p.meta)]
  {
    assert CountFormats([ErrorOut(BadChunkSize)]) == 0;
    match h
    case Refused(s, f) =>
      assert CountFormats([ErrorOut(f)]) == 0;
    case Took(k, s, ev) =>
      CountFormatsAppend(ev, [ErrorOut(BadChunkSize)]);
  }

  /**
   * One turn publishes the format at most once: exactly when it sets
   * `sawIDAT`, and then as the format followed by the metadata before
   * anything else. A set `sawIDAT` stays set.
   */
  lemma StepPublishes(p: Splitter)
    ensures p.sawIDAT ==> Step(p).next.sawIDAT
    ensures CountFormats(Step(p).events) == (if !p.sawIDAT && Step(p).next.sawIDAT then 1 else 0)
    ensures CountFormats(Step(p).events) > 0 ==>
      |Step(p).events| >= 2 && Step(p).events[..2] == [FormatOut(p.format), MetaOut(p.meta)]
  {
    match p.phase
    case InChunk =>
      ChunkTurnIsSettle(p);
      InvokeOk(HandlerFor(p.chunk), p);
      SettlePublishes(p, Dispatch(p));
    case AwaitSignature =>
      assert CountFormats([ErrorOut(InvalidSignature)]) == 0;
    case AwaitCrc =>
      var s := ReadCrc(p).next;
      assert forall b :: CountFormats([ImageOut(b)]) == 0;
    case _ =>
  }

  /**
   * A whole run publishes the format once exactly when it sets `sawIDAT`,
   * and never when `sawIDAT` was already set.
   */
  lemma {:induction false} RunPublishes(p: Splitter)
    ensures p.sawIDAT ==> Run(p).next.sawIDAT
    ensures CountFormats(Run(p).events) == (if !p.sawIDAT && Run(p).next.sawIDAT then 1 else 0)
    decreases |p.buffer|, Rank(p)
  {
    if |p.buffer| > 0 && Step(p).next != p {
      var t := Step(p);
      StepProgress(p);
      StepPublishes(p);
      RunPublishes(t.next);
      CountFormatsAppend(t.events, Run(t.next).events);
    }
  }

  /** The same accounting over any sequence of writes. */
  lemma {:induction false} FeedAllPublishes(p: Splitter, writes: seq<seq<byte>>)
    ensures p.sawIDAT ==> FeedAll(p, writes).next.sawIDAT
    ensures CountFormats(FeedAll(p, writes).events) == (if !p.sawIDAT && FeedAll(p, writes).next.sawIDAT then 1 else 0)
    decreases |writes|
  {
    if |writes| > 0 {
      var t := Feed(p, writes[0]);
      var r := FeedAll(t.next, writes[1..]);
      assert FeedAll(p, writes) == Transition(r.next, t.events + r.events);
      RunPublishes(Append(p, writes[0]));
      FeedAllPublishes(t.next, writes[1..]);
      CountFormatsAppend(t.events, r.events);
    }
  }

  /**
   * A splitter publishes its format at most once in its whole life, however
   * many images pass through it; later images publish nothing.
   */
  lemma FormatAtMostOnce(indexed: bool, writes: seq<seq<byte>>)
    ensures CountFormats(FeedAll(Init(indexed), writes).events) <= 1
    ensures CountFormats(FeedAll(Init(indexed), writes).events) == 1 <==> FeedAll(Init(indexed), writes).next.sawIDAT
  {
    FeedAllPublishes(Init(indexed), writes);
  }
}
