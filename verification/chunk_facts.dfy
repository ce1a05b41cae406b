/**
 * Properties of the chunk-body turn: how much each handler takes, how the
 * cursor finishes a chunk, and what each named handler records or emits.
 */
module ChunkFacts {
  import opened Options
  import opened Bytes
  import opened Png
  import opened Machine

  /** Every named handler is selected by its own tag, and only by it. */
  lemma DispatchTable(h: Handler, tag: string)
    requires h != OnOther
    ensures HandlerFor(Some(TagOf(h))) == h
    ensures HandlerFor(Some(tag)) == h ==> tag == TagOf(h)
  {
  }

  /** A tag outside the table is skipped. */
  lemma UnknownTagsAreSkipped(tag: string)
    requires tag !in {IHDR, PLTE, TRNS, TEXT, ACTL, FCTL, IDAT, FDAT}
    ensures HandlerFor(Some(tag)) == OnOther
  {
  }

  /**
   * A skipped or image-data body takes `min(buffered, remaining)` bytes. If
   * that reaches the declared length the cursor is cleared and the CRC is
   * next; otherwise everything buffered was taken and the body continues.
   */
  lemma TakesAvailable(p: Splitter, h: Handled)
    requires p.phase == InChunk && p.consumed <= p.chunkSize && HandlerOk(p, h)
    requires h.Took? && h.after.buffer == p.buffer
    requires h.count == Min(|p.buffer|, p.chunkSize - p.consumed)
    ensures var q := Settle(h).next;
      var k := h.count;
      && q.buffer == p.buffer[k..] && q.imageLength == p.imageLength + k
      && Settle(h).events == h.events
      && (p.consumed + k == p.chunkSize ==>
            q.phase == AwaitCrc && q.chunk.None? && q.chunkSize == 0 && q.consumed == 0 && q.lastChunk == p.lastChunk)
      && (p.consumed + k < p.chunkSize ==>
            q.phase == InChunk && q.consumed == p.consumed + k && k == |p.buffer| && q.chunk == p.chunk)
  {
  }

  /** A body with a tag outside the table is skipped, as much as is buffered. */
  lemma SkipTurn(p: Splitter)
    requires p.phase == InChunk && p.consumed <= p.chunkSize
    ensures var t := Settle(Skip(p));
      var k := Min(|p.buffer|, p.chunkSize - p.consumed);
      && t.next.buffer == p.buffer[k..] && t.next.imageLength == p.imageLength + k
      && t.events == []
      && (p.consumed + k == p.chunkSize ==>
            t.next.phase == AwaitCrc && t.next.chunk.None? && t.next.chunkSize == 0 && t.next.consumed == 0)
      && (p.consumed + k < p.chunkSize ==>
            t.next.phase == InChunk && t.next.consumed == p.consumed + k && k == |p.buffer|)
  {
    TakesAvailable(p, Skip(p));
  }

  /**
   * An `IDAT` body is taken like a skipped one. The first image data of the
   * splitter is preceded by the format and then the metadata; later image
   * data emits nothing else.
   */
  lemma IdatTurn(p: Splitter)
    requires p.phase == InChunk && p.consumed <= p.chunkSize
    ensures var t := Settle(ReadIDAT(p));
      var k := Min(|p.buffer|, p.chunkSize - p.consumed);
      && t.next.buffer == p.buffer[k..] && t.next.imageLength == p.imageLength + k
      && t.next.sawIDAT
      && t.events == (if p.sawIDAT then [] else [FormatOut(p.format), MetaOut(p.meta)])
      && (p.consumed + k == p.chunkSize ==>
            t.next.phase == AwaitCrc && t.next.chunk.None? && t.next.chunkSize == 0 && t.next.consumed == 0)
      && (p.consumed + k < p.chunkSize ==>
            t.next.phase == InChunk && t.next.consumed == p.consumed + k && k == |p.buffer|)
  {
    TakesAvailable(p, ReadIDAT(p));
  }

  /** An `fdAT` body with its sequence number dropped and counted into the cursor. */
  function DropNumber(p: Splitter): (s: Splitter)
    requires |p.buffer| >= 4
    ensures s.buffer == p.buffer[4..] && s.imageLength == p.imageLength + 4 && s.consumed == 4
  {
    Consume(p, 4).(consumed := 4)
  }

  /**
   * An `fdAT` body declared empty is too short for its sequence number: it
   * fails with a bad chunk size at once, consuming nothing, whatever is
   * buffered.
   */
  lemma FdatEmpty(p: Splitter)
    requires p.phase == InChunk && p.consumed == 0 && p.chunkSize == 0
    ensures Settle(ReadFDAT(p)) == Transition(p.(phase := Failed(BadChunkSize)), [ErrorOut(BadChunkSize)])
  {
    assert ReadFDAT(p) == Refused(p, BadChunkSize);
  }

  /** At the start of a non-empty `fdAT` body, nothing happens until four bytes are buffered. */
  lemma FdatWaits(p: Splitter)
    requires p.phase == InChunk && p.consumed == 0 && p.chunkSize > 0 && |p.buffer| < 4
    ensures Settle(ReadFDAT(p)) == Transition(p, [])
  {
    assert ReadFDAT(p) == Wait(p);
    assert Consume(p, 0) == p;
  }

  /**
   * Once four bytes are buffered, a non-empty `fdAT` body is image data
   * after its sequence number is dropped.
   */
  lemma FdatDropsNumber(p: Splitter)
    requires p.phase == InChunk && p.consumed == 0 && p.chunkSize > 0 && |p.buffer| >= 4
    ensures ReadFDAT(p) == ReadIDAT(DropNumber(p))
  {
  }

  /** Past its start, an `fdAT` body is image data. */
  lemma FdatContinues(p: Splitter)
    requires p.phase == InChunk && p.consumed != 0
    ensures ReadFDAT(p) == ReadIDAT(p)
  {
  }

  /**
   * A non-empty `fdAT` declared shorter than its sequence number overruns as
   * soon as the number is dropped.
   */
  lemma ShortFdatOverruns(p: Splitter)
    requires p.phase == InChunk && p.consumed == 0
    requires 0 < p.chunkSize < 4 && |p.buffer| >= 4
    ensures Settle(ReadFDAT(p)).next.phase == Failed(BadChunkSize)
    ensures Settle(ReadFDAT(p)).events[|Settle(ReadFDAT(p)).events| - 1] == ErrorOut(BadChunkSize)
  {
    var s := DropNumber(p);
    assert ReadFDAT(p) == ReadIDAT(s);
    assert ReadIDAT(s).count == 0;
  }
}
