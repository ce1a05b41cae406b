/**
 * What each named chunk handler records or emits over one chunk turn. A
 * turn is the handler's outcome settled against the chunk cursor, which is
 * what the driver does with a chunk (`Driver.TurnOf`); where the chunk has a
 * fixed layout, the body is given as the encoding of that layout.
 */
module HandlerFacts {
  import opened Options
  import opened Bytes
  import opened Png
  import opened Machine

  /** A wait leaves a chunk with bytes still to come exactly as it was. */
  lemma WaitSettles(p: Splitter)
    requires p.phase == InChunk && p.consumed < p.chunkSize
    ensures Settle(Wait(p)) == Transition(p, [])
  {
    assert Consume(p, 0) == p;
  }

  /** Until the whole body is buffered, such a handler waits and nothing changes. */
  lemma WaitsForWholeBody(x: Handler, p: Splitter)
    requires p.phase == InChunk && WholeBody(x)
    requires p.consumed == 0 && |p.buffer| < p.chunkSize
    ensures Settle(Invoke(x, p)) == Transition(p, [])
  {
    match x {
      case OnPLTE => assert Invoke(x, p) == ReadPLTE(p) == Wait(p);
      case OnTRNS => assert Invoke(x, p) == ReadTRNS(p) == Wait(p);
      case OnTEXT => assert Invoke(x, p) == ReadTEXT(p) == Wait(p);
      case OnACTL => assert Invoke(x, p) == ReadACTL(p) == Wait(p);
      case OnFCTL => assert Invoke(x, p) == ReadFCTL(p) == Wait(p);
    }
    WaitSettles(p);
  }

  /**
   * A handler that took the whole body at once completes the chunk: the body
   * is consumed, the cursor is cleared and the CRC is next.
   */
  lemma SettleWhole(p: Splitter, h: Handled)
    requires p.phase == InChunk && p.consumed == 0 && HandlerOk(p, h)
    requires h.Took? && h.count == p.chunkSize && h.after.buffer == p.buffer
    ensures Settle(h) == Transition(
      h.after.(buffer := p.buffer[p.chunkSize..], imageLength := p.imageLength + p.chunkSize,
               chunk := None, chunkSize := 0, consumed := 0, phase := AwaitCrc),
      h.events)
  {
    var s := h.after;
    assert s.consumed == 0 && s.chunkSize == p.chunkSize;
    var q := Consume(s, h.count).(consumed := s.consumed + h.count);
    assert q.consumed == q.chunkSize;
  }

  /**
   * Settling a handler that took a fixed count without touching the buffer
   * itself: the count is consumed, all recorded fields are kept, and an
   * overrun of the declared length appends the fault.
   */
  lemma SettleFixed(p: Splitter, h: Handled)
    requires p.phase == InChunk && HandlerOk(p, h) && h.Took? && h.after.buffer == p.buffer
    ensures var q := Settle(h).next;
      && q.buffer == p.buffer[h.count..]
      && q.format == h.after.format && q.pixel == h.after.pixel && q.meta == h.after.meta
      && Settle(h).events == h.events + (if p.consumed + h.count > p.chunkSize then [ErrorOut(BadChunkSize)] else [])
      && (p.consumed + h.count > p.chunkSize ==> q.phase == Failed(BadChunkSize))
      && (p.consumed + h.count == p.chunkSize ==> q.phase == AwaitCrc)
  {
    if p.consumed + h.count <= p.chunkSize {
      assert h.events + [] == h.events;
    }
  }

  /**
   * An image-header body declared empty is too short for the header: it fails
   * with a bad chunk size at once, consuming nothing, whatever is buffered.
   */
  lemma IhdrEmpty(p: Splitter)
    requires p.phase == InChunk && p.consumed == p.chunkSize
    ensures Settle(ReadIHDR(p)) == Transition(p.(phase := Failed(BadChunkSize)), [ErrorOut(BadChunkSize)])
  {
    assert ReadIHDR(p) == Refused(p, BadChunkSize);
  }

  /** An image header waits, unchanged, until 13 bytes are buffered. */
  lemma IhdrWaits(p: Splitter)
    requires p.phase == InChunk && |p.buffer| < 13 && p.consumed < p.chunkSize
    ensures Settle(ReadIHDR(p)) == Transition(p, [])
  {
    assert ReadIHDR(p) == Wait(p);
    WaitSettles(p);
  }

  /** An unknown colour type stops the splitter without consuming the header. */
  lemma IhdrRejects(p: Splitter)
    requires p.phase == InChunk && |p.buffer| >= 13 && p.consumed < p.chunkSize
    requires ColorModelOf(p.buffer[9], p.indexed).None?
    ensures Settle(ReadIHDR(p)).next.phase == Failed(InvalidColorType(p.buffer[9]))
    ensures Settle(ReadIHDR(p)).events == [ErrorOut(InvalidColorType(p.buffer[9]))]
    ensures Settle(ReadIHDR(p)).next.buffer == p.buffer
  {
  }

  /**
   * An accepted image header records width, height and colour space with the
   * pixel size, and its 13 bytes are consumed.
   */
  lemma IhdrAccepts(p: Splitter, cm: ColorModel, bits: nat)
    requires p.phase == InChunk && |p.buffer| >= 13 && p.consumed < p.chunkSize
    requires ColorModelOf(p.buffer[9], p.indexed) == Some(cm) && bits == p.buffer[8] * cm.colors
    ensures Settle(ReadIHDR(p)).next.format.width == Some(U32(p.buffer, 0))
    ensures Settle(ReadIHDR(p)).next.format.height == Some(U32(p.buffer, 4))
    ensures Settle(ReadIHDR(p)).next.format.colorSpace == Some(cm.space)
    ensures Settle(ReadIHDR(p)).next.pixel == Some(PixelSize(cm.colors, bits, PixelBytes(bits)))
    ensures Settle(ReadIHDR(p)).next.buffer == p.buffer[13..]
  {
    var h := ReadIHDR(p);
    IhdrRecords(p, cm, bits);
    SettleFixed(p, h);
  }

  /** The 13 bytes of an accepted header complete the chunk, or overrun it. */
  lemma IhdrCompletes(p: Splitter, cm: ColorModel)
    requires p.phase == InChunk && |p.buffer| >= 13 && p.consumed < p.chunkSize
    requires ColorModelOf(p.buffer[9], p.indexed) == Some(cm)
    ensures var t := Settle(ReadIHDR(p));
      && t.events == (if p.consumed + 13 > p.chunkSize then [ErrorOut(BadChunkSize)] else [])
      && (p.consumed + 13 > p.chunkSize ==> t.next.phase == Failed(BadChunkSize))
      && (p.consumed + 13 == p.chunkSize ==> t.next.phase == AwaitCrc)
  {
    var h := ReadIHDR(p);
    IhdrTakes13(p, cm);
    SettleFixed(p, h);
    var e: seq<Event> := if p.consumed + 13 > p.chunkSize then [ErrorOut(BadChunkSize)] else [];
    assert h.events + e == e;
  }

  /** An accepted image header takes its 13 bytes and emits nothing. */
  lemma IhdrTakes13(p: Splitter, cm: ColorModel)
    requires p.phase == InChunk && |p.buffer| >= 13 && p.consumed < p.chunkSize
    requires ColorModelOf(p.buffer[9], p.indexed) == Some(cm)
    ensures var h := ReadIHDR(p);
      h.Took? && h.count == 13 && h.events == [] && h.after.buffer == p.buffer
  {
  }

  /** What an accepted image header records before its bytes are consumed. */
  lemma IhdrRecords(p: Splitter, cm: ColorModel, bits: nat)
    requires p.phase == InChunk && |p.buffer| >= 13 && p.consumed < p.chunkSize
    requires ColorModelOf(p.buffer[9], p.indexed) == Some(cm) && bits == p.buffer[8] * cm.colors
    ensures var h := ReadIHDR(p);
      && h.Took? && h.count == 13 && h.events == [] && h.after.buffer == p.buffer
      && h.after.format.width == Some(U32(p.buffer, 0))
      && h.after.format.height == Some(U32(p.buffer, 4))
      && h.after.format.colorSpace == Some(cm.space)
      && h.after.pixel == Some(PixelSize(cm.colors, bits, PixelBytes(bits)))
  {
  }

  /**
   * The `PLTE` turn with its whole body buffered: the body becomes the
   * palette, which is also published in the format only when palettes are
   * reported; the chunk is then complete.
   */
  lemma PlteTurn(p: Splitter)
    requires p.phase == InChunk && p.consumed == 0 && |p.buffer| >= p.chunkSize
    ensures var t := Settle(ReadPLTE(p));
      var pal := p.buffer[..p.chunkSize];
      && t.next.palette == Some(pal)
      && t.next.format == (if p.indexed then p.format.(palette := Some(pal)) else p.format)
      && t.next.buffer == p.buffer[p.chunkSize..]
      && t.next.phase == AwaitCrc && t.events == []
  {
    SettleWhole(p, ReadPLTE(p));
  }

  /**
   * The `tRNS` turn with its whole body buffered. For an indexed image the
   * body is kept as transparency; it becomes the alpha palette when palettes
   * are reported, and otherwise the colour space becomes `Rgba`. For other
   * images the format is untouched. Either way the chunk is complete.
   */
  lemma TrnsTurn(p: Splitter)
    requires p.phase == InChunk && p.consumed == 0 && |p.buffer| >= p.chunkSize
    ensures var t := Settle(ReadTRNS(p));
      var alpha := p.buffer[..p.chunkSize];
      && (IndexedHeader(p) && p.indexed ==>
            t.next.format == p.format.(alphaPalette := Some(alpha)) && t.next.transparency == Some(alpha))
      && (IndexedHeader(p) && !p.indexed ==>
            t.next.format == p.format.(colorSpace := Some(Rgba)) && t.next.transparency == Some(alpha))
      && (!IndexedHeader(p) ==> t.next.format == p.format && t.next.transparency == p.transparency)
      && t.next.buffer == p.buffer[p.chunkSize..]
      && t.next.phase == AwaitCrc && t.events == []
  {
    SettleWhole(p, ReadTRNS(p));
  }

  /**
   * The `tEXt` turn on a body laid out as keyword, zero byte, text: the
   * entry is stored under its keyword, replacing any earlier text for it,
   * and every other entry is kept; an entry under `PROTO_KEY` leaves the
   * metadata as it was.
   */
  lemma TextTurn(p: Splitter, key: string, value: string)
    requires p.phase == InChunk && Keyword(key) && SevenBit(value)
    requires p.consumed == 0 && p.chunkSize == |EncodeText(key, value)|
    requires |p.buffer| >= p.chunkSize && p.buffer[..p.chunkSize] == EncodeText(key, value)
    ensures var t := Settle(ReadTEXT(p));
      && t.next.buffer == p.buffer[p.chunkSize..]
      && t.next.phase == AwaitCrc && t.events == []
    ensures var t := Settle(ReadTEXT(p));
      key != PROTO_KEY ==>
        && key in t.next.meta && t.next.meta[key] == value
        && (forall k :: k in p.meta && k != key ==> k in t.next.meta && t.next.meta[k] == p.meta[k])
        && t.next.meta.Keys == p.meta.Keys + {key}
    ensures key == PROTO_KEY ==> Settle(ReadTEXT(p)).next.meta == p.meta
  {
    SplitTextOfEncode(key, value);
    SettleWhole(p, ReadTEXT(p));
  }

  /** A `tEXt` body without a zero byte is consumed without recording anything. */
  lemma TextWithoutZero(p: Splitter)
    requires p.phase == InChunk && p.consumed == 0 && |p.buffer| >= p.chunkSize
    requires forall i :: 0 <= i < p.chunkSize ==> p.buffer[i] != 0
    ensures Settle(ReadTEXT(p)).next.meta == p.meta
    ensures Settle(ReadTEXT(p)).next.phase == AwaitCrc
  {
    assert FirstZero(p.buffer[..p.chunkSize]).None?;
    SettleWhole(p, ReadTEXT(p));
  }

  /**
   * The `acTL` turn on a body starting with a frame count and a loop count:
   * the image is marked animated with that frame count, a loop count of zero
   * is reported as infinite, and the whole declared body is consumed,
   * including any bytes past the two counts.
   */
  lemma ActlTurn(p: Splitter, frames: nat, loops: nat)
    requires p.phase == InChunk
    requires frames < 0x1_0000_0000 && loops < 0x1_0000_0000
    requires p.consumed == 0 && p.chunkSize >= ACTL_LENGTH
    requires |p.buffer| >= p.chunkSize && p.buffer[..8] == BE32(frames) + BE32(loops)
    ensures var t := Settle(ReadACTL(p));
      && t.next.format.animated && t.next.format.numFrames == frames
      && (t.next.format.repeatCount == Infinite <==> loops == 0)
      && (loops != 0 ==> t.next.format.repeatCount == Finite(loops))
      && t.next.meta == p.meta
      && t.next.buffer == p.buffer[p.chunkSize..]
      && t.next.phase == AwaitCrc && t.events == []
  {
    Png.U32At(p.buffer, 0, frames);
    Png.U32At(p.buffer, 4, loops);
    SettleWhole(p, ReadACTL(p));
  }

  /**
   * An `acTL` or `fcTL` declared shorter than the fields read from it stops
   * the splitter once the declared body is buffered.
   */
  lemma ShortAnimationChunkFails(x: Handler, p: Splitter)
    requires p.phase == InChunk && x in {OnACTL, OnFCTL}
    requires p.chunkSize < (if x == OnACTL then ACTL_LENGTH else FCTL_LENGTH)
    requires |p.buffer| >= p.chunkSize
    ensures Settle(Invoke(x, p)).next.phase == Failed(FieldsPastChunk)
    ensures Settle(Invoke(x, p)).events == [ErrorOut(FieldsPastChunk)]
  {
    if x == OnACTL {
      assert Invoke(x, p) == ReadACTL(p);
    } else {
      assert Invoke(x, p) == ReadFCTL(p);
    }
  }

  /**
   * The `fcTL` turn on a body starting with the fields the APNG extension
   * lays out: one frame event carries every field, with a zero delay
   * denominator read as 100; nothing is retained, and the whole declared
   * body is consumed, including any bytes past the fields.
   */
  lemma FctlTurn(p: Splitter, sequence: nat, w: nat, h: nat, x: nat, y: nat,
                 num: nat, den: nat, dispose: byte, blend: byte)
    requires p.phase == InChunk
    requires sequence < 0x1_0000_0000 && w < 0x1_0000_0000 && h < 0x1_0000_0000
    requires x < 0x1_0000_0000 && y < 0x1_0000_0000 && num < 0x1_0000 && den < 0x1_0000
    requires p.consumed == 0 && p.chunkSize >= FCTL_LENGTH
    requires |p.buffer| >= p.chunkSize
    requires p.buffer[..FCTL_LENGTH] == EncodeFrameControl(sequence, w, h, x, y, num, den, dispose, blend)
    ensures var t := Settle(ReadFCTL(p));
      && t.events == [FrameOut(Frame(w, h, x, y, num, if den == 0 then 100 else den, dispose, blend))]
      && t.next.format == p.format && t.next.meta == p.meta
      && t.next.buffer == p.buffer[p.chunkSize..]
      && t.next.phase == AwaitCrc
  {
    DecodeFrameOfEncode(sequence, w, h, x, y, num, den, dispose, blend);
    FrameOfPrefix(p.buffer);
    SettleWhole(p, ReadFCTL(p));
  }
}
