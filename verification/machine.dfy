/**
 * The splitter's state record and the single steps of its state machine:
 * the signature, chunk-header and CRC steps, and the chunk-body step with
 * its per-tag handlers. The stream plumbing of Node is replaced by pure
 * functions that return the next state together with the events emitted.
 */
module Machine {
  import opened Options
  import opened Bytes
  import opened Png

  /** Why a splitter stopped. */
  datatype Fault =
    | InvalidSignature
    | BadChunkSize
    | InvalidColorType(code: byte)
      /** An `acTL` or `fcTL` declared shorter than the fields read from it. */
    | FieldsPastChunk

  /** What the splitter expects next; `Failed` absorbs every later step. */
  datatype Phase = AwaitSignature | AwaitHeader | InChunk | AwaitCrc | Failed(fault: Fault)

  /** Everything the splitter emits, in emission order. */
  datatype Event =
    | ImageOut(bytes: seq<byte>)
    | FormatOut(format: Format)
    | MetaOut(meta: map<string, string>)
    | FrameOut(frame: Frame)
    | ErrorOut(fault: Fault)

  /** The raw image header fields, stored even when the colour type is rejected. */
  datatype HeaderFields = HeaderFields(bits: byte, colorType: byte, compression: byte, filter: byte, interlace: byte)

  /** Pixel geometry derived from an accepted image header. */
  datatype PixelSize = PixelSize(colors: nat, pixelBits: nat, pixelBytes: nat)

  /**
   * The parser instance. `buffer` holds input not yet consumed, `image`
   * every byte of the image being scanned that has not yet been emitted, and
   * `imageLength` how many of those bytes the state machine has consumed.
   * `chunk`, `chunkSize` and `consumed` form the chunk cursor; `lastChunk`
   * remembers the tag of the most recent header after the cursor is reset.
   */
  datatype Splitter = Splitter(
    phase: Phase,
    buffer: seq<byte>,
    image: seq<byte>,
    imageLength: nat,
    chunk: Option<string>,
    lastChunk: Option<string>,
    chunkSize: nat,
    consumed: nat,
    sawIDAT: bool,
    format: Format,
    meta: map<string, string>,
    indexed: bool,
    header: Option<HeaderFields>,
    pixel: Option<PixelSize>,
    palette: Option<seq<byte>>,
    transparency: Option<seq<byte>>)

  /** A fresh splitter; `indexed` is its only option. */
  function Init(indexed: bool): (q: Splitter)
  {
    Splitter(AwaitSignature, [], [], 0, None, None, 0, 0, false, INITIAL_FORMAT, map[], indexed,
             None, None, None, None)
  }

  /** The state after one step and what that step emitted. */
  datatype Transition = Transition(next: Splitter, events: seq<Event>)

  /** Chunk tags with a meaning for the splitter. */
  const IHDR: string := "IHDR"
  const PLTE: string := "PLTE"
  const TRNS: string := "tRNS"
  const TEXT: string := "tEXt"
  const ACTL: string := "acTL"
  const FCTL: string := "fcTL"
  const IDAT: string := "IDAT"
  const FDAT: string := "fdAT"
  const IEND: string := "IEND"

  /**
   * Every consumed byte is part of the current image, and the unconsumed
   * input is exactly the rest of it: the accumulator is the consumed prefix
   * followed by the buffer.
   */
  predicate Accounted(p: Splitter)
  {
    p.imageLength <= |p.image| && p.image[p.imageLength..] == p.buffer
  }

  /**
   * The chunk cursor never runs past the declared length, and it is cleared
   * whenever no chunk body is being read.
   */
  predicate CursorOk(p: Splitter)
  {
    match p.phase
    case InChunk =>
      && p.consumed <= p.chunkSize && p.chunk.Some? && p.lastChunk == p.chunk
      && (WholeBody(HandlerFor(p.chunk)) ==> p.consumed == 0)
    case Failed(_) => true
    case _ => p.chunk.None? && p.chunkSize == 0 && p.consumed == 0
  }

  /**
   * Between images nothing has been consumed; inside an image the consumed
   * prefix starts with the PNG signature.
   */
  predicate ImageOk(p: Splitter)
  {
    match p.phase
    case AwaitSignature => p.imageLength == 0
    case Failed(_) => true
    case _ => 8 <= p.imageLength <= |p.image| && p.image[..8] == SIGNATURE
  }

  /** The invariant every reachable splitter satisfies. */
  predicate Good(p: Splitter)
  {
    Accounted(p) && CursorOk(p) && ImageOk(p)
  }

  /** Removes `k` bytes from the front of the buffer and counts them into the image. */
  function Consume(p: Splitter, k: nat): (q: Splitter)
    requires k <= |p.buffer|
  {
    p.(buffer := p.buffer[k..], imageLength := p.imageLength + k)
  }

  /** Consuming buffered bytes keeps the image accounted for. */
  lemma ConsumeKeepsAccounted(p: Splitter, k: nat)
    requires k <= |p.buffer| && Accounted(p)
    ensures Accounted(Consume(p, k))
  {
    var q := Consume(p, k);
    assert q.image[q.imageLength..] == p.image[p.imageLength..][k..];
  }

  /** The signature step. */
  function ReadSignature(p: Splitter): (t: Transition)
    requires p.phase == AwaitSignature
  {
    if |p.buffer| < 8 then Transition(p, [])
    else if p.buffer[..8] != SIGNATURE then
      Transition(p.(phase := Failed(InvalidSignature)), [ErrorOut(InvalidSignature)])
    else Transition(Consume(p, 8).(phase := AwaitHeader), [])
  }

  /** The chunk header step: a big-endian length and a four-byte tag. */
  function ReadChunkHeader(p: Splitter): (t: Transition)
    requires p.phase == AwaitHeader
  {
    if |p.buffer| < 8 then Transition(p, [])
    else
      var q := Consume(p, 8);
      Transition(q.(chunkSize := U32(p.buffer, 0), chunk := Some(Ascii(p.buffer[4..8])),
                    consumed := 0, phase := InChunk), [])
  }

  /** The CRC step: four bytes discarded without being checked. */
  function ReadCrc(p: Splitter): (t: Transition)
    requires p.phase == AwaitCrc
  {
    if |p.buffer| < 4 then Transition(p, [])
    else Transition(Consume(p, 4).(phase := AwaitHeader), [])
  }

  /**
   * Emits the consumed prefix of the accumulator as one image, drops it, and
   * waits for the next signature. Slicing clamps to the accumulator's length,
   * as the buffer list does.
   */
  function EmitImage(p: Splitter): (t: Transition)
  {
    var n := if p.imageLength <= |p.image| then p.imageLength else |p.image|;
    Transition(p.(image := p.image[n..], imageLength := 0, phase := AwaitSignature),
               [ImageOut(p.image[..n])])
  }

  /**
   * The CRC turn of the driver: an image is emitted only once the CRC of an
   * `IEND` chunk has actually been consumed.
   */
  function CrcTurn(p: Splitter): (t: Transition)
    requires p.phase == AwaitCrc
  {
    var t := ReadCrc(p);
    if |p.buffer| >= 4 && p.lastChunk == Some(IEND) then EmitImage(t.next) else t
  }

  /** The outcome of a chunk handler: bytes to consume, or a fault. */
  datatype Handled =
    | Took(count: nat, after: Splitter, events: seq<Event>)
    | Refused(after: Splitter, fault: Fault)

  /**
   * A handler leaves the cursor alone and may only have taken bytes off the
   * front of the buffer, counting them into the image.
   */
  predicate HandlerFrame(p: Splitter, s: Splitter)
  {
    && s.phase == p.phase && s.chunk == p.chunk && s.lastChunk == p.lastChunk
    && s.chunkSize == p.chunkSize && s.image == p.image && s.indexed == p.indexed
    && |s.buffer| <= |p.buffer|
    && s.buffer == p.buffer[|p.buffer| - |s.buffer|..]
    && s.imageLength == p.imageLength + (|p.buffer| - |s.buffer|)
    && s.consumed == p.consumed + (|p.buffer| - |s.buffer|)
  }

  /** True when a list holds no image event. */
  predicate ImageFree(events: seq<Event>)
  {
    |events| == 0 || (!events[0].ImageOut? && ImageFree(events[1..]))
  }

  /** An image-free list has no image event at any position. */
  lemma {:induction false} ImageFreeAt(events: seq<Event>)
    requires ImageFree(events)
    ensures forall i :: 0 <= i < |events| ==> !events[i].ImageOut?
  {
    if |events| > 0 {
      ImageFreeAt(events[1..]);
      assert forall i :: 1 <= i < |events| ==> events[i] == events[1..][i - 1];
    }
  }

  /** How many format events a list holds. */
  function CountFormats(events: seq<Event>): (n: nat)
  {
    if |events| == 0 then 0
    else (if events[0].FormatOut? then 1 else 0) + CountFormats(events[1..])
  }

  /**
   * A handler publishes the format only by setting `sawIDAT`, and then as
   * the format followed by the metadata; `sawIDAT` is never cleared.
   */
  predicate PublishesOnce(p: Splitter, h: Handled)
  {
    && (p.sawIDAT ==> h.after.sawIDAT)
    && (h.Refused? ==> h.after.sawIDAT == p.sawIDAT)
    && (h.Took? ==> CountFormats(h.events) == (if !p.sawIDAT && h.after.sawIDAT then 1 else 0))
    && (h.Took? && !p.sawIDAT && h.after.sawIDAT ==> h.events == [FormatOut(p.format), MetaOut(p.meta)])
  }

  /** The contract every handler keeps. */
  predicate HandlerOk(p: Splitter, h: Handled)
  {
    && HandlerFrame(p, h.after)
    && (h.Took? ==> h.count <= |h.after.buffer|)
    && (h.Took? ==> ImageFree(h.events))
    && (h.Refused? ==> h.after.buffer == p.buffer)
    && (h.Took? && h.count == 0 && |h.after.buffer| == |p.buffer| && |p.buffer| > 0 ==>
          (h.after == p && h.events == []) || p.consumed >= p.chunkSize)
  }

  /** Waiting for more input: nothing consumed, nothing changed. */
  function Wait(p: Splitter): (h: Handled)
  {
    Took(0, p, [])
  }

  /** Bytes left in the current chunk body, never below zero. */
  function Remaining(p: Splitter): (n: nat)
  {
    if p.consumed <= p.chunkSize then p.chunkSize - p.consumed else 0
  }

  function Min(a: nat, b: nat): (n: nat) { if a <= b then a else b }

  /**
   * `IHDR`: waits for 13 bytes, then reads the header and classifies the
   * colour type. A body declared empty is too short for the header and fails
   * with a bad chunk size at once, however much is buffered.
   */
  function ReadIHDR(p: Splitter): (h: Handled)
    ensures h.Took? ==> h.count <= |h.after.buffer|
  {
    if Remaining(p) == 0 then Refused(p, BadChunkSize)
    else if |p.buffer| < 13 then Wait(p)
    else AcceptHeader(p)
  }

  /** Reads the 13 header bytes at the front of the buffer and classifies the colour type. */
  function AcceptHeader(p: Splitter): (h: Handled)
    requires |p.buffer| >= 13
  {
    var d := p.buffer;
    var fields := HeaderFields(d[8], d[9], d[10], d[11], d[12]);
    var s := p.(format := p.format.(width := Some(U32(d, 0)), height := Some(U32(d, 4))),
                header := Some(fields));
    match ColorModelOf(d[9], p.indexed)
    case None => Refused(s, InvalidColorType(d[9]))
    case Some(cm) =>
      var pixelBits := d[8] * cm.colors;
      Took(13, s.(format := s.format.(colorSpace := Some(cm.space)),
                  pixel := Some(PixelSize(cm.colors, pixelBits, PixelBytes(pixelBits)))), [])
  }

  /** `PLTE`: waits for the whole body and keeps it as the palette. */
  function ReadPLTE(p: Splitter): (h: Handled)
    ensures h.Took? ==> h.count <= |h.after.buffer|
  {
    if |p.buffer| < p.chunkSize then Wait(p)
    else
      var pal := p.buffer[..p.chunkSize];
      Took(p.chunkSize,
           p.(palette := Some(pal),
              format := if p.indexed then p.format.(palette := Some(pal)) else p.format), [])
  }

  /** True when the last image header declared an indexed-colour image. */
  predicate IndexedHeader(p: Splitter)
  {
    p.header.Some? && p.header.value.colorType == COLOR_INDEXED
  }

  /**
   * `tRNS`: waits for the whole body; for an indexed image it becomes the
   * alpha palette, or, when palettes are not reported, turns the colour
   * space into `Rgba`. For other images it is skipped.
   */
  function ReadTRNS(p: Splitter): (h: Handled)
    ensures h.Took? ==> h.count <= |h.after.buffer|
  {
    if |p.buffer| < p.chunkSize then Wait(p)
    else if !IndexedHeader(p) then Took(p.chunkSize, p, [])
    else
      var alpha := p.buffer[..p.chunkSize];
      Took(p.chunkSize,
           p.(transparency := Some(alpha),
              format := if p.indexed then p.format.(alphaPalette := Some(alpha))
                        else p.format.(colorSpace := Some(Rgba))), [])
  }

  /**
   * The one keyword a plain JavaScript object does not store: assigning a
   * string to its `__proto__` property changes nothing.
   */
  const PROTO_KEY: string := "__proto__"

  /**
   * `tEXt`: waits for the whole body and records its entry; a later entry
   * wins, and an entry under `PROTO_KEY` is dropped.
   */
  function ReadTEXT(p: Splitter): (h: Handled)
    ensures h.Took? ==> h.count <= |h.after.buffer|
  {
    if |p.buffer| < p.chunkSize then Wait(p)
    else match SplitText(p.buffer[..p.chunkSize])
      case None => Took(p.chunkSize, p, [])
      case Some(e) =>
        if e.key == PROTO_KEY then Took(p.chunkSize, p, [])
        else Took(p.chunkSize, p.(meta := p.meta[e.key := e.value]), [])
  }

  /** `acTL`: waits for the whole body, then marks the image animated. */
  function ReadACTL(p: Splitter): (h: Handled)
    ensures h.Took? ==> h.count <= |h.after.buffer|
  {
    if |p.buffer| < p.chunkSize then Wait(p)
    else if p.chunkSize < ACTL_LENGTH then Refused(p, FieldsPastChunk)
    else
      var d := p.buffer;
      Took(p.chunkSize,
           p.(format := p.format.(animated := true, numFrames := U32(d, 0), repeatCount := RepeatOf(U32(d, 4)))), [])
  }

  /** `fcTL`: waits for the whole body, then emits its frame descriptor. */
  function ReadFCTL(p: Splitter): (h: Handled)
    ensures h.Took? ==> h.count <= |h.after.buffer|
  {
    if |p.buffer| < p.chunkSize then Wait(p)
    else if p.chunkSize < FCTL_LENGTH then Refused(p, FieldsPastChunk)
    else Took(p.chunkSize, p, [FrameOut(DecodeFrame(p.buffer))])
  }

  /**
   * `IDAT`: on the first image data of this splitter, publishes the format and
   * the metadata; then takes as much of the body as is buffered.
   */
  function ReadIDAT(p: Splitter): (h: Handled)
    ensures h.Took? ==> h.count <= |h.after.buffer|
  {
    var k := Min(|p.buffer|, Remaining(p));
    if p.sawIDAT then Took(k, p, [])
    else
      Took(k, p.(sawIDAT := true), [FormatOut(p.format), MetaOut(p.meta)])
  }

  /**
   * `fdAT`: at the start of the body, drops the four-byte sequence number
   * (waiting until it is buffered), then continues as `IDAT`. A body declared
   * empty is too short for the number and fails with a bad chunk size at
   * once, however much is buffered.
   */
  function ReadFDAT(p: Splitter): (h: Handled)
    ensures h.Took? ==> h.count <= |h.after.buffer|
  {
    if p.consumed != 0 then ReadIDAT(p)
    else if Remaining(p) == 0 then Refused(p, BadChunkSize)
    else if |p.buffer| < 4 then Wait(p)
    else
      ReadIDAT(Consume(p, 4).(consumed := 4))
  }

  /** Any other tag: the buffered part of the body is skipped. */
  function Skip(p: Splitter): (h: Handled)
    ensures h.Took? ==> h.count <= |h.after.buffer|
  {
    Took(Min(|p.buffer|, Remaining(p)), p, [])
  }

  /** The handlers the dispatcher can choose, one per meaningful tag. */
  datatype Handler = OnIHDR | OnPLTE | OnTRNS | OnTEXT | OnACTL | OnFCTL | OnIDAT | OnFDAT | OnOther

  /** The tag each named handler serves. */
  function TagOf(h: Handler): (r: string)
    requires h != OnOther
  {
    match h
    case OnIHDR => IHDR
    case OnPLTE => PLTE
    case OnTRNS => TRNS
    case OnTEXT => TEXT
    case OnACTL => ACTL
    case OnFCTL => FCTL
    case OnIDAT => IDAT
    case OnFDAT => FDAT
  }

  /** The dispatch table: a tag's own handler, or the skip for every other tag. */
  function HandlerFor(tag: Option<string>): (r: Handler)
  {
    if tag == Some(IHDR) then OnIHDR
    else if tag == Some(PLTE) then OnPLTE
    else if tag == Some(TRNS) then OnTRNS
    else if tag == Some(TEXT) then OnTEXT
    else if tag == Some(ACTL) then OnACTL
    else if tag == Some(FCTL) then OnFCTL
    else if tag == Some(IDAT) then OnIDAT
    else if tag == Some(FDAT) then OnFDAT
    else OnOther
  }

  /** The handlers that read a body only once all of it is buffered. */
  predicate WholeBody(h: Handler)
  {
    h in {OnPLTE, OnTRNS, OnTEXT, OnACTL, OnFCTL}
  }

  /** Runs one handler of the table. */
  function Invoke(x: Handler, p: Splitter): (h: Handled)
    ensures h.Took? ==> h.count <= |h.after.buffer|
  {
    match x
    case OnIHDR => ReadIHDR(p)
    case OnPLTE => ReadPLTE(p)
    case OnTRNS => ReadTRNS(p)
    case OnTEXT => ReadTEXT(p)
    case OnACTL => ReadACTL(p)
    case OnFCTL => ReadFCTL(p)
    case OnIDAT => ReadIDAT(p)
    case OnFDAT => ReadFDAT(p)
    case OnOther => Skip(p)
  }

  /** Runs the handler the current tag selects. */
  function Dispatch(p: Splitter): (h: Handled)
    ensures h.Took? ==> h.count <= |h.after.buffer|
  {
    Invoke(HandlerFor(p.chunk), p)
  }

  /** Every handler of the table keeps the handler contract. */
  lemma InvokeOk(x: Handler, p: Splitter)
    ensures HandlerOk(p, Invoke(x, p)) && PublishesOnce(p, Invoke(x, p))
  {
    match x
    case OnIHDR => IhdrOk(p);
    case OnPLTE => PlteOk(p);
    case OnTRNS => TrnsOk(p);
    case OnTEXT => TextOk(p);
    case OnACTL => ActlOk(p);
    case OnFCTL => FctlOk(p);
    case OnIDAT => IdatOk(p);
    case OnFDAT => FdatOk(p);
    case OnOther => SkipOk(p);
  }

  lemma IhdrOk(p: Splitter)
    ensures HandlerOk(p, ReadIHDR(p)) && PublishesOnce(p, ReadIHDR(p))
  { }

  lemma PlteOk(p: Splitter)
    ensures HandlerOk(p, ReadPLTE(p)) && PublishesOnce(p, ReadPLTE(p))
  { }

  lemma TrnsOk(p: Splitter)
    ensures HandlerOk(p, ReadTRNS(p)) && PublishesOnce(p, ReadTRNS(p))
  { }

  lemma TextOk(p: Splitter)
    ensures HandlerOk(p, ReadTEXT(p)) && PublishesOnce(p, ReadTEXT(p))
  { }

  lemma ActlOk(p: Splitter)
    ensures HandlerOk(p, ReadACTL(p)) && PublishesOnce(p, ReadACTL(p))
  { }

  lemma FctlOk(p: Splitter)
    ensures HandlerOk(p, ReadFCTL(p)) && PublishesOnce(p, ReadFCTL(p))
  { }

  /** The first image data publishes exactly one format, and no image. */
  lemma IdatOk(p: Splitter)
    ensures HandlerOk(p, ReadIDAT(p)) && PublishesOnce(p, ReadIDAT(p))
  {
    if !p.sawIDAT {
      var ev := [FormatOut(p.format), MetaOut(p.meta)];
      assert ev[1..] == [MetaOut(p.meta)] && [MetaOut(p.meta)][1..] == [];
      assert CountFormats([MetaOut(p.meta)]) == 0;
      assert CountFormats(ev) == 1;
    }
  }

  /** Dropping the sequence number only takes bytes off the front of the buffer. */
  lemma FdatOk(p: Splitter)
    ensures HandlerOk(p, ReadFDAT(p)) && PublishesOnce(p, ReadFDAT(p))
  {
    if p.consumed != 0 {
      IdatOk(p);
    } else if |p.buffer| >= 4 && Remaining(p) != 0 {
      var s := Consume(p, 4).(consumed := 4);
      assert p.buffer[|p.buffer| - |s.buffer|..] == s.buffer;
      IdatOk(s);
    }
  }

  lemma SkipOk(p: Splitter)
    ensures HandlerOk(p, Skip(p)) && PublishesOnce(p, Skip(p))
  { }

  /**
   * The chunk-body step: run the handler the tag selects, then account for
   * what it took.
   */
  function ReadChunk(p: Splitter): (t: Transition)
    requires p.phase == InChunk
  {
    Settle(Dispatch(p))
  }

  /**
   * Consumes what a handler took, then fails on an overrun of the declared
   * length, finishes the chunk when it is complete, or stays inside it.
   */
  function Settle(h: Handled): (t: Transition)
    requires h.Took? ==> h.count <= |h.after.buffer|
  {
    match h
    case Refused(s, f) => Transition(s.(phase := Failed(f)), [ErrorOut(f)])
    case Took(k, s, ev) =>
      var q := Consume(s, k).(consumed := s.consumed + k);
      if q.consumed > q.chunkSize then
        Transition(q.(phase := Failed(BadChunkSize)), ev + [ErrorOut(BadChunkSize)])
      else if q.consumed == q.chunkSize then
        Transition(q.(chunk := None, chunkSize := 0, consumed := 0, phase := AwaitCrc), ev)
      else Transition(q, ev)
  }
}
