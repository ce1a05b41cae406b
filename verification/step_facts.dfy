/**
 * Properties of the fixed-size steps and of the image split, stated over
 * the driver's single turn.
 */
module StepFacts {
  import opened Options
  import opened Bytes
  import opened Png
  import opened Machine
  import opened Driver
  import opened Invariants

  /**
   * The signature turn: with fewer than eight bytes it waits unchanged; with
   * the PNG signature in front it consumes exactly that signature; with any
   * other eight bytes it fails without consuming.
   */
  lemma SignatureTurn(p: Splitter)
    requires p.phase == AwaitSignature
    ensures |p.buffer| < 8 ==> Step(p) == Transition(p, [])
    ensures |p.buffer| >= 8 && p.buffer[..8] == SIGNATURE ==>
      && p.buffer == SIGNATURE + Step(p).next.buffer
      && Step(p).next == p.(buffer := p.buffer[8..], imageLength := p.imageLength + 8, phase := AwaitHeader)
      && Step(p).events == []
    ensures |p.buffer| >= 8 && p.buffer[..8] != SIGNATURE ==>
      && Step(p).next == p.(phase := Failed(InvalidSignature))
      && Step(p).events == [ErrorOut(InvalidSignature)]
  {
    if |p.buffer| >= 8 && p.buffer[..8] == SIGNATURE {
      assert p.buffer == p.buffer[..8] + p.buffer[8..];
    }
  }

  /**
   * The header turn: with fewer than eight bytes nothing but the remembered
   * tag changes. Otherwise the eight consumed bytes are the big-endian
   * encoding of the new declared length followed by bytes that decode to the
   * new tag; the cursor restarts at zero and the body is next.
   */
  lemma HeaderTurn(p: Splitter)
    requires p.phase == AwaitHeader
    ensures |p.buffer| < 8 ==> Step(p) == Transition(p.(lastChunk := p.chunk), [])
    ensures |p.buffer| >= 8 ==>
      var q := Step(p).next;
      && q.chunk.Some?
      && p.buffer[..4] == BE32(q.chunkSize)
      && q.chunk.value == Ascii(p.buffer[4..8])
      && p.buffer == p.buffer[..8] + q.buffer
      && q.imageLength == p.imageLength + 8
      && q.consumed == 0 && q.phase == InChunk && q.lastChunk == q.chunk
      && Step(p).events == []
      && q == p.(buffer := q.buffer, imageLength := q.imageLength, chunk := q.chunk, lastChunk := q.chunk,
                 chunkSize := q.chunkSize, consumed := 0, phase := InChunk)
  {
    if |p.buffer| >= 8 {
      BE32OfU32(p.buffer, 0);
      assert p.buffer == p.buffer[..8] + p.buffer[8..];
    }
  }

  /**
   * The CRC turn discards exactly four unverified bytes; it waits unchanged
   * when fewer are buffered.
   */
  lemma CrcTurnConsumesFour(p: Splitter)
    requires p.phase == AwaitCrc
    ensures |p.buffer| < 4 ==> Step(p) == Transition(p, [])
    ensures |p.buffer| >= 4 ==>
      && Step(p).next.buffer == p.buffer[4..]
      && (p.lastChunk != Some(IEND) ==>
            Step(p) == Transition(p.(buffer := p.buffer[4..], imageLength := p.imageLength + 4, phase := AwaitHeader), []))
  {
  }

  /**
   * The image split. A turn emits an image exactly when it consumes the CRC
   * of an `IEND` chunk. The image is the whole consumed prefix of the
   * accumulator up to and including that CRC; it starts with the PNG
   * signature; afterwards nothing is consumed and the next signature is
   * awaited, with the rest of the input untouched.
   */
  lemma ImageSplit(p: Splitter)
    requires Good(p)
    ensures (exists i :: 0 <= i < |Step(p).events| && Step(p).events[i].ImageOut?) <==>
      (p.phase == AwaitCrc && |p.buffer| >= 4 && p.lastChunk == Some(IEND))
    ensures p.phase == AwaitCrc && |p.buffer| >= 4 && p.lastChunk == Some(IEND) ==>
      var q := Step(p).next;
      var img := p.image[..p.imageLength] + p.buffer[..4];
      && Step(p).events == [ImageOut(img)]
      && |img| == p.imageLength + 4
      && img[..8] == SIGNATURE
      && q.imageLength == 0 && q.phase == AwaitSignature
      && q.image == p.buffer[4..] && q.buffer == p.buffer[4..]
  {
    if p.phase == AwaitCrc && |p.buffer| >= 4 && p.lastChunk == Some(IEND) {
      EmitAtIendCrc(p);
      assert Step(p).events[0].ImageOut?;
    } else {
      NoImageOutsideCrc(p);
    }
  }

  /** The emitting half of `ImageSplit`. */
  lemma EmitAtIendCrc(p: Splitter)
    requires Good(p) && p.phase == AwaitCrc && |p.buffer| >= 4 && p.lastChunk == Some(IEND)
    ensures var q := Step(p).next;
      var img := p.image[..p.imageLength] + p.buffer[..4];
      && Step(p).events == [ImageOut(img)]
      && |img| == p.imageLength + 4
      && img[..8] == SIGNATURE
      && q.imageLength == 0 && q.phase == AwaitSignature
      && q.image == p.buffer[4..] && q.buffer == p.buffer[4..]
  {
    var n := p.imageLength + 4;
    var s := ReadCrc(p).next;
    assert s.imageLength == n;
    assert p.image == p.image[..p.imageLength] + p.buffer;
    assert p.image[..n] == p.image[..p.imageLength] + p.buffer[..4];
    assert p.image[n..] == p.buffer[4..];
    assert CrcTurn(p) == EmitImage(s);
  }

  /** Outside the CRC of an `IEND` chunk no turn emits an image. */
  lemma NoImageOutsideCrc(p: Splitter)
    requires !(p.phase == AwaitCrc && |p.buffer| >= 4 && p.lastChunk == Some(IEND))
    ensures forall i :: 0 <= i < |Step(p).events| ==> !Step(p).events[i].ImageOut?
  {
    if p.phase == InChunk {
      var h := Dispatch(p);
      InvokeOk(HandlerFor(p.chunk), p);
      if h.Took? {
        ImageFreeAt(h.events);
      }
    }
  }
}
