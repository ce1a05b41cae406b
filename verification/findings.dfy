/**
 * Three handlers exactly as the source writes them (the CRC turn, the
 * image-header handler and the `fdAT` handler), beside the corrected
 * versions the rest of the model uses.
 *
 * In the source the check for a finished `IEND` chunk follows the CRC read
 * whether or not that read consumed anything. With one to three CRC bytes
 * buffered, the image is emitted without its CRC and the remaining CRC bytes
 * are then taken as the start of the next signature.
 *
 * The `IHDR` and `fdAT` handlers read their fixed fields whenever enough
 * bytes are buffered, even for a body declared empty. Such a chunk then
 * either completes quietly or fails with a bad chunk size, depending only on
 * how many bytes the writes happened to deliver. The corrected handlers fail
 * such a chunk with a bad chunk size at once, as every other too-short
 * declared length fails.
 */
module Findings {
  import opened Options
  import opened Bytes
  import opened Png
  import opened Machine
  import opened Driver

  /** The CRC turn as written: the split does not depend on the CRC having been read. */
  function CrcTurnAsWritten(p: Splitter): (t: Transition)
    requires p.phase == AwaitCrc
  {
    var t := ReadCrc(p);
    if p.lastChunk == Some(IEND) then EmitImage(t.next) else t
  }

  /**
   * With part of the final CRC buffered, the as-written turn emits an image
   * that stops short of the CRC, and leaves the CRC bytes to be read as the
   * next image's signature. The corrected turn waits for the rest of the CRC.
   */
  lemma AsWrittenDropsCrc(p: Splitter)
    requires Good(p) && p.phase == AwaitCrc && p.lastChunk == Some(IEND)
    requires 0 < |p.buffer| < 4
    ensures CrcTurnAsWritten(p).events == [ImageOut(p.image[..p.imageLength])]
    ensures p.image[..p.imageLength] + p.buffer == p.image
    ensures CrcTurnAsWritten(p).next.phase == AwaitSignature
    ensures CrcTurnAsWritten(p).next.buffer == p.buffer && CrcTurnAsWritten(p).next.imageLength == 0
    ensures Step(p) == Transition(p, [])
  {
    assert p.image == p.image[..p.imageLength] + p.image[p.imageLength..];
  }

  /**
   * The corrected turn emits only complete images: the emitted bytes always
   * end with the four CRC bytes just consumed.
   */
  lemma CorrectedKeepsCrc(p: Splitter)
    requires Good(p) && p.phase == AwaitCrc && p.lastChunk == Some(IEND)
    ensures |p.buffer| < 4 ==> Step(p) == Transition(p, [])
    ensures |p.buffer| >= 4 ==>
      && |Step(p).events| == 1 && Step(p).events[0].ImageOut?
      && Step(p).events[0].bytes == p.image[..p.imageLength] + p.buffer[..4]
  {
    if |p.buffer| >= 4 {
      var n := p.imageLength + 4;
      assert p.image == p.image[..p.imageLength] + p.buffer;
      assert p.image[..n] == p.image[..p.imageLength] + p.buffer[..4];
    }
  }

  /** The image-header handler as written: it reads the header once 13 bytes are buffered. */
  function ReadIHDRAsWritten(p: Splitter): (h: Handled)
  {
    if |p.buffer| < 13 then Wait(p) else AcceptHeader(p)
  }

  /**
   * The `fdAT` handler as written: at the start of the body it drops the
   * sequence number once four bytes are buffered.
   */
  function ReadFDATAsWritten(p: Splitter): (h: Handled)
  {
    if p.consumed != 0 then ReadIDAT(p)
    else if |p.buffer| < 4 then Wait(p)
    else ReadIDAT(Consume(p, 4).(consumed := 4))
  }

  /** The state a body declared empty completes to. */
  function Completed(p: Splitter): (q: Splitter)
  {
    p.(phase := AwaitCrc, chunk := None, chunkSize := 0, consumed := 0)
  }

  /**
   * An empty image header, as written: with 12 bytes or fewer buffered it
   * completes quietly; once 13 are buffered the same chunk fails. The
   * outcome depends only on where the input was split.
   */
  lemma EmptyIhdrAsWritten(p: Splitter)
    requires p.phase == InChunk && p.chunkSize == 0 && p.consumed == 0
    ensures |p.buffer| < 13 ==> Settle(ReadIHDRAsWritten(p)) == Transition(Completed(p), [])
    ensures |p.buffer| >= 13 ==> Settle(ReadIHDRAsWritten(p)).next.phase.Failed?
  {
    if |p.buffer| < 13 {
      assert Consume(p, 0) == p;
    }
  }

  /**
   * A concrete split: the same empty image header, with 13 bytes buffered
   * and with only the first 12 of them, ends in different phases.
   */
  lemma EmptyIhdrSplitMatters(p: Splitter)
    requires p.phase == InChunk && p.chunkSize == 0 && p.consumed == 0 && |p.buffer| >= 13
    ensures Settle(ReadIHDRAsWritten(p)).next.phase.Failed?
    ensures Settle(ReadIHDRAsWritten(p.(buffer := p.buffer[..12]))).next.phase == AwaitCrc
  {
    EmptyIhdrAsWritten(p);
    EmptyIhdrAsWritten(p.(buffer := p.buffer[..12]));
  }

  /**
   * An empty `fdAT`, as written: with fewer than four bytes buffered it
   * completes quietly; once four are buffered the same chunk fails with a
   * bad chunk size.
   */
  lemma EmptyFdatAsWritten(p: Splitter)
    requires p.phase == InChunk && p.chunkSize == 0 && p.consumed == 0
    ensures |p.buffer| < 4 ==> Settle(ReadFDATAsWritten(p)) == Transition(Completed(p), [])
    ensures |p.buffer| >= 4 ==> Settle(ReadFDATAsWritten(p)).next.phase == Failed(BadChunkSize)
  {
    if |p.buffer| < 4 {
      assert Consume(p, 0) == p;
    } else {
      var s := Consume(p, 4).(consumed := 4);
      assert ReadFDATAsWritten(p) == ReadIDAT(s);
      assert Remaining(s) == 0;
    }
  }

  /**
   * The corrected handlers fail an empty body with a bad chunk size at once,
   * consuming nothing, whatever is buffered: the outcome no longer depends on
   * where the input was split.
   */
  lemma EmptyBodiesCorrected(p: Splitter)
    requires p.phase == InChunk && p.chunkSize == 0 && p.consumed == 0
    ensures Settle(ReadIHDR(p)) == Transition(p.(phase := Failed(BadChunkSize)), [ErrorOut(BadChunkSize)])
    ensures Settle(ReadFDAT(p)) == Transition(p.(phase := Failed(BadChunkSize)), [ErrorOut(BadChunkSize)])
  {
    assert ReadIHDR(p) == Refused(p, BadChunkSize) && ReadFDAT(p) == Refused(p, BadChunkSize);
  }
}
