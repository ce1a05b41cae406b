/**
 * The splitter's headline promise: a stream that is the concatenation of
 * well-formed PNG files comes out, however it is divided into writes, as
 * exactly those files, one image event each and in order, with no error
 * reported and nothing left over.
 */
module Splitting {
  import opened Options
  import opened Bytes
  import opened Png
  import opened Machine
  import opened Driver
  import opened Invariants
  import opened StepFacts
  import opened Streaming

  /** One PNG chunk as it travels: a four-byte tag, the body and the CRC; the length field is derived. */
  datatype Chunk = Chunk(tag: seq<byte>, body: seq<byte>, crc: seq<byte>)

  /** A PNG file: the chunks that follow its signature. */
  datatype PngFile = PngFile(chunks: seq<Chunk>)

  /** The tag as the splitter decodes it. */
  function TagName(c: Chunk): (r: string)
  {
    Ascii(c.tag)
  }

  /**
   * The body lengths and contents each handler reads without failing: an
   * image header of exactly 13 bytes with a permitted colour type, `acTL`
   * and `fcTL` bodies holding all their fields, and an `fdAT` body holding
   * its sequence number. Every other handler accepts any body.
   */
  predicate BodyOk(x: Handler, body: seq<byte>)
  {
    match x
    case OnIHDR => |body| == 13 && ValidColorType(body[9])
    case OnACTL => |body| >= ACTL_LENGTH
    case OnFCTL => |body| >= FCTL_LENGTH
    case OnFDAT => |body| >= 4
    case _ => true
  }

  /** A chunk with a four-byte tag and CRC, a length that fits the length field, and a body its handler accepts. */
  predicate Readable(c: Chunk)
  {
    && |c.tag| == 4 && |c.crc| == 4 && |c.body| < 0x1_0000_0000
    && BodyOk(HandlerFor(Some(TagName(c))), c.body)
  }

  /** The wire form of a chunk: big-endian body length, tag, body, CRC. */
  function EncodeChunk(c: Chunk): (r: seq<byte>)
    requires |c.body| < 0x1_0000_0000
  {
    BE32(|c.body|) + c.tag + c.body + c.crc
  }

  /** Readable chunks, in which `IEND` is the last tag and appears nowhere else. */
  predicate ChunksOk(cs: seq<Chunk>)
  {
    (forall c | c in cs :: Readable(c)) && EndsAtIend(cs)
  }

  /** A non-empty list whose last tag, and only that one, is `IEND`. */
  predicate EndsAtIend(cs: seq<Chunk>)
  {
    && |cs| > 0
    && (TagName(cs[0]) == IEND <==> |cs| == 1)
    && (|cs| > 1 ==> EndsAtIend(cs[1..]))
  }

  predicate WellFormed(f: PngFile)
  {
    ChunksOk(f.chunks)
  }

  function EncodeChunks(cs: seq<Chunk>): (r: seq<byte>)
    requires forall c | c in cs :: Readable(c)
  {
    if |cs| == 0 then [] else
      assert cs[0] in cs && Readable(cs[0]);
      EncodeChunk(cs[0]) + EncodeChunks(cs[1..])
  }

  /** The bytes of a PNG file: the signature, then its chunks. */
  function Encode(f: PngFile): (r: seq<byte>)
    requires WellFormed(f)
  {
    SIGNATURE + EncodeChunks(f.chunks)
  }

  /** The encodings of several files, one entry each. */
  function Encodings(files: seq<PngFile>): (r: seq<seq<byte>>)
    requires forall f | f in files :: WellFormed(f)
  {
    if |files| == 0 then [] else
      assert files[0] in files && WellFormed(files[0]);
      [Encode(files[0])] + Encodings(files[1..])
  }

  /** The stream of several files back to back. */
  function EncodeAll(files: seq<PngFile>): (r: seq<byte>)
    requires forall f | f in files :: WellFormed(f)
  {
    if |files| == 0 then [] else
      assert files[0] in files && WellFormed(files[0]);
      Encode(files[0]) + EncodeAll(files[1..])
  }

  /** The emitted images of an event list, one entry per image event, in order. */
  function Emitted(events: seq<Event>): (r: seq<seq<byte>>)
  {
    if |events| == 0 then []
    else (if events[0].ImageOut? then [events[0].bytes] else []) + Emitted(events[1..])
  }

  /** No error event in the list. */
  predicate NoErrors(events: seq<Event>)
  {
    forall e | e in events :: !e.ErrorOut?
  }

  /** Only format, metadata and frame events in the list. */
  predicate Quiet(events: seq<Event>)
  {
    forall e | e in events :: e.FormatOut? || e.MetaOut? || e.FrameOut?
  }

  lemma {:induction false} EmittedAppend(a: seq<Event>, b: seq<Event>)
    ensures Emitted(a + b) == Emitted(a) + Emitted(b)
  {
    if |a| == 0 {
      assert a + b == b;
    } else {
      var head := if a[0].ImageOut? then [a[0].bytes] else [];
      assert (a + b)[0] == a[0] && (a + b)[1..] == a[1..] + b;
      EmittedAppend(a[1..], b);
      assert Emitted(a + b) == head + (Emitted(a[1..]) + Emitted(b));
      assert head + (Emitted(a[1..]) + Emitted(b)) == (head + Emitted(a[1..])) + Emitted(b);
    }
  }

  /** A quiet list emits no image. */
  lemma {:induction false} QuietEmitsNothing(events: seq<Event>)
    requires Quiet(events)
    ensures Emitted(events) == []
  {
    if |events| > 0 {
      assert events[0] in events;
      assert forall e | e in events[1..] :: e in events;
      QuietEmitsNothing(events[1..]);
    }
  }

  /** A handler's outcome finishes a body of `size` bytes in this one turn. */
  predicate Finishes(h: Handled, size: nat)
  {
    h.Took? && h.after.consumed + h.count == size
  }

  /**
   * With the whole body buffered and nothing of it consumed yet, a handler
   * finishes the body in one turn exactly when the body is one it accepts;
   * when it does, it reports only format, metadata and frame events.
   */
  lemma HandlerFinishes(x: Handler, p: Splitter)
    requires p.phase == InChunk && p.consumed == 0 && |p.buffer| >= p.chunkSize
    ensures Finishes(Invoke(x, p), p.chunkSize) <==> BodyOk(x, p.buffer[..p.chunkSize])
    ensures Finishes(Invoke(x, p), p.chunkSize) ==> Quiet(Invoke(x, p).events)
  {
    match x
    case OnIHDR =>
      if |p.buffer| >= 13 {
        ColorModelMatchesFlags(p.buffer[9], p.indexed);
      }
    case OnFDAT =>
      if p.chunkSize > 0 && |p.buffer| >= 4 {
        var s := Consume(p, 4).(consumed := 4);
        assert ReadFDAT(p) == ReadIDAT(s);
      }
    case _ =>
  }

  /**
   * The body turn on a fully buffered, accepted body: the whole body is
   * consumed into the image in one turn, the CRC is awaited next, and only
   * format, metadata and frame events are reported.
   */
  lemma BodyTurn(p: Splitter)
    requires p.phase == InChunk && p.consumed == 0 && |p.buffer| >= p.chunkSize
    requires BodyOk(HandlerFor(p.chunk), p.buffer[..p.chunkSize])
    ensures var t := Step(p);
      && t.next.phase == AwaitCrc && t.next.buffer == p.buffer[p.chunkSize..]
      && t.next.image == p.image && t.next.imageLength == p.imageLength + p.chunkSize
      && t.next.lastChunk == p.lastChunk && Quiet(t.events)
  {
    var x := HandlerFor(p.chunk);
    TurnOf(p, x);
    HandlerFinishes(x, p);
    InvokeOk(x, p);
    var h := Invoke(x, p);
    assert h.after.buffer[h.count..] == p.buffer[p.chunkSize..];
  }

  /** The image accumulator holds the consumed prefix `pre` followed by the buffer. */
  predicate Scanned(p: Splitter, pre: seq<byte>)
  {
    p.imageLength == |pre| && p.image == pre + p.buffer
  }

  /**
   * The header turn of one readable chunk: the length field and the tag are
   * consumed into the image, and the body is awaited with the cursor set to
   * the declared length and the decoded tag.
   */
  lemma HeaderReads(p: Splitter, pre: seq<byte>, c: Chunk, rest: seq<byte>)
    requires |c.tag| == 4 && |c.body| < 0x1_0000_0000 && p.phase == AwaitHeader && Scanned(p, pre)
    requires p.buffer == EncodeChunk(c) + rest
    ensures var q := Step(p).next;
      && q.phase == InChunk && q.consumed == 0 && q.chunkSize == |c.body|
      && q.chunk == Some(TagName(c)) && q.lastChunk == q.chunk
      && q.buffer == c.body + c.crc + rest
      && Scanned(q, pre + BE32(|c.body|) + c.tag)
      && Step(p).events == []
  {
    var n := |c.body|;
    var head, tail := BE32(n) + c.tag, c.body + c.crc + rest;
    HeaderFields(c, rest);
    Regroup(pre, head, tail);
    Regroup(pre, BE32(n), c.tag);
  }

  /** The header fields of a chunk's wire form read back as its body length and its tag. */
  lemma HeaderFields(c: Chunk, rest: seq<byte>)
    requires |c.tag| == 4 && |c.body| < 0x1_0000_0000
    ensures var d := EncodeChunk(c) + rest;
      && |d| >= 8 && U32(d, 0) == |c.body| && Ascii(d[4..8]) == TagName(c)
      && d[8..] == c.body + c.crc + rest
      && d == (BE32(|c.body|) + c.tag) + d[8..]
  {
    var d := EncodeChunk(c) + rest;
    ChunkLayout(c, rest);
    Regroup([], BE32(|c.body|) + c.tag, c.body + c.crc + rest);
    U32At(d, 0, |c.body|);
  }

  /** The wire form of a chunk followed by more input, regrouped at the header and at the tag. */
  lemma ChunkLayout(c: Chunk, rest: seq<byte>)
    requires |c.tag| == 4 && |c.body| < 0x1_0000_0000
    ensures var d := EncodeChunk(c) + rest;
      && d == (BE32(|c.body|) + c.tag) + (c.body + c.crc + rest)
      && d[..4] == BE32(|c.body|) && d[4..8] == c.tag
  {
  }

  /** Regrouping a prefix `head` of the buffer into the consumed part. */
  lemma Regroup(pre: seq<byte>, head: seq<byte>, tail: seq<byte>)
    ensures (head + tail)[..|head|] == head && (head + tail)[|head|..] == tail
    ensures pre + (head + tail) == (pre + head) + tail
  {
  }

  /**
   * The header and body turns of one readable chunk, from the chunk's
   * length field to its CRC, which is then awaited with the chunk's tag
   * remembered.
   */
  lemma HeaderAndBody(p: Splitter, pre: seq<byte>, c: Chunk, rest: seq<byte>)
      returns (q: Splitter, ev: seq<Event>)
    requires Readable(c) && p.phase == AwaitHeader && Scanned(p, pre)
    requires p.buffer == EncodeChunk(c) + rest
    ensures Run(p) == Transition(Run(q).next, ev + Run(q).events)
    ensures q.phase == AwaitCrc && q.lastChunk == Some(TagName(c))
    ensures q.buffer == c.crc + rest && Scanned(q, pre + BE32(|c.body|) + c.tag + c.body)
    ensures Quiet(ev)
  {
    HeaderReads(p, pre, c, rest);
    var p1 := Step(p).next;
    var pre1 := pre + BE32(|c.body|) + c.tag;
    Regroup(pre1, c.body, c.crc + rest);
    assert p1.buffer == c.body + (c.crc + rest);
    RunTakes(p, p1, []);
    BodyTurn(p1);
    q, ev := Step(p1).next, Step(p1).events;
    RunTakes(p1, q, ev);
    assert [] + (ev + Run(q).events) == ev + Run(q).events;
  }

  /** The consumed prefix after a whole chunk is the prefix before it followed by its wire form. */
  lemma PrefixThrough(pre: seq<byte>, c: Chunk)
    requires |c.body| < 0x1_0000_0000
    ensures pre + BE32(|c.body|) + c.tag + c.body + c.crc == pre + EncodeChunk(c)
  {
  }

  /** A readable chunk other than `IEND`: its CRC is discarded and the next header is awaited. */
  lemma ChunkRuns(p: Splitter, pre: seq<byte>, c: Chunk, rest: seq<byte>)
      returns (q: Splitter, ev: seq<Event>)
    requires Readable(c) && TagName(c) != IEND && p.phase == AwaitHeader && Scanned(p, pre)
    requires p.buffer == EncodeChunk(c) + rest
    ensures Run(p) == Transition(Run(q).next, ev + Run(q).events)
    ensures q.phase == AwaitHeader && q.buffer == rest && Scanned(q, pre + EncodeChunk(c))
    ensures Quiet(ev)
  {
    var q1, ev1 := HeaderAndBody(p, pre, c, rest);
    var pre1 := pre + BE32(|c.body|) + c.tag + c.body;
    Regroup(pre1, c.crc, rest);
    PrefixThrough(pre, c);
    assert q1.lastChunk != Some(IEND);
    q := Consume(q1, 4).(phase := AwaitHeader);
    assert Step(q1) == CrcTurn(q1);
    assert CrcTurn(q1) == ReadCrc(q1);
    assert Step(q1) == Transition(q, []);
    RunTakes(q1, q, []);
    assert [] + Run(q).events == Run(q).events;
    ev := ev1;
  }

  /** The `IEND` chunk: consuming its CRC emits the image scanned so far, ending with that CRC. */
  lemma LastChunkRuns(p: Splitter, pre: seq<byte>, c: Chunk, rest: seq<byte>)
      returns (q: Splitter, ev: seq<Event>)
    requires Readable(c) && TagName(c) == IEND && p.phase == AwaitHeader && Scanned(p, pre)
    requires p.buffer == EncodeChunk(c) + rest
    ensures Run(p) == Transition(Run(q).next, ev + Run(q).events)
    ensures q.phase == AwaitSignature && q.buffer == rest && q.image == rest && q.imageLength == 0
    ensures Emitted(ev) == [pre + EncodeChunk(c)] && NoErrors(ev)
  {
    var q1, ev1 := HeaderAndBody(p, pre, c, rest);
    var pre1 := pre + BE32(|c.body|) + c.tag + c.body;
    var whole := pre1 + c.crc;
    Regroup(pre1, c.crc, rest);
    Regroup([], whole, rest);
    PrefixThrough(pre, c);
    var s := Consume(q1, 4).(phase := AwaitHeader);
    assert s.image == whole + rest && s.imageLength == |whole|;
    var ev2 := [ImageOut(whole)];
    q := s.(image := rest, imageLength := 0, phase := AwaitSignature);
    assert EmitImage(s) == Transition(q, ev2);
    assert Step(q1) == EmitImage(s);
    RunTakes(q1, q, ev2);
    ev := ev1 + ev2;
    Chain(Run(p), Run(q1), Run(q), ev1, ev2);
    QuietEmitsNothing(ev1);
    EmittedAppend(ev1, ev2);
    assert Emitted(ev2) == [whole] + Emitted([]);
  }

  /** Two resting-point equations in a row compose, with their events in order. */
  lemma Chain(tp: Transition, t1: Transition, t: Transition, ev1: seq<Event>, ev2: seq<Event>)
    requires tp == Transition(t1.next, ev1 + t1.events)
    requires t1 == Transition(t.next, ev2 + t.events)
    ensures tp == Transition(t.next, (ev1 + ev2) + t.events)
  {
    assert ev1 + (ev2 + t.events) == (ev1 + ev2) + t.events;
  }

  /**
   * The chunks of one file, from the first chunk header to the end of the
   * `IEND` CRC: one image is emitted, holding the scanned prefix and every
   * chunk, and the next signature is awaited.
   */
  lemma {:induction false} ChunksRun(p: Splitter, pre: seq<byte>, cs: seq<Chunk>, rest: seq<byte>)
      returns (q: Splitter, ev: seq<Event>)
    requires ChunksOk(cs) && p.phase == AwaitHeader && Scanned(p, pre)
    requires p.buffer == EncodeChunks(cs) + rest
    ensures Run(p) == Transition(Run(q).next, ev + Run(q).events)
    ensures q.phase == AwaitSignature && q.buffer == rest && q.image == rest && q.imageLength == 0
    ensures Emitted(ev) == [pre + EncodeChunks(cs)] && NoErrors(ev)
    decreases |cs|
  {
    ChunksSplit(cs);
    if |cs| == 1 {
      assert EncodeChunk(cs[0]) + [] == EncodeChunk(cs[0]);
      q, ev := LastChunkRuns(p, pre, cs[0], rest);
    } else {
      var q1, ev1 := FirstChunkRuns(p, pre, cs, rest);
      var ev2;
      q, ev2 := ChunksRun(q1, pre + EncodeChunk(cs[0]), cs[1..], rest);
      ev := ev1 + ev2;
      Chain(Run(p), Run(q1), Run(q), ev1, ev2);
      QuietEmitsNothing(ev1);
      EmittedAppend(ev1, ev2);
    }
  }

  /** The first of several chunks is consumed whole, leaving the rest of the list to be read. */
  lemma FirstChunkRuns(p: Splitter, pre: seq<byte>, cs: seq<Chunk>, rest: seq<byte>)
      returns (q: Splitter, ev: seq<Event>)
    requires ChunksOk(cs) && |cs| > 1 && p.phase == AwaitHeader && Scanned(p, pre)
    requires p.buffer == EncodeChunks(cs) + rest
    ensures Readable(cs[0]) && ChunksOk(cs[1..])
    ensures Run(p) == Transition(Run(q).next, ev + Run(q).events)
    ensures q.phase == AwaitHeader && Scanned(q, pre + EncodeChunk(cs[0]))
    ensures q.buffer == EncodeChunks(cs[1..]) + rest && Quiet(ev)
    ensures (pre + EncodeChunk(cs[0])) + EncodeChunks(cs[1..]) == pre + EncodeChunks(cs)
  {
    ChunksSplit(cs);
    var c, more := cs[0], EncodeChunks(cs[1..]);
    Regroup(EncodeChunk(c), more, rest);
    Regroup(pre, EncodeChunk(c), more);
    q, ev := ChunkRuns(p, pre, c, more + rest);
  }

  /** The first chunk of a chunk list, and what the rest of the list keeps. */
  lemma ChunksSplit(cs: seq<Chunk>)
    requires ChunksOk(cs)
    ensures Readable(cs[0]) && (TagName(cs[0]) == IEND <==> |cs| == 1)
    ensures |cs| == 1 ==> EncodeChunks(cs) == EncodeChunk(cs[0]) + []
    ensures |cs| > 1 ==> ChunksOk(cs[1..]) && EncodeChunks(cs) == EncodeChunk(cs[0]) + EncodeChunks(cs[1..])
  {
    assert cs[0] in cs;
    var tail := cs[1..];
    assert forall i | 0 <= i < |tail| :: tail[i] == cs[i + 1];
    assert forall c | c in tail :: c in cs;
  }

  /** One well-formed file, from its signature: exactly its bytes are emitted, as one image. */
  lemma FileRuns(p: Splitter, f: PngFile, rest: seq<byte>)
      returns (q: Splitter, ev: seq<Event>)
    requires WellFormed(f) && p.phase == AwaitSignature && Scanned(p, [])
    requires p.buffer == Encode(f) + rest
    ensures Run(p) == Transition(Run(q).next, ev + Run(q).events)
    ensures q.phase == AwaitSignature && q.buffer == rest && q.image == rest && q.imageLength == 0
    ensures Emitted(ev) == [Encode(f)] && NoErrors(ev)
  {
    var more := EncodeChunks(f.chunks);
    Regroup(SIGNATURE, more, rest);
    Regroup([], SIGNATURE, more + rest);
    var p1 := Consume(p, 8).(phase := AwaitHeader);
    assert Step(p) == ReadSignature(p) == Transition(p1, []);
    RunTakes(p, p1, []);
    q, ev := ChunksRun(p1, SIGNATURE, f.chunks, rest);
    assert [] + (ev + Run(q).events) == ev + Run(q).events;
  }

  /** Well-formed files back to back: each is emitted as one image, in order. */
  lemma {:induction false} FilesRun(p: Splitter, files: seq<PngFile>, rest: seq<byte>)
      returns (q: Splitter, ev: seq<Event>)
    requires forall f | f in files :: WellFormed(f)
    requires p.phase == AwaitSignature && Scanned(p, [])
    requires p.buffer == EncodeAll(files) + rest
    ensures Run(p) == Transition(Run(q).next, ev + Run(q).events)
    ensures q.phase == AwaitSignature && q.buffer == rest && q.image == rest && q.imageLength == 0
    ensures Emitted(ev) == Encodings(files) && NoErrors(ev)
    decreases |files|
  {
    if |files| == 0 {
      q, ev := p, [];
      assert [] + Run(q).events == Run(q).events;
    } else {
      var tail := files[1..];
      assert forall i | 0 <= i < |tail| :: tail[i] == files[i + 1];
      assert p.buffer == Encode(files[0]) + (EncodeAll(tail) + rest);
      var q1, ev1 := FileRuns(p, files[0], EncodeAll(tail) + rest);
      var ev2;
      q, ev2 := FilesRun(q1, tail, rest);
      ev := ev1 + ev2;
      Chain(Run(p), Run(q1), Run(q), ev1, ev2);
      EmittedAppend(ev1, ev2);
    }
  }

  /**
   * The splitter's promise. When the writes to a fresh splitter add up to
   * well-formed PNG files back to back, the images emitted are exactly those
   * files, in order, one image per file; no error is reported; and the
   * splitter ends waiting for a signature with nothing buffered or held.
   */
  lemma SplitsEveryFile(indexed: bool, files: seq<PngFile>, writes: seq<seq<byte>>)
    requires forall f | f in files :: WellFormed(f)
    requires Concat(writes) == EncodeAll(files)
    ensures var t := FeedAll(Init(indexed), writes);
      && Emitted(t.events) == Encodings(files) && NoErrors(t.events)
      && t.next.phase == AwaitSignature && t.next.buffer == [] && t.next.image == []
  {
    SplitAnywhere(indexed, writes);
    var data := Concat(writes);
    var p := Append(Init(indexed), data);
    assert p.buffer == EncodeAll(files) + [] && Scanned(p, []);
    var q, ev := FilesRun(p, files, []);
    RunStops(q);
    assert ev + [] == ev;
  }
}
