/**
 * Where the writes to the stream are split does not matter. Appending more
 * input before the machine runs gives what running first and then feeding
 * the extra input gives; so any sequence of writes behaves like one write of
 * their concatenation, events and final state alike.
 */
module Streaming {
  import opened Options
  import opened Bytes
  import opened Png
  import opened Machine
  import opened Driver
  import opened Invariants
  import opened ChunkFacts
  import opened HandlerFacts

  /** A transition with more input appended to the state it reaches. */
  function AppendT(t: Transition, c: seq<byte>): (r: Transition)
  {
    Transition(Append(t.next, c), t.events)
  }

  /** A handler outcome with more input appended to the state it leaves. */
  function AppendH(h: Handled, c: seq<byte>): (r: Handled)
  {
    match h
    case Took(k, s, ev) => Took(k, Append(s, c), ev)
    case Refused(s, f) => Refused(Append(s, c), f)
  }

  /** A step on a longer buffer does the same, leaving the extra input behind. */
  predicate Commutes(p: Splitter, c: seq<byte>)
  {
    Step(Append(p, c)) == AppendT(Step(p), c)
  }

  /**
   * A step on a longer buffer does what two steps do: the step on the
   * shorter buffer, then a step on what it left with the extra input
   * appended; both of those steps, and the merged one, make progress.
   */
  predicate Merges(p: Splitter, c: seq<byte>)
  {
    var q := Step(p).next;
    var r := Step(Append(q, c));
    && Step(Append(p, c)) == Transition(r.next, Step(p).events + r.events)
    && r.next != Append(q, c)
    && r.next != Append(p, c)
  }

  /** Appending the same input to two states keeps them apart. */
  lemma AppendInjective(p: Splitter, q: Splitter, c: seq<byte>)
    requires Append(p, c) == Append(q, c)
    ensures p == q
  {
    var a, b := Append(p, c), Append(q, c);
    assert p.buffer == a.buffer[..|p.buffer|];
    assert q.buffer == b.buffer[..|q.buffer|];
    assert p.image == a.image[..|p.image|];
    assert q.image == b.image[..|q.image|];
  }

  /** Consuming from the front commutes with appending at the back. */
  lemma ConsumeAppend(p: Splitter, k: nat, c: seq<byte>)
    requires k <= |p.buffer|
    ensures Consume(Append(p, c), k) == Append(Consume(p, k), c)
  {
    assert (p.buffer + c)[k..] == p.buffer[k..] + c;
  }

  /** Settling a handler's outcome commutes with appending input. */
  lemma SettleAppend(h: Handled, c: seq<byte>)
    requires h.Took? ==> h.count <= |h.after.buffer|
    ensures Settle(AppendH(h, c)) == AppendT(Settle(h), c)
  {
    if h.Took? {
      ConsumeAppend(h.after, h.count, c);
    }
  }

  /** A complete signature is checked the same way with more input behind it. */
  lemma SignatureCommutes(p: Splitter, c: seq<byte>)
    requires p.phase == AwaitSignature && |p.buffer| >= 8
    ensures Commutes(p, c)
  {
    var pc := Append(p, c);
    assert pc.buffer[..8] == p.buffer[..8];
    ConsumeAppend(p, 8, c);
  }

  /** A complete chunk header is read the same way with more input behind it. */
  lemma HeaderCommutes(p: Splitter, c: seq<byte>)
    requires p.phase == AwaitHeader && |p.buffer| >= 8
    ensures Commutes(p, c)
  {
    var pc := Append(p, c);
    assert pc.buffer[4..8] == p.buffer[4..8];
    assert U32(pc.buffer, 0) == U32(p.buffer, 0);
    ConsumeAppend(p, 8, c);
  }

  /** A short header that stays short only clears the cursor's tag, either way. */
  lemma ShortHeaderCommutes(p: Splitter, c: seq<byte>)
    requires p.phase == AwaitHeader && |p.buffer| + |c| < 8
    ensures Commutes(p, c)
  {
  }

  /**
   * A short header that clears the cursor's tag, followed by enough input:
   * reading the header at once does both steps.
   */
  lemma ShortHeaderMerges(p: Splitter, c: seq<byte>)
    requires p.phase == AwaitHeader && |p.buffer| < 8 && |p.buffer| + |c| >= 8
    ensures Merges(p, c)
  {
    var q := Step(p).next;
    assert q == p.(lastChunk := p.chunk);
    var pc, qc := Append(p, c), Append(q, c);
    assert qc == pc.(lastChunk := p.chunk);
    assert ReadChunkHeader(qc).next == ReadChunkHeader(pc).next.(lastChunk := p.chunk);
  }

  /** A CRC, and the image it may complete, are the same with more input behind them. */
  lemma CrcCommutes(p: Splitter, c: seq<byte>)
    requires Accounted(p) && p.phase == AwaitCrc && |p.buffer| >= 4
    ensures Commutes(p, c)
  {
    ConsumeAppend(p, 4, c);
    var t := ReadCrc(p);
    var n := t.next.imageLength;
    assert |p.image| == p.imageLength + |p.buffer|;
    assert (t.next.image + c)[..n] == t.next.image[..n];
    assert (t.next.image + c)[n..] == t.next.image[n..] + c;
  }

  /** Appending input does not change the fields read from a buffered prefix. */
  lemma PrefixReads(d: seq<byte>, c: seq<byte>, n: nat)
    requires n <= |d|
    ensures (d + c)[..n] == d[..n]
    ensures n >= 8 ==> U32(d + c, 0) == U32(d, 0) && U32(d + c, 4) == U32(d, 4)
    ensures n >= FCTL_LENGTH ==> DecodeFrame(d + c) == DecodeFrame(d)
  {
    if n >= FCTL_LENGTH {
      FrameOfPrefix(d);
      FrameOfPrefix(d + c);
      assert (d + c)[..FCTL_LENGTH] == d[..FCTL_LENGTH];
    }
  }

  /** An image header with its 13 bytes buffered, or with nothing to read, ignores later input. */
  lemma IhdrAppend(p: Splitter, c: seq<byte>)
    requires |p.buffer| >= 13 || Remaining(p) == 0
    ensures ReadIHDR(Append(p, c)) == AppendH(ReadIHDR(p), c)
  {
    if Remaining(p) == 0 {
      assert ReadIHDR(p) == Refused(p, BadChunkSize);
      assert ReadIHDR(Append(p, c)) == Refused(Append(p, c), BadChunkSize);
    } else {
      assert ReadIHDR(p) == AcceptHeader(p);
      assert ReadIHDR(Append(p, c)) == AcceptHeader(Append(p, c));
      IhdrReadAppend(p, c);
    }
  }

  /** The header fields come from the first 13 bytes, whatever follows them. */
  lemma IhdrReadAppend(p: Splitter, c: seq<byte>)
    requires |p.buffer| >= 13
    ensures AcceptHeader(Append(p, c)) == AppendH(AcceptHeader(p), c)
  {
    var d, e := p.buffer, p.buffer + c;
    assert e[8] == d[8] && e[9] == d[9] && e[10] == d[10] && e[11] == d[11] && e[12] == d[12];
    PrefixReads(d, c, 13);
  }

  /** A palette with its whole body buffered ignores later input. */
  lemma PlteAppend(p: Splitter, c: seq<byte>)
    requires |p.buffer| >= p.chunkSize
    ensures ReadPLTE(Append(p, c)) == AppendH(ReadPLTE(p), c)
  {
    PrefixReads(p.buffer, c, p.chunkSize);
  }

  /** A transparency chunk with its whole body buffered ignores later input. */
  lemma TrnsAppend(p: Splitter, c: seq<byte>)
    requires |p.buffer| >= p.chunkSize
    ensures ReadTRNS(Append(p, c)) == AppendH(ReadTRNS(p), c)
  {
    PrefixReads(p.buffer, c, p.chunkSize);
  }

  /** A text chunk with its whole body buffered ignores later input. */
  lemma TextAppend(p: Splitter, c: seq<byte>)
    requires |p.buffer| >= p.chunkSize
    ensures ReadTEXT(Append(p, c)) == AppendH(ReadTEXT(p), c)
  {
    PrefixReads(p.buffer, c, p.chunkSize);
  }

  /** An animation control with its whole body buffered ignores later input. */
  lemma ActlAppend(p: Splitter, c: seq<byte>)
    requires |p.buffer| >= p.chunkSize
    ensures ReadACTL(Append(p, c)) == AppendH(ReadACTL(p), c)
  {
    PrefixReads(p.buffer, c, p.chunkSize);
  }

  /** A frame control with its whole body buffered ignores later input. */
  lemma FctlAppend(p: Splitter, c: seq<byte>)
    requires |p.buffer| >= p.chunkSize
    ensures ReadFCTL(Append(p, c)) == AppendH(ReadFCTL(p), c)
  {
    PrefixReads(p.buffer, c, p.chunkSize);
  }

  /** Image data whose remaining body is all buffered ignores later input. */
  lemma IdatAppend(p: Splitter, c: seq<byte>)
    requires Remaining(p) <= |p.buffer|
    ensures ReadIDAT(Append(p, c)) == AppendH(ReadIDAT(p), c)
  {
  }

  /** A skipped body whose remaining bytes are all buffered ignores later input. */
  lemma SkipAppend(p: Splitter, c: seq<byte>)
    requires Remaining(p) <= |p.buffer|
    ensures Skip(Append(p, c)) == AppendH(Skip(p), c)
  {
  }

  /** Dropping the sequence number commutes with appending input. */
  lemma DropNumberAppend(p: Splitter, c: seq<byte>)
    requires |p.buffer| >= 4
    ensures DropNumber(Append(p, c)) == Append(DropNumber(p), c)
  {
    ConsumeAppend(p, 4, c);
  }

  /** A chunk turn whose handler ignores later input commutes with appending it. */
  lemma ChunkCommutes(p: Splitter, c: seq<byte>, x: Handler)
    requires p.phase == InChunk && HandlerFor(p.chunk) == x
    requires Invoke(x, Append(p, c)) == AppendH(Invoke(x, p), c)
    ensures Commutes(p, c)
  {
    TurnOf(p, x);
    TurnOf(Append(p, c), x);
    SettleAppend(Invoke(x, p), c);
  }

  /** Two takes that leave the same state settle alike, up to the events already made. */
  lemma SettleSame(x: Splitter, k1: nat, y: Splitter, k2: nat, ev: seq<Event>)
    requires k1 <= |x.buffer| && k2 <= |y.buffer|
    requires Consume(x, k1).(consumed := x.consumed + k1) == Consume(y, k2).(consumed := y.consumed + k2)
    ensures var r := Settle(Took(k2, y, []));
      Settle(Took(k1, x, ev)) == Transition(r.next, ev + r.events)
  {
    assert ev + [] == ev;
  }

  /** A take leaves the buffer past what it took. */
  lemma SettleBuffer(x: Splitter, k: nat, ev: seq<Event>)
    requires k <= |x.buffer|
    ensures Settle(Took(k, x, ev)).next.buffer == x.buffer[k..]
  { }

  /** The state a take of the whole buffer leaves when the body has not ended. */
  function Drained(a: Splitter): (q: Splitter)
    ensures |q.buffer| == 0 && q.consumed == a.consumed + |a.buffer|
  {
    a.(buffer := [], imageLength := a.imageLength + |a.buffer|, consumed := a.consumed + |a.buffer|)
  }

  /** A take that empties the buffer before the body ends leaves the drained state. */
  lemma TakeAll(a: Splitter, ev: seq<Event>)
    requires a.phase == InChunk && a.consumed + |a.buffer| < a.chunkSize
    ensures Settle(Took(|a.buffer|, a, ev)) == Transition(Drained(a), ev)
  { }

  /** Taking past the old buffer's end reaches what taking from the drained state does. */
  lemma TakeSplits(a: Splitter, c: seq<byte>)
    requires a.consumed + |a.buffer| < a.chunkSize
    ensures var q := Drained(a);
      var k1, k2 := Min(|a.buffer| + |c|, Remaining(a)), Min(|c|, Remaining(q));
      && k1 <= |Append(a, c).buffer| && k2 <= |Append(q, c).buffer|
      && Consume(Append(a, c), k1).(consumed := Append(a, c).consumed + k1)
         == Consume(Append(q, c), k2).(consumed := Append(q, c).consumed + k2)
  {
    var q := Drained(a);
    var k := Min(|c|, Remaining(q));
    assert Min(|a.buffer| + |c|, Remaining(a)) == |a.buffer| + k;
    assert (a.buffer + c)[|a.buffer| + k..] == c[k..] == ([] + c)[k..];
  }

  /**
   * A take that empties the buffer before the body ends, followed by more
   * input: taking from the longer buffer at once does what that take and a
   * second, event-free take of the new input do together.
   */
  lemma TakeMerges(a: Splitter, ev: seq<Event>, c: seq<byte>)
    requires a.phase == InChunk && a.consumed + |a.buffer| < a.chunkSize
    ensures var q := Drained(a);
      var r := Settle(Took(Min(|c|, Remaining(q)), Append(q, c), []));
      Settle(Took(Min(|a.buffer| + |c|, Remaining(a)), Append(a, c), ev)) == Transition(r.next, ev + r.events)
  {
    var q := Drained(a);
    TakeSplits(a, c);
    SettleSame(Append(a, c), Min(|a.buffer| + |c|, Remaining(a)), Append(q, c), Min(|c|, Remaining(q)), ev);
  }

  /** The take after an emptying take, on fresh input, takes something. */
  lemma TakeShrinks(a: Splitter, c: seq<byte>)
    requires a.consumed + |a.buffer| < a.chunkSize && |c| > 0
    ensures var q := Drained(a);
      |Settle(Took(Min(|c|, Remaining(q)), Append(q, c), [])).next.buffer| < |c|
  {
    var q := Drained(a);
    SettleBuffer(Append(q, c), Min(|c|, Remaining(q)), []);
  }

  /**
   * A handler takes the whole buffer of `p`, leaving `a` and emitting `ev`,
   * before the body ends (`h1`); on a longer buffer it takes as much more as
   * the body allows, the same way (`h2`); and on the drained state with the
   * extra input it takes again, emitting nothing (`h3`).
   */
  predicate TakesThrough(p: Splitter, c: seq<byte>, a: Splitter, ev: seq<Event>, h1: Handled, h2: Handled, h3: Handled)
  {
    var q := Drained(a);
    && a.phase == InChunk && a.chunk == p.chunk && a.consumed + |a.buffer| < a.chunkSize
    && |a.buffer| <= |p.buffer|
    && h1 == Took(|a.buffer|, a, ev)
    && h2 == Took(Min(|a.buffer| + |c|, Remaining(a)), Append(a, c), ev)
    && h3 == Took(Min(|c|, Remaining(q)), Append(q, c), [])
  }

  /** A handler that takes through the end of the buffer makes its step merge with the next. */
  lemma MergeOf(p: Splitter, c: seq<byte>, x: Handler, a: Splitter, ev: seq<Event>)
    requires p.phase == InChunk && HandlerFor(p.chunk) == x && |c| > 0
    requires TakesThrough(p, c, a, ev, Invoke(x, p), Invoke(x, Append(p, c)), Invoke(x, Append(Drained(a), c)))
    ensures Merges(p, c)
  {
    var q := Drained(a);
    TakeAll(a, ev);
    TakeMerges(a, ev, c);
    TakeShrinks(a, c);
    TurnOf(p, x);
    TurnOf(Append(p, c), x);
    TurnOf(Append(q, c), x);
  }

  /** Image data that runs out of buffered input before its body ends takes through. */
  lemma IdatTakes(p: Splitter, c: seq<byte>)
    requires p.phase == InChunk && p.consumed + |p.buffer| < p.chunkSize
    ensures var a := ReadIDAT(p).after;
      TakesThrough(p, c, a, ReadIDAT(p).events, ReadIDAT(p), ReadIDAT(Append(p, c)), ReadIDAT(Append(Drained(a), c)))
  {
    var a := if p.sawIDAT then p else p.(sawIDAT := true);
    assert ReadIDAT(p).after == a;
    var q := Drained(a);
    assert q.sawIDAT;
    assert ReadIDAT(Append(q, c)) == Took(Min(|c|, Remaining(q)), Append(q, c), []);
  }

  /** A skipped body that runs out of buffered input before it ends takes through. */
  lemma SkipTakes(p: Splitter, c: seq<byte>)
    requires p.phase == InChunk && p.consumed + |p.buffer| < p.chunkSize
    ensures TakesThrough(p, c, p, [], Skip(p), Skip(Append(p, c)), Skip(Append(Drained(p), c)))
  {
    var pc, qc := Append(p, c), Append(Drained(p), c);
    assert |pc.buffer| == |p.buffer| + |c| && Remaining(pc) == Remaining(p);
    assert |qc.buffer| == |c| && Remaining(qc) == Remaining(Drained(p));
  }

  /** A whole-body chunk with its body buffered commutes with appending input. */
  lemma WholeCommutes(p: Splitter, c: seq<byte>, x: Handler)
    requires p.phase == InChunk && HandlerFor(p.chunk) == x && WholeBody(x)
    requires |p.buffer| >= p.chunkSize
    ensures Commutes(p, c)
  {
    match x {
      case OnPLTE => PlteAppend(p, c);
      case OnTRNS => TrnsAppend(p, c);
      case OnTEXT => TextAppend(p, c);
      case OnACTL => ActlAppend(p, c);
      case OnFCTL => FctlAppend(p, c);
    }
    ChunkCommutes(p, c, x);
  }

  /** An image header turn that makes progress commutes with appending input. */
  lemma IhdrStepAppend(p: Splitter, c: seq<byte>)
    requires p.phase == InChunk && HandlerFor(p.chunk) == OnIHDR && p.consumed <= p.chunkSize
    requires Step(p).next != p
    ensures Commutes(p, c)
  {
    TurnOf(p, OnIHDR);
    if |p.buffer| >= 13 || Remaining(p) == 0 {
      IhdrAppend(p, c);
      ChunkCommutes(p, c, OnIHDR);
    } else {
      IhdrWaits(p);
      assert false;
    }
  }

  /** An image data turn either commutes with appending input or merges with the next. */
  lemma IdatStepAppend(p: Splitter, c: seq<byte>)
    requires p.phase == InChunk && HandlerFor(p.chunk) == OnIDAT && |c| > 0
    ensures Commutes(p, c) || Merges(p, c)
  {
    if Remaining(p) <= |p.buffer| {
      IdatAppend(p, c);
      ChunkCommutes(p, c, OnIDAT);
    } else {
      IdatTakes(p, c);
      MergeOf(p, c, OnIDAT, ReadIDAT(p).after, ReadIDAT(p).events);
    }
  }

  /** A skipped-chunk turn either commutes with appending input or merges with the next. */
  lemma SkipStepAppend(p: Splitter, c: seq<byte>)
    requires p.phase == InChunk && HandlerFor(p.chunk) == OnOther && |c| > 0
    ensures Commutes(p, c) || Merges(p, c)
  {
    if Remaining(p) <= |p.buffer| {
      SkipAppend(p, c);
      ChunkCommutes(p, c, OnOther);
    } else {
      SkipTakes(p, c);
      MergeOf(p, c, OnOther, p, []);
    }
  }

  /** A frame data turn past its sequence number commutes or merges. */
  lemma FdatLaterStepAppend(p: Splitter, c: seq<byte>)
    requires p.phase == InChunk && HandlerFor(p.chunk) == OnFDAT && p.consumed != 0 && |c| > 0
    ensures Commutes(p, c) || Merges(p, c)
  {
    if Remaining(p) <= |p.buffer| {
      FdatContinues(p);
      FdatContinues(Append(p, c));
      IdatAppend(p, c);
      ChunkCommutes(p, c, OnFDAT);
    } else {
      FdatContinues(p);
      FdatContinues(Append(p, c));
      FdatContinues(Append(Drained(ReadIDAT(p).after), c));
      IdatTakes(p, c);
      MergeOf(p, c, OnFDAT, ReadIDAT(p).after, ReadIDAT(p).events);
    }
  }

  /** A frame data turn at its sequence number, once it makes progress, commutes or merges. */
  lemma FdatFirstStepAppend(p: Splitter, c: seq<byte>)
    requires p.phase == InChunk && HandlerFor(p.chunk) == OnFDAT && p.consumed == 0 && |c| > 0
    requires Step(p).next != p
    ensures Commutes(p, c) || Merges(p, c)
  {
    TurnOf(p, OnFDAT);
    if p.chunkSize == 0 {
      assert ReadFDAT(p) == Refused(p, BadChunkSize);
      assert ReadFDAT(Append(p, c)) == Refused(Append(p, c), BadChunkSize);
      ChunkCommutes(p, c, OnFDAT);
    } else if |p.buffer| < 4 {
      FdatWaits(p);
      assert false;
    } else {
      FdatNumberStepAppend(p, c);
    }
  }

  /** A frame data turn that drops its sequence number commutes or merges. */
  lemma FdatNumberStepAppend(p: Splitter, c: seq<byte>)
    requires p.phase == InChunk && HandlerFor(p.chunk) == OnFDAT && p.consumed == 0 && |c| > 0
    requires p.chunkSize > 0 && |p.buffer| >= 4
    ensures Commutes(p, c) || Merges(p, c)
  {
    var s := DropNumber(p);
    if Remaining(s) <= |s.buffer| {
      FdatNumberCommutes(p, c);
    } else {
      FdatNumberMerges(p, c);
    }
  }

  /** Frame data whose rest of body follows its sequence number in the buffer commutes. */
  lemma FdatNumberCommutes(p: Splitter, c: seq<byte>)
    requires p.phase == InChunk && HandlerFor(p.chunk) == OnFDAT && p.consumed == 0
    requires p.chunkSize > 0 && |p.buffer| >= 4
    requires Remaining(DropNumber(p)) <= |DropNumber(p).buffer|
    ensures Commutes(p, c)
  {
    var s := DropNumber(p);
    FdatDropsNumber(p);
    FdatDropsNumber(Append(p, c));
    DropNumberAppend(p, c);
    IdatAppend(s, c);
    assert Invoke(OnFDAT, Append(p, c)) == AppendH(Invoke(OnFDAT, p), c);
    ChunkCommutes(p, c, OnFDAT);
  }

  /** Frame data whose body runs past the buffer after its sequence number merges. */
  lemma FdatNumberMerges(p: Splitter, c: seq<byte>)
    requires p.phase == InChunk && HandlerFor(p.chunk) == OnFDAT && p.consumed == 0 && |c| > 0
    requires p.chunkSize > 0 && |p.buffer| >= 4
    requires Remaining(DropNumber(p)) > |DropNumber(p).buffer|
    ensures Merges(p, c)
  {
    var s := DropNumber(p);
    var a := ReadIDAT(s).after;
    FdatNumberInvokes(p, c);
    IdatTakes(s, c);
    TakesThroughFrom(p, s, c, a, ReadIDAT(s).events,
      ReadIDAT(s), ReadIDAT(Append(s, c)), ReadIDAT(Append(Drained(a), c)));
    MergeOf(p, c, OnFDAT, a, ReadIDAT(s).events);
  }

  /** After its sequence number, an `fdAT` handler acts as image data on each state involved. */
  lemma FdatNumberInvokes(p: Splitter, c: seq<byte>)
    requires p.phase == InChunk && p.consumed == 0 && p.chunkSize > 0 && |p.buffer| >= 4
    ensures var s := DropNumber(p); var a := ReadIDAT(s).after;
      && Invoke(OnFDAT, p) == ReadIDAT(s)
      && Invoke(OnFDAT, Append(p, c)) == ReadIDAT(Append(s, c))
      && Invoke(OnFDAT, Append(Drained(a), c)) == ReadIDAT(Append(Drained(a), c))
  {
    var s := DropNumber(p);
    FdatInvokes(p);
    FdatInvokes(Append(p, c));
    DropNumberAppend(p, c);
    FdatLaterInvokes(Append(Drained(ReadIDAT(s).after), c));
  }

  /** At its start, an `fdAT` handler drops the sequence number and reads image data. */
  lemma FdatInvokes(p: Splitter)
    requires p.phase == InChunk && p.consumed == 0 && p.chunkSize > 0 && |p.buffer| >= 4
    ensures Invoke(OnFDAT, p) == ReadIDAT(DropNumber(p))
  {
    FdatDropsNumber(p);
  }

  /** Past its start, an `fdAT` handler reads image data. */
  lemma FdatLaterInvokes(p: Splitter)
    requires p.phase == InChunk && p.consumed != 0
    ensures Invoke(OnFDAT, p) == ReadIDAT(p)
  {
    FdatContinues(p);
  }

  /** Taking through from a state reached by dropping bytes is taking through from the original. */
  lemma TakesThroughFrom(p: Splitter, s: Splitter, c: seq<byte>, a: Splitter, ev: seq<Event>,
                         h1: Handled, h2: Handled, h3: Handled)
    requires TakesThrough(s, c, a, ev, h1, h2, h3)
    requires s.chunk == p.chunk && |s.buffer| <= |p.buffer|
    ensures TakesThrough(p, c, a, ev, h1, h2, h3)
  { }

  /** A chunk-body turn that makes progress either commutes with appending input or merges. */
  lemma ChunkStepAppend(p: Splitter, c: seq<byte>)
    requires p.phase == InChunk && CursorOk(p) && |c| > 0
    requires Step(p).next != p
    ensures Commutes(p, c) || Merges(p, c)
  {
    var x := HandlerFor(p.chunk);
    if WholeBody(x) {
      if |p.buffer| >= p.chunkSize {
        WholeCommutes(p, c, x);
      } else {
        TurnOf(p, x);
        WaitsForWholeBody(x, p);
        assert false;
      }
    } else if x == OnIHDR {
      IhdrStepAppend(p, c);
    } else if x == OnIDAT {
      IdatStepAppend(p, c);
    } else if x == OnOther {
      SkipStepAppend(p, c);
    } else if p.consumed != 0 {
      FdatLaterStepAppend(p, c);
    } else {
      FdatFirstStepAppend(p, c);
    }
  }

  /** A step that makes progress either commutes with appending input or merges with the next. */
  lemma StepAppend(p: Splitter, c: seq<byte>)
    requires Good(p) && |c| > 0 && Step(p).next != p
    ensures Commutes(p, c) || Merges(p, c)
  {
    match p.phase
    case AwaitSignature =>
      if |p.buffer| >= 8 {
        SignatureCommutes(p, c);
      } else {
        assert false;
      }
    case AwaitHeader =>
      if |p.buffer| >= 8 {
        HeaderCommutes(p, c);
      } else if |p.buffer| + |c| < 8 {
        ShortHeaderCommutes(p, c);
      } else {
        ShortHeaderMerges(p, c);
      }
    case InChunk => ChunkStepAppend(p, c);
    case AwaitCrc =>
      if |p.buffer| >= 4 {
        CrcCommutes(p, c);
      } else {
        assert false;
      }
    case Failed(_) => assert false;
  }

  /** Where the driver loop stops, running it again does nothing. */
  lemma {:induction false} RunRests(p: Splitter)
    ensures Run(Run(p).next) == Transition(Run(p).next, [])
    decreases |p.buffer|, Rank(p)
  {
    if |p.buffer| > 0 && Step(p).next != p {
      StepProgress(p);
      RunRests(Step(p).next);
    }
  }

  /** A run's outcome followed by feeding more input. */
  function Then(t: Transition, c: seq<byte>): (r: Transition)
  {
    var r := Run(Append(t.next, c));
    Transition(r.next, t.events + r.events)
  }

  /** Appending nothing changes nothing. */
  lemma AppendNothing(p: Splitter)
    ensures Append(p, []) == p
  {
    assert p.buffer + [] == p.buffer && p.image + [] == p.image;
  }

  /** Appending twice is appending the concatenation. */
  lemma AppendTwice(p: Splitter, a: seq<byte>, b: seq<byte>)
    ensures Append(Append(p, a), b) == Append(p, a + b)
  {
    assert p.buffer + a + b == p.buffer + (a + b);
    assert p.image + a + b == p.image + (a + b);
  }

  /** Where a step makes progress, the loop takes it and carries on from there. */
  lemma RunTakes(p: Splitter, q: Splitter, ev: seq<Event>)
    requires |p.buffer| > 0 && Step(p) == Transition(q, ev) && q != p
    ensures Run(p) == Transition(Run(q).next, ev + Run(q).events)
  { }

  /** A step that commutes with appending input lets the loop carry on from there. */
  lemma RunCommutes(p: Splitter, c: seq<byte>, q: Splitter, ev: seq<Event>)
    requires |p.buffer| > 0 && q != p
    requires Step(Append(p, c)) == Transition(Append(q, c), ev)
    ensures var rc := Run(Append(q, c));
      Run(Append(p, c)) == Transition(rc.next, ev + rc.events)
  {
    if Append(q, c) == Append(p, c) {
      AppendInjective(q, p, c);
    }
    RunTakes(Append(p, c), Append(q, c), ev);
  }

  /** Two outcomes that end in the same third one, the first through the second. */
  lemma RunChain(tx: Transition, ty: Transition, tz: Transition, ev: seq<Event>, rev: seq<Event>)
    requires ty == Transition(tz.next, rev + tz.events)
    requires tx == Transition(tz.next, ev + rev + tz.events)
    ensures tx == Transition(ty.next, ev + ty.events)
  {
    assert ev + rev + tz.events == ev + (rev + tz.events);
  }

  /** A step that merges with the next lets the loop carry on from where the shorter buffer left it. */
  lemma RunMerges(p: Splitter, c: seq<byte>, q: Splitter, ev: seq<Event>, r: Transition)
    requires |c| > 0 && r == Step(Append(q, c))
    requires Step(Append(p, c)) == Transition(r.next, ev + r.events)
    requires r.next != Append(q, c) && r.next != Append(p, c)
    ensures var rc := Run(Append(q, c));
      Run(Append(p, c)) == Transition(rc.next, ev + rc.events)
  {
    RunTakes(Append(q, c), r.next, r.events);
    RunTakes(Append(p, c), r.next, ev + r.events);
    RunChain(Run(Append(p, c)), Run(Append(q, c)), Run(r.next), ev, r.events);
  }

  /**
   * After a step that makes progress, the loop on the longer buffer is that
   * step followed by the loop on what it left, with the extra input appended.
   */
  lemma RunAppendStep(p: Splitter, c: seq<byte>)
    requires Good(p) && |p.buffer| > 0 && |c| > 0 && Step(p).next != p
    ensures var t := Step(p); var rc := Run(Append(t.next, c));
      Run(Append(p, c)) == Transition(rc.next, t.events + rc.events)
  {
    var t := Step(p);
    StepAppend(p, c);
    if Commutes(p, c) {
      RunCommutes(p, c, t.next, t.events);
    } else {
      RunMerges(p, c, t.next, t.events, Step(Append(t.next, c)));
    }
  }

  /** Where the loop stops at once, it emits nothing and leaves the state alone. */
  lemma RunStops(p: Splitter)
    requires |p.buffer| == 0 || Step(p).next == p
    ensures Run(p) == Transition(p, [])
  { }

  /** Feeding nothing after a run that has come to rest adds nothing. */
  lemma ThenNothing(t: Transition)
    requires Run(t.next) == Transition(t.next, [])
    ensures Then(t, []) == t
  {
    AppendNothing(t.next);
    assert t.events + [] == t.events;
  }

  /** Feeding input to a state at rest is running on it. */
  lemma ThenFromRest(p: Splitter, c: seq<byte>)
    ensures Then(Transition(p, []), c) == Run(Append(p, c))
  {
    var r := Run(Append(p, c));
    assert [] + r.events == r.events;
  }

  /** A step's events, put in front of a run and what follows it. */
  lemma ThenChain(tp: Transition, tq: Transition, ev: seq<Event>, r: Transition, x: Transition, y: Transition)
    requires tp == Transition(tq.next, ev + tq.events)
    requires y == Transition(r.next, tq.events + r.events)
    requires x == Transition(y.next, ev + y.events)
    ensures x == Transition(r.next, tp.events + r.events)
  {
    assert ev + (tq.events + r.events) == ev + tq.events + r.events;
  }

  /**
   * Input appended before the loop runs gives what running first and then
   * feeding that input gives.
   */
  lemma {:induction false} RunAppend(p: Splitter, c: seq<byte>)
    requires Good(p)
    ensures Run(Append(p, c)) == Then(Run(p), c)
    decreases |p.buffer|, Rank(p)
  {
    if |c| == 0 {
      AppendNothing(p);
      RunRests(p);
      ThenNothing(Run(p));
    } else if |p.buffer| == 0 || Step(p).next == p {
      RunStops(p);
      ThenFromRest(p, c);
    } else {
      var t := Step(p);
      var q := t.next;
      StepProgress(p);
      StepKeepsGood(p);
      RunAppend(q, c);
      RunAppendStep(p, c);
      RunTakes(p, q, t.events);
      ThenChain(Run(p), Run(q), t.events, Run(Append(Run(q).next, c)), Run(Append(p, c)), Run(Append(q, c)));
    }
  }

  /** Two writes fed one after the other act like their concatenation fed at once. */
  lemma FeedSplit(p: Splitter, a: seq<byte>, b: seq<byte>)
    requires Good(p)
    ensures Feed(p, a + b) == Then(Feed(p, a), b)
  {
    AppendTwice(p, a, b);
    AppendKeepsGood(p, a);
    RunAppend(Append(p, a), b);
  }

  /**
   * From a resting state that keeps the invariant, feeding a sequence of
   * writes one by one emits the same events and reaches the same state as
   * feeding their concatenation in one write.
   */
  lemma {:induction false} ChunkingIrrelevant(p: Splitter, writes: seq<seq<byte>>)
    requires Good(p) && Run(p) == Transition(p, [])
    ensures FeedAll(p, writes) == Feed(p, Concat(writes))
    decreases |writes|
  {
    if |writes| == 0 {
      AppendNothing(p);
    } else {
      var t := Feed(p, writes[0]);
      FeedKeepsGood(p, writes[0]);
      RunRests(Append(p, writes[0]));
      ChunkingIrrelevant(t.next, writes[1..]);
      FeedSplit(p, writes[0], Concat(writes[1..]));
    }
  }

  /** A fresh splitter's output does not depend on how its input is split into writes. */
  lemma SplitAnywhere(indexed: bool, writes: seq<seq<byte>>)
    ensures FeedAll(Init(indexed), writes) == Feed(Init(indexed), Concat(writes))
  {
    InitGood(indexed);
    ChunkingIrrelevant(Init(indexed), writes);
  }
}
