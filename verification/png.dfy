/**
 * The pieces of the PNG format (W3C PNG Specification, Second Edition) and of
 * its APNG extension that the splitter interprets: the signature, the colour
 * type table of the image header, text entries, and the animation records.
 */
module Png {
  import opened Options
  import opened Bytes

  /** The eight signature bytes that open every PNG datastream (section 5.2). */
  const SIGNATURE: seq<byte> := [0x89, 0x50, 0x4E, 0x47, 0x0D, 0x0A, 0x1A, 0x0A]

  /** Colour type codes of the image header (section 11.2.2). */
  const COLOR_GRAY: byte := 0
  const COLOR_RGB: byte := 2
  const COLOR_INDEXED: byte := 3
  const COLOR_GRAYA: byte := 4
  const COLOR_RGBA: byte := 6

  /** How downstream consumers should interpret pixels. */
  datatype ColorSpace = Gray | GrayAlpha | Rgb | Rgba | Indexed

  /** Samples per pixel together with the colour space reported for them. */
  datatype ColorModel = ColorModel(colors: nat, space: ColorSpace)

  /**
   * The splitter's colour type table. An indexed image is reported as
   * `Indexed` only when the `indexed` option is set, and as `Rgb` otherwise.
   */
  function ColorModelOf(code: byte, indexed: bool): (r: Option<ColorModel>)
  {
    if code == COLOR_INDEXED then Some(ColorModel(1, if indexed then Indexed else Rgb))
    else if code == COLOR_GRAY then Some(ColorModel(1, Gray))
    else if code == COLOR_GRAYA then Some(ColorModel(2, GrayAlpha))
    else if code == COLOR_RGB then Some(ColorModel(3, Rgb))
    else if code == COLOR_RGBA then Some(ColorModel(4, Rgba))
    else None
  }

  /** Flag bits of a colour type code: palette used (1), truecolour (2), alpha (4). */
  predicate PaletteBit(code: byte) { code % 2 == 1 }
  predicate ColorBit(code: byte) { (code / 2) % 2 == 1 }
  predicate AlphaBit(code: byte) { (code / 4) % 2 == 1 }

  /** The colour types the PNG standard permits: a palette needs truecolour and excludes alpha. */
  predicate ValidColorType(code: byte)
  {
    code < 8 && (PaletteBit(code) ==> ColorBit(code) && !AlphaBit(code))
  }

  /** Samples per pixel derived from the flag bits. */
  function SamplesOf(code: byte): (n: nat)
  {
    if PaletteBit(code) then 1
    else (if ColorBit(code) then 3 else 1) + (if AlphaBit(code) then 1 else 0)
  }

  /** Colour space derived from the flag bits. */
  function SpaceOf(code: byte, indexed: bool): (r: ColorSpace)
  {
    if PaletteBit(code) then (if indexed then Indexed else Rgb)
    else if ColorBit(code) then (if AlphaBit(code) then Rgba else Rgb)
    else if AlphaBit(code) then GrayAlpha
    else Gray
  }

  /**
   * The splitter's table agrees with the flag-bit reading of the standard:
   * it accepts exactly the permitted codes and gives each its sample count.
   */
  lemma ColorModelMatchesFlags(code: byte, indexed: bool)
    ensures ColorModelOf(code, indexed).Some? <==> ValidColorType(code)
    ensures ValidColorType(code) ==>
      ColorModelOf(code, indexed) == Some(ColorModel(SamplesOf(code), SpaceOf(code, indexed)))
  {
    if code >= 8 {
      assert ColorModelOf(code, indexed).None?;
    }
  }

  /**
   * Bytes per pixel as the splitter computes them: whole bytes for pixels of
   * at least eight bits, one byte for narrower pixels.
   */
  function PixelBytes(pixelBits: nat): (n: nat)
  {
    if pixelBits >= 8 then pixelBits / 8 else (pixelBits + 7) / 8
  }

  /** The bit depths the PNG standard permits for each colour type (section 11.2.2). */
  predicate AllowedDepth(code: byte, bits: byte)
  {
    if code == COLOR_GRAY then bits in {1, 2, 4, 8, 16}
    else if code == COLOR_INDEXED then bits in {1, 2, 4, 8}
    else bits in {8, 16}
  }

  /**
   * For every permitted colour type and bit depth, the splitter's pixel size is
   * the smallest whole number of bytes that holds one pixel.
   */
  lemma PixelBytesIsCeiling(code: byte, bits: byte, indexed: bool)
    requires ColorModelOf(code, indexed).Some? && AllowedDepth(code, bits)
    ensures var n := bits * ColorModelOf(code, indexed).value.colors;
      PixelBytes(n) * 8 >= n && (PixelBytes(n) - 1) * 8 < n
  {
  }

  /** An APNG loop count; the value 0 in the file means "loop forever". */
  datatype Repeat = Finite(count: nat) | Infinite

  /** The loop count stored in an `acTL` field. */
  function RepeatOf(field: nat): (r: Repeat)
    ensures r.Infinite? <==> field == 0
    ensures r.Finite? ==> r.count == field
  {
    if field == 0 then Infinite else Finite(field)
  }

  /**
   * The format record published before the first image data: everything
   * optional is absent until the chunk that sets it has been seen.
   */
  datatype Format = Format(
    width: Option<nat>,
    height: Option<nat>,
    colorSpace: Option<ColorSpace>,
    palette: Option<seq<byte>>,
    alphaPalette: Option<seq<byte>>,
    animated: bool,
    numFrames: nat,
    repeatCount: Repeat)

  /** The format record a fresh splitter starts from. */
  const INITIAL_FORMAT: Format := Format(None, None, None, None, None, false, 1, Finite(0))

  /**
   * One APNG frame descriptor. The delay is kept as the fraction
   * `delayNum / delayDen` seconds, with the denominator already defaulted.
   */
  datatype Frame = Frame(
    width: nat, height: nat, x: nat, y: nat,
    delayNum: nat, delayDen: nat,
    disposeOp: byte, blendOp: byte)

  /** Length of the `fcTL` fields the splitter reads. */
  const FCTL_LENGTH: nat := 26

  /** Length of the `acTL` fields the splitter reads. */
  const ACTL_LENGTH: nat := 8

  /** The frame descriptor read from an `fcTL` body (the sequence number at 0..4 is skipped). */
  function DecodeFrame(d: seq<byte>): (f: Frame)
    requires |d| >= FCTL_LENGTH
    ensures f.delayDen > 0
  {
    var den := U16(d, 22);
    Frame(U32(d, 4), U32(d, 8), U32(d, 12), U32(d, 16),
          U16(d, 20), if den == 0 then 100 else den,
          d[24], d[25])
  }

  /** An `fcTL` body as the APNG extension lays it out. */
  function EncodeFrameControl(sequence: nat, w: nat, h: nat, x: nat, y: nat,
                              num: nat, den: nat, dispose: byte, blend: byte): (d: seq<byte>)
    requires sequence < 0x1_0000_0000 && w < 0x1_0000_0000 && h < 0x1_0000_0000
    requires x < 0x1_0000_0000 && y < 0x1_0000_0000 && num < 0x1_0000 && den < 0x1_0000
    ensures |d| == FCTL_LENGTH
  {
    BE32(sequence) + BE32(w) + BE32(h) + BE32(x) + BE32(y) + BE16(num) + BE16(den) + [dispose, blend]
  }

  /**
   * Decoding an encoded frame control gives back every field, except that a
   * zero delay denominator is read as 100.
   */
  lemma DecodeFrameOfEncode(sequence: nat, w: nat, h: nat, x: nat, y: nat,
                            num: nat, den: nat, dispose: byte, blend: byte)
    requires sequence < 0x1_0000_0000 && w < 0x1_0000_0000 && h < 0x1_0000_0000
    requires x < 0x1_0000_0000 && y < 0x1_0000_0000 && num < 0x1_0000 && den < 0x1_0000
    ensures DecodeFrame(EncodeFrameControl(sequence, w, h, x, y, num, den, dispose, blend))
         == Frame(w, h, x, y, num, if den == 0 then 100 else den, dispose, blend)
  {
    var d := EncodeFrameControl(sequence, w, h, x, y, num, den, dispose, blend);
    U32At(d, 4, w);
    U32At(d, 8, h);
    U32At(d, 12, x);
    U32At(d, 16, y);
    U16At(d, 20, num);
    U16At(d, 22, den);
  }

  /** A frame descriptor is read from the first 26 bytes only. */
  lemma FrameOfPrefix(d: seq<byte>)
    requires |d| >= FCTL_LENGTH
    ensures DecodeFrame(d) == DecodeFrame(d[..FCTL_LENGTH])
  {
  }

  /** A big-endian 32-bit field written at `i` reads back at `i`. */
  lemma U32At(d: seq<byte>, i: nat, v: nat)
    requires v < 0x1_0000_0000 && i + 4 <= |d| && d[i..i + 4] == BE32(v)
    ensures U32(d, i) == v
  {
    U32OfBE32(v);
    assert U32(d, i) == U32(d[i..i + 4], 0);
  }

  /** A big-endian 16-bit field written at `i` reads back at `i`. */
  lemma U16At(d: seq<byte>, i: nat, v: nat)
    requires v < 0x1_0000 && i + 2 <= |d| && d[i..i + 2] == BE16(v)
    ensures U16(d, i) == v
  {
    U16OfBE16(v);
    assert U16(d, i) == U16(d[i..i + 2], 0);
  }

  /** Index of the first zero byte of `s`, if any. */
  function FirstZero(s: seq<byte>): (r: Option<nat>)
    ensures r.Some? ==> r.value < |s| && s[r.value] == 0
    ensures r.Some? ==> forall j :: 0 <= j < r.value ==> s[j] != 0
    ensures r.None? ==> forall j :: 0 <= j < |s| ==> s[j] != 0
    decreases |s|
  {
    if |s| == 0 then None
    else if s[0] == 0 then Some(0)
    else match FirstZero(s[1..])
      case None => None
      case Some(i) => Some(i + 1)
  }

  /** A `tEXt` keyword and its text. */
  datatype TextEntry = TextEntry(key: string, value: string)

  /**
   * The entry of a `tEXt` body: the keyword runs up to the first zero byte and
   * the text follows it; a body without a zero byte carries no entry.
   */
  function SplitText(body: seq<byte>): (r: Option<TextEntry>)
  {
    match FirstZero(body)
    case None => None
    case Some(i) => Some(TextEntry(Ascii(body[..i]), Ascii(body[i + 1..])))
  }

  /** A `tEXt` body as the PNG standard lays it out (section 11.3.4.3). */
  function EncodeText(key: string, value: string): (body: seq<byte>)
    requires SevenBit(key) && SevenBit(value)
    ensures |body| == |key| + 1 + |value|
  {
    AsciiBytes(key) + [0] + AsciiBytes(value)
  }

  /** A keyword without the zero character. */
  predicate Keyword(key: string)
  {
    SevenBit(key) && forall i :: 0 <= i < |key| ==> key[i] != 0 as char
  }

  /** Splitting an encoded text body recovers its keyword and its text. */
  lemma SplitTextOfEncode(key: string, value: string)
    requires Keyword(key) && SevenBit(value)
    ensures SplitText(EncodeText(key, value)) == Some(TextEntry(key, value))
  {
    var body := EncodeText(key, value);
    var k := AsciiBytes(key);
    assert body[..|key|] == k;
    assert body[|key| + 1..] == AsciiBytes(value);
    forall j | 0 <= j < |key|
      ensures body[j] != 0
    {
      assert body[j] == k[j] == key[j] as int;
    }
    assert body[|key|] == 0;
    assert FirstZero(body) == Some(|key|);
    AsciiOfAsciiBytes(key);
    AsciiOfAsciiBytes(value);
  }

  /** Splitting finds an entry exactly when the body holds a zero byte. */
  lemma SplitTextNeedsZero(body: seq<byte>)
    ensures SplitText(body).Some? <==> exists i :: 0 <= i < |body| && body[i] == 0
  {
    if FirstZero(body).Some? {
      var i := FirstZero(body).value;
      assert body[i] == 0;
    }
  }
}
