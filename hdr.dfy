/**
 * parseHDR of gltfLoader.js: the Radiance RGBE (.hdr) decoder. A text header of
 * newline-separated lines names the format and, on its resolution line, the height and
 * width; each scanline then starts with the bytes 2, 2 and a big-endian width, followed by
 * the four channels (r, g, b, exponent) one after the other, each run-length encoded.
 *
 * The pure functions below are the specification; the methods are the parser itself, with
 * its cursor `ptr`, its `scanline` byte buffer and its `data` output buffer filled through
 * `offset`, and each method is proved to compute what its specification function says.
 */
module Hdr {
  import opened Common

  /** Why a file is rejected. The JavaScript throws for the first three and for BadDimensions
    * (a RangeError from a typed-array constructor), and loops or reads `undefined` for the
    * others; see HeaderNeverEnds and Truncated in the README. */
  datatype HdrError =
    | UnsupportedFormat(format: seq<byte>)
    | InvalidRleHeader
    | WidthMismatch
    | HeaderNeverEnds
    | BadDimensions
    | Truncated

  /** The outcome of one stage of decoding: the values produced and the cursor after them. */
  datatype Step<T> = Fail(err: HdrError) | Done(vals: seq<T>, next: nat)

  /** Prepends what was decoded before to the outcome of the rest. */
  function Glue<T>(pre: seq<T>, r: Step<T>): Step<T> {
    match r
    case Fail(e) => Fail(e)
    case Done(vals, next) => Done(pre + vals, next)
  }

  /** What the parser's methods return for a stage: the error, or the cursor after it. */
  function Cursor<T>(r: Step<T>): Result<nat, HdrError> {
    match r
    case Fail(e) => Err(e)
    case Done(_, next) => Ok(next)
  }

  lemma GlueNil<T>(r: Step<T>)
    ensures Glue([], r) == r
  {
    if r.Done? {
      assert [] + r.vals == r.vals;
    }
  }

  lemma GlueGlue<T>(a: seq<T>, b: seq<T>, r: Step<T>)
    ensures Glue(a, Glue(b, r)) == Glue(a + b, r)
  {
    if r.Done? {
      assert a + (b + r.vals) == (a + b) + r.vals;
    }
  }

  // ---- Text of the header ----

  function Ascii(s: string): seq<byte>
    requires forall k :: 0 <= k < |s| ==> s[k] as int < 256
  {
    seq(|s|, k requires 0 <= k < |s| => s[k] as int)
  }

  const Newline: byte := 0x0A
  const Space: byte := 0x20
  const FormatTag: seq<byte> := Ascii("FORMAT=32-bit_rle_rgbe")
  const FormatPrefix: seq<byte> := Ascii("FORMAT=")

  predicate StartsWith(s: seq<byte>, prefix: seq<byte>) {
    |prefix| <= |s| && s[..|prefix|] == prefix
  }

  /** A resolution line starts with -Y or +Y. */
  predicate IsResolution(line: seq<byte>) {
    |line| >= 2 && (line[0] == '-' as int || line[0] == '+' as int) && line[1] == 'Y' as int
  }

  /**
   * readLine: the bytes from ptr up to the next newline, and the cursor just past that
   * newline (or at the end of the input when there is none).
   */
  function LineAt(bytes: seq<byte>, ptr: nat): (r: (seq<byte>, nat))
    requires ptr <= |bytes|
    ensures ptr + |r.0| <= |bytes| && r.0 == bytes[ptr..ptr + |r.0|] && Newline !in r.0
    ensures ptr + |r.0| == |bytes| ==> r.1 == |bytes|
    ensures ptr + |r.0| < |bytes| ==> bytes[ptr + |r.0|] == Newline && r.1 == ptr + |r.0| + 1
    decreases |bytes| - ptr
  {
    if ptr == |bytes| then ([], ptr)
    else if bytes[ptr] == Newline then ([], ptr + 1)
    else
      var rest := LineAt(bytes, ptr + 1);
      ([bytes[ptr]] + rest.0, rest.1)
  }

  /** The whitespace JavaScript's trim and parseInt skip, among one-byte character codes. */
  predicate IsSpace(b: byte) {
    b == 9 || b == 10 || b == 11 || b == 12 || b == 13 || b == 32 || b == 160
  }

  function TrimStart(s: seq<byte>): (r: seq<byte>)
    ensures |r| <= |s| && r == s[|s| - |r|..]
    ensures forall k :: 0 <= k < |s| - |r| ==> IsSpace(s[k])
    ensures |r| == 0 || !IsSpace(r[0])
  {
    if |s| > 0 && IsSpace(s[0]) then TrimStart(s[1..]) else s
  }

  function TrimEnd(s: seq<byte>): (r: seq<byte>)
    ensures |r| <= |s| && r == s[..|r|]
    ensures forall k :: |r| <= k < |s| ==> IsSpace(s[k])
    ensures |r| == 0 || !IsSpace(r[|r| - 1])
  {
    if |s| > 0 && IsSpace(s[|s| - 1]) then TrimEnd(s[..|s| - 1]) else s
  }

  /** String.prototype.trim. */
  function Trim(s: seq<byte>): seq<byte> {
    TrimEnd(TrimStart(s))
  }

  /** String.prototype.split with a one-character separator. */
  function Split(s: seq<byte>, sep: byte): (r: seq<seq<byte>>)
    ensures |r| >= 1
    ensures forall k :: 0 <= k < |r| ==> sep !in r[k]
  {
    if |s| == 0 then [[]]
    else
      var rest := Split(s[1..], sep);
      if s[0] == sep then [[]] + rest
      else [[s[0]] + rest[0]] + rest[1..]
  }

  /** The inverse of Split: the parts with the separator between them. */
  function Join(parts: seq<seq<byte>>, sep: byte): seq<byte>
    requires |parts| >= 1
  {
    if |parts| == 1 then parts[0] else parts[0] + [sep] + Join(parts[1..], sep)
  }

  predicate IsDigit(b: byte) {
    48 <= b <= 57
  }

  /** Length of the longest prefix of decimal digits. */
  function DigitRun(s: seq<byte>): (n: nat)
    ensures n <= |s| && forall k :: 0 <= k < n ==> IsDigit(s[k])
    ensures n == |s| || !IsDigit(s[n])
  {
    if |s| > 0 && IsDigit(s[0]) then 1 + DigitRun(s[1..]) else 0
  }

  function DecimalValue(d: seq<byte>): nat
    requires forall k :: 0 <= k < |d| ==> IsDigit(d[k])
  {
    if |d| == 0 then 0
    else
      assert IsDigit(d[|d| - 1]);
      DecimalValue(d[..|d| - 1]) * 10 + (d[|d| - 1] - 48)
  }

  /** parseInt(s, 10); None is NaN. */
  function ParseInt(s: seq<byte>): Option<int> {
    var t := TrimStart(s);
    var signed := |t| > 0 && (t[0] == '-' as int || t[0] == '+' as int);
    var u := if signed then t[1..] else t;
    var n := DigitRun(u);
    if n == 0 then None
    else
      var v: int := DecimalValue(u[..n]);
      if signed && t[0] == '-' as int then Some(-v) else Some(v)
  }

  /** The decimal digits of k, without leading zeros: the partner of ParseInt. */
  function Decimal(k: nat): (r: seq<byte>)
    ensures |r| >= 1 && forall j :: 0 <= j < |r| ==> IsDigit(r[j])
  {
    if k < 10 then [48 + k] else Decimal(k / 10) + [48 + k % 10]
  }

  /** parts[k] given to parseInt: NaN (None) when the part is missing. */
  function PartInt(parts: seq<seq<byte>>, k: nat): Option<int> {
    if k < |parts| then ParseInt(parts[k]) else None
  }

  /** What the header loop leaves behind: the last FORMAT= line (trimmed), the height and width
    * parsed from the resolution line, and the cursor after it. */
  datatype Header = Header(format: seq<byte>, height: Option<int>, width: Option<int>, next: nat)

  /**
   * The header loop from cursor ptr, with `format` the last FORMAT= line seen so far.
   * Comment lines and empty lines are skipped; the first resolution line ends the header,
   * its second part being the height and its fourth the width. At the end of the input
   * readLine keeps returning the empty line and the JavaScript loop never ends.
   */
  function HeaderFrom(bytes: seq<byte>, ptr: nat, format: seq<byte>): (r: Result<Header, HdrError>)
    requires ptr <= |bytes|
    ensures r.Ok? ==> ptr < r.value.next <= |bytes|
    decreases |bytes| - ptr
  {
    if ptr == |bytes| then Err(HeaderNeverEnds)
    else
      var (line, next) := LineAt(bytes, ptr);
      if StartsWith(line, ['#' as int]) || line == [] then HeaderFrom(bytes, next, format)
      else
        var format' := if StartsWith(line, FormatPrefix) then Trim(line) else format;
        if IsResolution(line) then
          var parts := Split(Trim(line), Space);
          Ok(Header(format', PartInt(parts, 1), PartInt(parts, 3), next))
        else HeaderFrom(bytes, next, format')
  }

  // ---- Scanlines ----

  function Repeat(v: byte, n: nat): (r: seq<byte>)
    ensures |r| == n && forall k :: 0 <= k < n ==> r[k] == v
  {
    if n == 0 then [] else Repeat(v, n - 1) + [v]
  }

  /**
   * One run-length packet at ptr: a count above 128 repeats the next byte count - 128 times,
   * any other count is followed by that many literal bytes (0 of them for count 0).
   */
  function PacketAt(bytes: seq<byte>, ptr: nat): (r: Step<byte>)
    requires ptr < |bytes|
    ensures r.Done? ==> ptr < r.next <= |bytes|
  {
    var count := bytes[ptr];
    if count > 128 then
      if ptr + 1 < |bytes| then Done(Repeat(bytes[ptr + 1], count - 128), ptr + 2)
      else Fail(Truncated)
    else if ptr + 1 + count <= |bytes| then Done(bytes[ptr + 1..ptr + 1 + count], ptr + 1 + count)
    else Fail(Truncated)
  }

  /**
   * One channel of a scanline: packets are decoded while fewer than `need` values have been
   * produced. Values past the width land outside the scanline buffer and are dropped by the
   * caller; the result keeps them so that a packet is never cut.
   */
  function Runs(bytes: seq<byte>, ptr: nat, need: int): (r: Step<byte>)
    requires ptr <= |bytes|
    ensures r.Done? ==> |r.vals| >= need && ptr <= r.next <= |bytes|
    decreases need, |bytes| - ptr
  {
    if need <= 0 then Done([], ptr)
    else if ptr == |bytes| then Fail(Truncated)
    else
      match PacketAt(bytes, ptr)
      case Fail(e) => Fail(e)
      case Done(vals, next) => Glue(vals, Runs(bytes, next, need - |vals|))
  }

  /** The last `n` of the four channels of a scanline, each decoded by Runs in turn. */
  function Channels(bytes: seq<byte>, ptr: nat, width: nat, n: nat): (r: Step<seq<byte>>)
    requires ptr <= |bytes|
    ensures r.Done? ==> ptr <= r.next <= |bytes|
    decreases n
  {
    if n == 0 then Done([], ptr)
    else
      match Runs(bytes, ptr, width)
      case Fail(e) => Fail(e)
      case Done(vals, next) => Glue([vals], Channels(bytes, next, width, n - 1))
  }

  /** A scanline: the marker bytes 2, 2, the big-endian 16-bit width, then four channels. */
  function Scanline(bytes: seq<byte>, ptr: nat, width: nat): (r: Step<seq<byte>>)
    requires ptr <= |bytes|
    ensures r.Done? ==> ptr + 4 <= r.next <= |bytes|
  {
    if ptr + 2 > |bytes| || bytes[ptr] != 2 || bytes[ptr + 1] != 2 then Fail(InvalidRleHeader)
    else if ptr + 4 > |bytes| || (bytes[ptr + 2] as int) * 256 + bytes[ptr + 3] as int != width then Fail(WidthMismatch)
    else Channels(bytes, ptr + 4, width, 4)
  }

  /** Every decoded channel list holds n channels of at least `width` values each. */
  lemma {:induction false} ChannelsShape(bytes: seq<byte>, ptr: nat, width: nat, n: nat)
    requires ptr <= |bytes|
    ensures var r := Channels(bytes, ptr, width, n);
      r.Done? ==> |r.vals| == n && forall c :: 0 <= c < n ==> |r.vals[c]| >= width
    decreases n
  {
    var r := Channels(bytes, ptr, width, n);
    if n > 0 && r.Done? {
      var p := Runs(bytes, ptr, width);
      ChannelsShape(bytes, p.next, width, n - 1);
      assert r.vals == [p.vals] + Channels(bytes, p.next, width, n - 1).vals;
    }
  }

  /** A decoded scanline has the four channels r, g, b, e, each covering the whole width. */
  lemma ScanlineShape(bytes: seq<byte>, ptr: nat, width: nat)
    requires ptr <= |bytes|
    ensures var r := Scanline(bytes, ptr, width);
      r.Done? ==> |r.vals| == 4 && forall c :: 0 <= c < 4 ==> |r.vals[c]| >= width
  {
    if ptr + 4 <= |bytes| {
      ChannelsShape(bytes, ptr + 4, width, 4);
    }
  }

  /** One channel of an RGBE pixel: mantissa times 2^(e - 136), or 0 when e is 0. */
  function Radiance(m: byte, e: byte): real {
    if e > 0 then (m as real) * Pow2(e as int - 136) else 0.0
  }

  /** A decoded value is never negative, and it is zero exactly when the mantissa or the exponent is. */
  lemma RadianceSign(m: byte, e: byte)
    ensures Radiance(m, e) >= 0.0
    ensures Radiance(m, e) == 0.0 <==> m == 0 || e == 0
  {
    if e > 0 {
      var f := Pow2(e as int - 136);
      assert f > 0.0;
      if m > 0 {
        assert (m as real) * f > 0.0;
      }
    }
  }

  /** Channel c of pixel x of a decoded scanline (0 where a channel is too short, which ScanlineShape rules out). */
  function Chan(chans: seq<seq<byte>>, c: nat, x: nat): byte {
    if c < |chans| && x < |chans[c]| then chans[c][x] else 0
  }

  /** The red, green and blue values of pixel x. */
  function Pixel(chans: seq<seq<byte>>, x: nat): seq<real> {
    var e := Chan(chans, 3, x);
    [Radiance(Chan(chans, 0, x), e), Radiance(Chan(chans, 1, x), e), Radiance(Chan(chans, 2, x), e)]
  }

  /** The red, green and blue values of the first x pixels of a decoded scanline. */
  function RowPixels(chans: seq<seq<byte>>, x: nat): (r: seq<real>)
    ensures |r| == 3 * x
  {
    if x == 0 then [] else RowPixels(chans, x - 1) + Pixel(chans, x - 1)
  }

  /** The decoded channels of the last n scanlines, one entry of four channels per scanline. */
  function Lines(bytes: seq<byte>, ptr: nat, width: nat, n: nat): (r: Step<seq<seq<byte>>>)
    requires ptr <= |bytes|
    ensures r.Done? ==> |r.vals| == n && ptr <= r.next <= |bytes|
    decreases n
  {
    if n == 0 then Done([], ptr)
    else
      match Scanline(bytes, ptr, width)
      case Fail(e) => Fail(e)
      case Done(chans, next) => Glue([chans], Lines(bytes, next, width, n - 1))
  }

  /** The pixels of decoded scanlines: three floats per pixel, scanline after scanline. */
  function Pixels(lines: seq<seq<seq<byte>>>, width: nat): seq<real> {
    if |lines| == 0 then [] else Pixels(lines[..|lines| - 1], width) + RowPixels(lines[|lines| - 1], width)
  }

  /** w * n as repeated addition: the size of n rows of width w. */
  function Area(w: nat, n: nat): nat {
    if n == 0 then 0 else Area(w, n - 1) + w
  }

  lemma {:induction false} AreaIsProduct(w: nat, n: nat)
    ensures Area(w, n) == w * n
  {
    if n > 0 {
      AreaIsProduct(w, n - 1);
      assert w * n == w * (n - 1) + w;
    }
  }

  lemma {:induction false} AreaMono(w: nat, a: nat, b: nat)
    requires a <= b
    ensures Area(w, a) <= Area(w, b)
    decreases b
  {
    if a < b {
      AreaMono(w, a, b - 1);
    }
  }

  /** Every scanline contributes three values per pixel. */
  lemma {:induction false} PixelsLength(lines: seq<seq<seq<byte>>>, width: nat)
    ensures |Pixels(lines, width)| == 3 * Area(width, |lines|)
    decreases |lines|
  {
    if |lines| > 0 {
      PixelsLength(lines[..|lines| - 1], width);
    }
  }

  /** One more scanline appends its pixels. */
  lemma PixelsSnoc(lines: seq<seq<seq<byte>>>, chans: seq<seq<byte>>, width: nat)
    ensures Pixels(lines + [chans], width) == Pixels(lines, width) + RowPixels(chans, width)
  {
    assert (lines + [chans])[..|lines|] == lines;
  }

  /** What parseHDR returns; a dimension parseInt could not read is NaN (None). */
  datatype Image = Image(width: Option<int>, height: Option<int>, pixels: seq<real>)

  /** `a * b` on numbers that may be NaN (None). */
  function Times(a: Option<int>, b: int): Option<int> {
    if a.None? then None else Some(a.value * b)
  }

  function Product(a: Option<int>, b: Option<int>): Option<int> {
    if a.None? || b.None? then None else Some(a.value * b.value)
  }

  /**
   * The length a typed-array constructor makes of a number: NaN gives 0, a negative number
   * throws a RangeError (None), and -0 is 0, as the integer product gives.
   */
  function ArrayLength(n: Option<int>): (r: Option<nat>)
    ensures r.None? <==> n.Some? && n.value < 0
  {
    if n.None? then Some(0) else if n.value < 0 then None else Some(n.value)
  }

  /**
   * The first scanline when the width is NaN: its marker is checked, and then no scanline
   * width equals NaN.
   */
  function NanWidthRow(bytes: seq<byte>, ptr: nat): HdrError {
    if ptr + 2 > |bytes| || bytes[ptr] != 2 || bytes[ptr + 1] != 2 then InvalidRleHeader else WidthMismatch
  }

  /** parseHDR as a function of the file's bytes. */
  function Decode(bytes: seq<byte>): Result<Image, HdrError> {
    match HeaderFrom(bytes, 0, [])
    case Err(e) => Err(e)
    case Ok(h) => FromHeader(bytes, h)
  }

  /** What parseHDR does once its header loop has read h. */
  function FromHeader(bytes: seq<byte>, h: Header): Result<Image, HdrError>
    requires h.next <= |bytes|
  {
    if h.format != FormatTag then Err(UnsupportedFormat(h.format))
    // new Float32Array(width * height * 3), then new Uint8Array(width * 4)
    else if ArrayLength(Times(Product(h.width, h.height), 3)).None? || ArrayLength(Times(h.width, 4)).None? then
      Err(BadDimensions)
    // `y < height` is false for NaN and for a negative height
    else if h.height.None? || h.height.value <= 0 then Ok(Image(h.width, h.height, []))
    else if h.width.None? then Err(NanWidthRow(bytes, h.next))
    else
      match Lines(bytes, h.next, h.width.value, h.height.value)
      case Fail(e) => Err(e)
      case Done(lines, _) => Ok(Image(h.width, h.height, Pixels(lines, h.width.value)))
  }

  /**
   * The output is the Float32Array of width * height * 3 floats: that many floats for
   * dimensions that are numbers, none when one of them is NaN.
   */
  lemma DecodeLength(bytes: seq<byte>)
    ensures var d := Decode(bytes); d.Ok? ==>
      ArrayLength(Times(Product(d.value.width, d.value.height), 3)) == Some(|d.value.pixels|)
    ensures var d := Decode(bytes); d.Ok? && d.value.width.Some? && d.value.height.Some? ==>
      |d.value.pixels| == 3 * (d.value.width.value * d.value.height.value)
  {
    var hd := HeaderFrom(bytes, 0, []);
    if hd.Ok? {
      FromHeaderLength(bytes, hd.value);
    }
  }

  lemma FromHeaderLength(bytes: seq<byte>, h: Header)
    requires h.next <= |bytes|
    ensures var d := FromHeader(bytes, h); d.Ok? ==>
      ArrayLength(Times(Product(d.value.width, d.value.height), 3)) == Some(|d.value.pixels|)
    ensures var d := FromHeader(bytes, h); d.Ok? && d.value.width.Some? && d.value.height.Some? ==>
      |d.value.pixels| == 3 * (d.value.width.value * d.value.height.value)
  {
    var d := FromHeader(bytes, h);
    if d.Ok? {
      if h.height.Some? && h.height.value > 0 && h.width.Some? {
        var width, height := h.width.value, h.height.value;
        PixelsLength(Lines(bytes, h.next, width, height).vals, width);
        AreaIsProduct(width, height);
      } else if h.width.Some? && h.height.Some? {
        MulSign(h.width.value, h.height.value);
      }
    }
  }

  lemma MulSign(a: int, b: int)
    requires a >= 0 && b <= 0
    ensures a * b <= 0 && (a == 0 ==> a * b == 0)
  {
  }

  /**
   * The two typed-array constructors of parseHDR throw a RangeError exactly when the width is
   * negative, or positive with a negative height; a zero width with a negative height gives an
   * array of length -0, and NaN gives length 0.
   */
  lemma BadDimensionsIff(width: Option<int>, height: Option<int>)
    ensures ArrayLength(Times(Product(width, height), 3)).None? || ArrayLength(Times(width, 4)).None? <==>
      width.Some? && (width.value < 0 || (width.value > 0 && height.Some? && height.value < 0))
  {
    if width.Some? && height.Some? {
      var w, ht := width.value, height.value;
      if w > 0 && ht < 0 {
        assert w * ht < 0;
      } else if w >= 0 && ht >= 0 {
        assert w * ht >= 0;
      } else if w == 0 {
        assert w * ht == 0;
      }
    }
  }

  // ---- Properties ----

  /** Splitting and joining again gives back the line. */
  lemma {:induction false} SplitJoin(s: seq<byte>, sep: byte)
    ensures Join(Split(s, sep), sep) == s
    decreases |s|
  {
    if |s| > 0 {
      var rest := Split(s[1..], sep);
      SplitJoin(s[1..], sep);
      if s[0] != sep && |rest| > 1 {
        assert Split(s, sep)[1..] == rest[1..];
      }
    }
  }

  lemma {:induction false} DecimalDigits(k: nat)
    ensures DecimalValue(Decimal(k)) == k
  {
    if k >= 10 {
      DecimalDigits(k / 10);
      var d := Decimal(k);
      assert d[..|d| - 1] == Decimal(k / 10);
    }
  }

  /** parseInt reads back the decimal digits of any natural number. */
  lemma ParseDecimal(k: nat)
    ensures ParseInt(Decimal(k)) == Some(k)
  {
    var d := Decimal(k);
    assert TrimStart(d) == d;
    assert DigitRun(d) == |d|;
    assert d[..|d|] == d;
    DecimalDigits(k);
  }

  /** One packet of a hand-made encoding: a run of 1..127 copies or 1..128 literal bytes. */
  datatype Rle = Run(v: byte, n: nat) | Literal(bs: seq<byte>)

  predicate WellFormed(p: Rle) {
    match p
    case Run(_, n) => 1 <= n <= 127
    case Literal(bs) => 1 <= |bs| <= 128
  }

  /** A packet an encoder may emit. */
  type RlePacket = p: Rle | WellFormed(p) witness Run(0, 1)

  function PacketBytes(p: RlePacket): seq<byte>
  {
    match p
    case Run(v, n) => [128 + n, v]
    case Literal(bs) => [|bs|] + bs
  }

  function Expand(p: Rle): seq<byte> {
    match p
    case Run(v, n) => Repeat(v, n)
    case Literal(bs) => bs
  }

  function Encode(ps: seq<RlePacket>): seq<byte>
  {
    if |ps| == 0 then [] else PacketBytes(ps[0]) + Encode(ps[1..])
  }

  function ExpandAll(ps: seq<RlePacket>): seq<byte> {
    if |ps| == 0 then [] else Expand(ps[0]) + ExpandAll(ps[1..])
  }

  /** The loop step of the channel decoder: one more packet moves from the rest to the prefix. */
  lemma RunsAdvance(bytes: seq<byte>, ptr0: nat, width: nat, got: seq<byte>, start: nat, vals: seq<byte>, next: nat, i: int)
    requires ptr0 <= |bytes| && start < |bytes| && |got| < width && PacketAt(bytes, start) == Done(vals, next)
    requires Runs(bytes, ptr0, width) == Glue(got, Runs(bytes, start, width - |got|))
    requires i == |got| + |vals|
    ensures Runs(bytes, ptr0, width) == Glue(got + vals, Runs(bytes, next, width - i))
  {
    GlueGlue(got, vals, Runs(bytes, next, width - i));
  }

  /** The bytes of a well-formed packet decode to its expansion. */
  lemma PacketInverts(bytes: seq<byte>, start: nat, p: RlePacket)
    requires start + |PacketBytes(p)| <= |bytes| && bytes[start..start + |PacketBytes(p)|] == PacketBytes(p)
    ensures PacketAt(bytes, start) == Done(Expand(p), start + |PacketBytes(p)|)
  {
    var pb := PacketBytes(p);
    assert bytes[start] == pb[0];
    match p
    case Run(v, n) =>
      assert bytes[start + 1] == pb[1];
    case Literal(bs) =>
      assert bytes[start + 1..start + 1 + |bs|] == pb[1..];
  }

  /** A slice of bytes holding x + y holds x and then y. */
  lemma SliceSplit(bytes: seq<byte>, start: nat, x: seq<byte>, y: seq<byte>)
    requires start + |x + y| <= |bytes| && bytes[start..start + |x + y|] == x + y
    ensures bytes[start..start + |x|] == x
    ensures bytes[start + |x|..start + |x| + |y|] == y
  {
    assert bytes[start..start + |x|] == (x + y)[..|x|];
    assert bytes[start + |x|..start + |x| + |y|] == (x + y)[|x|..];
  }

  /**
   * The channel decoder inverts every encoding made of well-formed packets: asked for as
   * many values as the packets expand to, it returns exactly those values and stops right
   * after the last packet, wherever the encoding sits in the input.
   */
  lemma {:induction false} RunsInvertsEncode(bytes: seq<byte>, start: nat, ps: seq<RlePacket>)
    requires start + |Encode(ps)| <= |bytes| && bytes[start..start + |Encode(ps)|] == Encode(ps)
    ensures Runs(bytes, start, |ExpandAll(ps)|) == Done(ExpandAll(ps), start + |Encode(ps)|)
    decreases |ps|
  {
    if |ps| == 0 {
      assert ExpandAll(ps) == [];
    } else {
      EncodeTail(bytes, start, ps);
      RunsInvertsEncode(bytes, start + |PacketBytes(ps[0])|, ps[1..]);
      EncodeCons(bytes, start, ps);
    }
  }

  /** Past the bytes of its first packet, an encoding holds the encoding of the other packets. */
  lemma EncodeTail(bytes: seq<byte>, start: nat, ps: seq<RlePacket>)
    requires |ps| > 0 && start + |Encode(ps)| <= |bytes| && bytes[start..start + |Encode(ps)|] == Encode(ps)
    ensures start + |PacketBytes(ps[0])| + |Encode(ps[1..])| <= |bytes|
    ensures bytes[start + |PacketBytes(ps[0])|..start + |PacketBytes(ps[0])| + |Encode(ps[1..])|] == Encode(ps[1..])
  {
    var pb, er := PacketBytes(ps[0]), Encode(ps[1..]);
    assert Encode(ps) == pb + er;
    SliceRest(bytes, start, start + |pb|, start + |pb| + |er|, pb, er);
  }

  /** The part of a slice holding x + y that lies after x holds y. */
  lemma SliceRest<T>(w: seq<T>, lo: int, mid: int, hi: int, x: seq<T>, y: seq<T>)
    requires 0 <= lo <= mid <= hi <= |w| && mid - lo == |x| && hi - mid == |y| && w[lo..hi] == x + y
    ensures w[mid..hi] == y
  {
    assert forall k :: 0 <= k < |y| ==> w[mid..hi][k] == w[lo..hi][|x| + k] == y[k];
  }

  /** The inductive step of RunsInvertsEncode: the first packet in front of the decoded rest. */
  lemma EncodeCons(bytes: seq<byte>, start: nat, ps: seq<RlePacket>)
    requires |ps| > 0 && start + |Encode(ps)| <= |bytes| && bytes[start..start + |Encode(ps)|] == Encode(ps)
    requires var mid := start + |PacketBytes(ps[0])|;
      mid <= |bytes| && Runs(bytes, mid, |ExpandAll(ps[1..])|) == Done(ExpandAll(ps[1..]), mid + |Encode(ps[1..])|)
    ensures Runs(bytes, start, |ExpandAll(ps)|) == Done(ExpandAll(ps), start + |Encode(ps)|)
  {
    var p, rest := ps[0], ps[1..];
    var pb, er := PacketBytes(p), Encode(rest);
    var mid := start + |pb|;
    assert bytes[start..mid] == pb by {
      assert Encode(ps) == pb + er;
      SliceSplit(bytes, start, pb, er);
    }
    PacketThenRuns(bytes, start, p, mid, ExpandAll(rest), mid + |er|);
    assert ExpandAll(ps) == Expand(p) + ExpandAll(rest);
  }

  /** A well-formed packet in front of a decodable rest. */
  lemma PacketThenRuns(bytes: seq<byte>, start: nat, p: RlePacket, mid: nat, more: seq<byte>, end: nat)
    requires mid == start + |PacketBytes(p)| <= |bytes| && bytes[start..mid] == PacketBytes(p)
    requires Runs(bytes, mid, |more|) == Done(more, end)
    ensures Runs(bytes, start, |Expand(p) + more|) == Done(Expand(p) + more, end)
  {
    PacketInverts(bytes, start, p);
  }

  // ---- The parser ----

  /** Index of channel c of pixel x in the interleaved scanline buffer. */
  function Slot(x: int, c: int): int {
    4 * x + c
  }

  /** readLine, advancing the cursor past the newline. */
  method ReadLine(bytes: seq<byte>, ptr0: nat) returns (line: seq<byte>, ptr: nat)
    requires ptr0 <= |bytes|
    ensures (line, ptr) == LineAt(bytes, ptr0)
  {
    line, ptr := [], ptr0;
    assert line + LineAt(bytes, ptr).0 == LineAt(bytes, ptr0).0;
    while ptr < |bytes|
      invariant ptr0 <= ptr <= |bytes|
      invariant LineAt(bytes, ptr0) == (line + LineAt(bytes, ptr).0, LineAt(bytes, ptr).1)
      decreases |bytes| - ptr
    {
      var b := bytes[ptr];
      ptr := ptr + 1;
      if b == Newline {
        assert LineAt(bytes, ptr - 1) == ([], ptr);
        assert line + [] == line;
        return;
      }
      assert line + ([b] + LineAt(bytes, ptr).0) == (line + [b]) + LineAt(bytes, ptr).0;
      line := line + [b];
    }
    assert line + [] == line;
  }

  /**
   * The header loop of parseHDR. Where the JavaScript would spin forever on the empty lines
   * readLine returns at the end of the input, this returns HeaderNeverEnds.
   */
  method ReadHeader(bytes: seq<byte>) returns (r: Result<Header, HdrError>)
    ensures r == HeaderFrom(bytes, 0, [])
  {
    var ptr: nat := 0;
    var format: seq<byte> := [];
    while true
      invariant ptr <= |bytes|
      invariant HeaderFrom(bytes, 0, []) == HeaderFrom(bytes, ptr, format)
      decreases |bytes| - ptr
    {
      if ptr == |bytes| {
        return Err(HeaderNeverEnds);
      }
      var line, next := ReadLine(bytes, ptr);
      if StartsWith(line, ['#' as int]) || line == [] {
        ptr := next;
        continue;
      }
      if StartsWith(line, FormatPrefix) {
        format := Trim(line);
      }
      if IsResolution(line) {
        var parts := Split(Trim(line), Space);
        return Ok(Header(format, PartInt(parts, 1), PartInt(parts, 3), next));
      }
      ptr := next;
    }
  }

  /**
   * The inner loop of a run packet: n copies of value at pixels i0, i0 + 1, ... of the
   * channel, after the values `pre` already written there.
   */
  method FillRun(scanline: array<byte>, width: nat, channel: nat, ghost pre: seq<byte>, i0: nat, value: byte, n: nat)
    returns (i: nat)
    requires channel < 4 && scanline.Length == 4 * width && |pre| == i0
    requires forall x :: 0 <= x < i0 && x < width ==> scanline[Slot(x, channel)] == pre[x]
    modifies scanline
    ensures i == i0 + n
    ensures forall x :: 0 <= x < i && x < width ==> scanline[Slot(x, channel)] == (pre + Repeat(value, n))[x]
    ensures forall x, c :: 0 <= x < width && 0 <= c < 4 && c != channel ==>
      scanline[Slot(x, c)] == old(scanline[Slot(x, c)])
  {
    i := i0;
    for j := 0 to n
      invariant i == i0 + j
      invariant forall x :: 0 <= x < i0 && x < width ==> scanline[Slot(x, channel)] == pre[x]
      invariant forall x :: i0 <= x < i && x < width ==> scanline[Slot(x, channel)] == value
      invariant forall x, c :: 0 <= x < width && 0 <= c < 4 && c != channel ==>
        scanline[Slot(x, c)] == old(scanline[Slot(x, c)])
    {
      if i < width {
        scanline[Slot(i, channel)] := value;
      }
      i := i + 1;
    }
  }

  /**
   * The inner loop of a literal packet: the bytes vals at pixels i0, i0 + 1, ... of the
   * channel, after the values `pre` already written there.
   */
  method FillLiteral(scanline: array<byte>, width: nat, channel: nat, ghost pre: seq<byte>, i0: nat, vals: seq<byte>)
    returns (i: nat)
    requires channel < 4 && scanline.Length == 4 * width && |pre| == i0
    requires forall x :: 0 <= x < i0 && x < width ==> scanline[Slot(x, channel)] == pre[x]
    modifies scanline
    ensures i == i0 + |vals|
    ensures forall x :: 0 <= x < i && x < width ==> scanline[Slot(x, channel)] == (pre + vals)[x]
    ensures forall x, c :: 0 <= x < width && 0 <= c < 4 && c != channel ==>
      scanline[Slot(x, c)] == old(scanline[Slot(x, c)])
  {
    i := i0;
    for j := 0 to |vals|
      invariant i == i0 + j
      invariant forall x :: 0 <= x < i0 && x < width ==> scanline[Slot(x, channel)] == pre[x]
      invariant forall x :: i0 <= x < i && x < width ==> scanline[Slot(x, channel)] == vals[x - i0]
      invariant forall x, c :: 0 <= x < width && 0 <= c < 4 && c != channel ==>
        scanline[Slot(x, c)] == old(scanline[Slot(x, c)])
    {
      if i < width {
        scanline[Slot(i, channel)] := vals[j];
      }
      i := i + 1;
    }
  }

  /**
   * The body of the run-length loop: decodes the packet at ptr into pixels i0, i0 + 1, ... of
   * the channel, after the values `got` already written there, and returns the new cursor.
   */
  method DecodePacket(bytes: seq<byte>, ptr: nat, width: nat, scanline: array<byte>, channel: nat, ghost got: seq<byte>, i0: nat)
    returns (r: Result<nat, HdrError>, i: nat)
    requires ptr < |bytes| && channel < 4 && scanline.Length == 4 * width && |got| == i0
    requires forall x :: 0 <= x < i0 && x < width ==> scanline[Slot(x, channel)] == got[x]
    modifies scanline
    ensures r == Cursor(PacketAt(bytes, ptr))
    ensures var p := PacketAt(bytes, ptr); p.Done? ==>
      i == i0 + |p.vals| && forall x :: 0 <= x < i && x < width ==> scanline[Slot(x, channel)] == (got + p.vals)[x]
    ensures forall x, c :: 0 <= x < width && 0 <= c < 4 && c != channel ==>
      scanline[Slot(x, c)] == old(scanline[Slot(x, c)])
  {
    var count := bytes[ptr];
    if count > 128 {
      if ptr + 1 == |bytes| {
        return Err(Truncated), i0;
      }
      var value := bytes[ptr + 1];
      i := FillRun(scanline, width, channel, got, i0, value, count - 128);
      return Ok(ptr + 2), i;
    } else {
      if ptr + 1 + count > |bytes| {
        return Err(Truncated), i0;
      }
      i := FillLiteral(scanline, width, channel, got, i0, bytes[ptr + 1..ptr + 1 + count]);
      return Ok(ptr + 1 + count), i;
    }
  }

  /**
   * The run-length loop of one channel: fills scanline[4 * i + channel] for i < width and
   * returns the cursor after the channel's last packet.
   */
  method DecodeChannel(bytes: seq<byte>, ptr0: nat, width: nat, scanline: array<byte>, channel: nat)
    returns (r: Result<nat, HdrError>)
    requires ptr0 <= |bytes| && channel < 4 && scanline.Length == 4 * width
    modifies scanline
    ensures r == Cursor(Runs(bytes, ptr0, width))
    ensures var s := Runs(bytes, ptr0, width);
      s.Done? ==> forall x :: 0 <= x < width ==> scanline[Slot(x, channel)] == s.vals[x]
    ensures forall x, c :: 0 <= x < width && 0 <= c < 4 && c != channel ==>
      scanline[Slot(x, c)] == old(scanline[Slot(x, c)])
  {
    var ptr := ptr0;
    var i: nat := 0;
    ghost var got: seq<byte> := [];
    GlueNil(Runs(bytes, ptr, width));
    while i < width
      invariant ptr0 <= ptr <= |bytes| && |got| == i
      invariant Runs(bytes, ptr0, width) == Glue(got, Runs(bytes, ptr, width - i))
      invariant forall x :: 0 <= x < i && x < width ==> scanline[Slot(x, channel)] == got[x]
      invariant forall x, c :: 0 <= x < width && 0 <= c < 4 && c != channel ==>
        scanline[Slot(x, c)] == old(scanline[Slot(x, c)])
      decreases width - i, |bytes| - ptr
    {
      if ptr == |bytes| {
        return Err(Truncated);
      }
      ghost var start, got0 := ptr, got;
      var q;
      q, i := DecodePacket(bytes, ptr, width, scanline, channel, got, i);
      if q.Err? {
        return q;
      }
      ghost var vals := PacketAt(bytes, start).vals;
      got := got + vals;
      ptr := q.value;
      RunsAdvance(bytes, ptr0, width, got0, start, vals, ptr, i);
    }
    assert got + [] == got;
    return Ok(ptr);
  }

  /** One channel more: the channel loop's step. */
  lemma ChannelsAdvance(bytes: seq<byte>, start: nat, width: nat, chans: seq<seq<byte>>, ptr: nat, vals: seq<byte>, next: nat, n: nat,
                        chans': seq<seq<byte>>, n': nat)
    requires start <= ptr <= |bytes| && n > 0 && Runs(bytes, ptr, width) == Done(vals, next)
    requires Channels(bytes, start, width, 4) == Glue(chans, Channels(bytes, ptr, width, n))
    requires chans' == chans + [vals] && n' == n - 1
    ensures Channels(bytes, start, width, 4) == Glue(chans', Channels(bytes, next, width, n'))
  {
    GlueGlue(chans, [vals], Channels(bytes, next, width, n - 1));
  }

  /**
   * One scanline of parseHDR: checks the marker bytes 2, 2 and the big-endian width, then
   * decodes the four channels into scanline[4 * x + c].
   */
  method DecodeScanline(bytes: seq<byte>, ptr0: nat, width: nat, scanline: array<byte>) returns (r: Result<nat, HdrError>)
    requires ptr0 <= |bytes| && scanline.Length == 4 * width
    modifies scanline
    ensures r == Cursor(Scanline(bytes, ptr0, width))
    ensures var s := Scanline(bytes, ptr0, width);
      s.Done? ==> forall x, c :: 0 <= x < width && 0 <= c < 4 ==> scanline[Slot(x, c)] == Chan(s.vals, c, x)
  {
    var ptr := ptr0;
    if ptr + 2 > |bytes| || bytes[ptr] != 2 || bytes[ptr + 1] != 2 {
      return Err(InvalidRleHeader);
    }
    // (hi << 8) + lo on two bytes
    if ptr + 4 > |bytes| || (bytes[ptr + 2] as int) * 256 + bytes[ptr + 3] as int != width {
      return Err(WidthMismatch);
    }
    ptr := ptr + 4;
    ghost var chans: seq<seq<byte>> := [];
    GlueNil(Channels(bytes, ptr, width, 4));
    var channel := 0;
    ghost var left: nat := 4;
    while channel < 4
      invariant 0 <= channel <= 4 && |chans| == channel && left == 4 - channel && ptr0 + 4 <= ptr <= |bytes|
      invariant Channels(bytes, ptr0 + 4, width, 4) == Glue(chans, Channels(bytes, ptr, width, left))
      invariant forall c :: 0 <= c < channel ==> |chans[c]| >= width
      invariant forall x, c :: 0 <= x < width && 0 <= c < channel ==> scanline[Slot(x, c)] == chans[c][x]
    {
      var q := DecodeChannel(bytes, ptr, width, scanline, channel);
      if q.Err? {
        return q;
      }
      ghost var vals := Runs(bytes, ptr, width).vals;
      ghost var chans', left' := chans + [vals], left - 1;
      ChannelsAdvance(bytes, ptr0 + 4, width, chans, ptr, vals, q.value, left, chans', left');
      chans, left := chans', left';
      ptr := q.value;
      channel := channel + 1;
    }
    assert chans + [] == chans;
    return Ok(ptr);
  }

  /** One scanline more: the row loop's step. */
  lemma LinesAdvance(bytes: seq<byte>, start: nat, width: nat, height: nat, lines: seq<seq<seq<byte>>>,
                     ptr: nat, chans: seq<seq<byte>>, next: nat, n: nat)
    requires start <= |bytes| && ptr <= |bytes| && n > 0 && Scanline(bytes, ptr, width) == Done(chans, next)
    requires Lines(bytes, start, width, height) == Glue(lines, Lines(bytes, ptr, width, n))
    ensures Lines(bytes, start, width, height) == Glue(lines + [chans], Lines(bytes, next, width, n - 1))
  {
    GlueGlue(lines, [chans], Lines(bytes, next, width, n - 1));
  }

  /** The body of the pixel loop: the three floats of pixel x at data[offset..offset + 3]. */
  method ConvertPixel(scanline: array<byte>, width: nat, x: nat, data: array<real>, offset: nat, ghost chans: seq<seq<byte>>)
    requires x < width && scanline.Length == 4 * width && offset + 3 <= data.Length
    requires forall c :: 0 <= c < 4 ==> scanline[Slot(x, c)] == Chan(chans, c, x)
    modifies data
    ensures data[..offset + 3] == old(data[..offset]) + Pixel(chans, x)
  {
    var red, green, blue, e := scanline[Slot(x, 0)], scanline[Slot(x, 1)], scanline[Slot(x, 2)], scanline[Slot(x, 3)];
    var r, g, b := 0.0, 0.0, 0.0;
    if e > 0 {
      var f := Pow2(e as int - 136);
      r, g, b := red as real * f, green as real * f, blue as real * f;
    }
    assert r == Radiance(red, e) && g == Radiance(green, e) && b == Radiance(blue, e);
    assert red == Chan(chans, 0, x) && green == Chan(chans, 1, x) && blue == Chan(chans, 2, x) && e == Chan(chans, 3, x);
    assert [r, g, b] == Pixel(chans, x);
    ghost var before := data[..offset];
    data[offset], data[offset + 1], data[offset + 2] := r, g, b;
    assert data[..offset + 3] == before + [r, g, b];
  }

  /** The pixel loop of parseHDR: converts one decoded scanline into floats at data[offset..]. */
  method ConvertRow(scanline: array<byte>, width: nat, data: array<real>, offset0: nat, ghost chans: seq<seq<byte>>)
    returns (offset: nat)
    requires scanline.Length == 4 * width && offset0 + 3 * width <= data.Length
    requires forall x, c :: 0 <= x < width && 0 <= c < 4 ==> scanline[Slot(x, c)] == Chan(chans, c, x)
    modifies data
    ensures offset == offset0 + 3 * width
    ensures data[..offset] == old(data[..offset0]) + RowPixels(chans, width)
  {
    offset := offset0;
    for x := 0 to width
      invariant offset == offset0 + 3 * x
      invariant data[..offset] == old(data[..offset0]) + RowPixels(chans, x)
    {
      ConvertPixel(scanline, width, x, data, offset, chans);
      offset := offset + 3;
    }
  }

  /**
   * The body of the scanline loop: decodes the scanline at ptr into the scanline buffer and
   * converts it into floats at data[offset0..].
   */
  method ReadRow(bytes: seq<byte>, ptr: nat, width: nat, scanline: array<byte>, data: array<real>, offset0: nat)
    returns (r: Result<nat, HdrError>, offset: nat)
    requires ptr <= |bytes| && scanline.Length == 4 * width && offset0 + 3 * width <= data.Length
    modifies scanline, data
    ensures r == Cursor(Scanline(bytes, ptr, width))
    ensures var s := Scanline(bytes, ptr, width); s.Done? ==>
      offset == offset0 + 3 * width && data[..offset] == old(data[..offset0]) + RowPixels(s.vals, width)
  {
    r := DecodeScanline(bytes, ptr, width, scanline);
    if r.Err? {
      return r, offset0;
    }
    offset := ConvertRow(scanline, width, data, offset0, Scanline(bytes, ptr, width).vals);
  }

  /**
   * The scanline loop of parseHDR: decodes `height` scanlines from ptr0 into the scanline
   * buffer and converts each into floats at data[offset..], returning the cursor after them.
   */
  method ReadPixels(bytes: seq<byte>, ptr0: nat, width: nat, height: nat, data: array<real>) returns (r: Result<nat, HdrError>)
    requires ptr0 <= |bytes| && data.Length == 3 * Area(width, height)
    modifies data
    ensures r == Cursor(Lines(bytes, ptr0, width, height))
    ensures var s := Lines(bytes, ptr0, width, height); s.Done? ==> data[..] == Pixels(s.vals, width)
  {
    var scanline := new byte[4 * width];
    var offset := 0;
    var ptr: nat := ptr0;
    ghost var lines: seq<seq<seq<byte>>> := [];
    ghost var left: nat := height;
    GlueNil(Lines(bytes, ptr, width, height));
    assert data[..0] == [];
    for y := 0 to height
      invariant ptr <= |bytes| && |lines| == y && left == height - y
      invariant offset == 3 * Area(width, y) && offset <= data.Length
      invariant data[..offset] == Pixels(lines, width)
      invariant Lines(bytes, ptr0, width, height) == Glue(lines, Lines(bytes, ptr, width, left))
    {
      AreaMono(width, y + 1, height);
      ghost var before := data[..offset];
      var s;
      s, offset := ReadRow(bytes, ptr, width, scanline, data, offset);
      if s.Err? {
        return s;
      }
      assert Scanline(bytes, ptr, width).Done?;
      ghost var chans := Scanline(bytes, ptr, width).vals;
      assert data[..offset] == before + RowPixels(chans, width);
      LinesAdvance(bytes, ptr0, width, height, lines, ptr, chans, s.value, left);
      PixelsSnoc(lines, chans, width);
      lines, left := lines + [chans], left - 1;
      ptr := s.value;
    }
    assert data[..offset] == data[..];
    assert lines + [] == lines;
    return Ok(ptr);
  }

  /**
   * parseHDR: reads the header, checks the format, allocates width * height * 3 floats and
   * decodes the scanlines into them.
   */
  method ParseHdr(bytes: seq<byte>) returns (r: Result<Image, HdrError>)
    ensures r == Decode(bytes)
  {
    var header := ReadHeader(bytes);
    if header.Err? {
      return Err(header.error);
    }
    var h := header.value;
    if h.format != FormatTag {
      return Err(UnsupportedFormat(h.format));
    }
    if ArrayLength(Times(Product(h.width, h.height), 3)).None? || ArrayLength(Times(h.width, 4)).None? {
      return Err(BadDimensions);
    }
    if h.height.None? || h.height.value <= 0 {
      return Ok(Image(h.width, h.height, []));
    }
    if h.width.None? {
      return Err(NanWidthRow(bytes, h.next));
    }
    var width: nat, height: nat := h.width.value, h.height.value;
    var data := new real[3 * (width * height)];
    AreaIsProduct(width, height);
    var q := ReadPixels(bytes, h.next, width, height, data);
    if q.Err? {
      return Err(q.error);
    }
    return Ok(Image(h.width, h.height, data[..]));
  }
}
