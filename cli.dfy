/**
 * The decoder's decisions (`bin2image`) and the command-line dispatch of
 * `main`. File contents, the Halide buffer and the image codec stay outside:
 * whether the input file opens is a parameter, and a decoded dump is
 * described by the dimensions, the byte count it asks `read` for and the name
 * of the image it writes.
 */
module Cli {
  import opened Wrappers
  import opened CxxConvert
  import opened Filename

  /** The channel count `bin2image` allocates. */
  const CHANNELS: int := 3

  const MODE_IMAGE2BIN: string := "image2bin"
  const MODE_BIN2IMAGE: string := "bin2image"
  const OUTPUT_PREFIX: string := "output_"

  const TWO_32: int := 0x1_0000_0000
  const TWO_64: int := 0x1_0000_0000_0000_0000
  const INT64_MIN: int := -0x8000_0000_0000_0000
  const INT64_MAX: int := 0x7fff_ffff_ffff_ffff

  /** Arithmetic on C++ `int` as the compiled code performs it: two's complement wrap-around. */
  function Wrap32(x: int): (r: int32)
    ensures (x - r) % TWO_32 == 0
    ensures INT_MIN <= x <= INT_MAX ==> r == x
  {
    var m := x % TWO_32;
    if m <= INT_MAX then m else m - TWO_32
  }

  /** Arithmetic on a 64-bit signed integer, with the same wrap-around. */
  function Wrap64(x: int): (r: int)
    ensures INT64_MIN <= r <= INT64_MAX
    ensures (x - r) % TWO_64 == 0
    ensures INT64_MIN <= x <= INT64_MAX ==> r == x
  {
    var m := x % TWO_64;
    if m <= INT64_MAX then m else m - TWO_64
  }

  /**
   * `assert(width * height)` as written: the product is an `int`, so the
   * check fails exactly when the true product is a multiple of 2^32.
   */
  predicate AcceptsDimsAsWritten(width: int32, height: int32): (ok: bool)
    ensures ok <==> (width * height) % TWO_32 != 0
    ensures width == 0 || height == 0 ==> !ok
    ensures INT_MIN <= width * height <= INT_MAX ==> (ok <==> width != 0 && height != 0)
  {
    MulNonZero(width, height);
    Wrap32(width * height) != 0
  }

  /** Wrapping a value and then its triple agrees with the triple modulo 2^32, and exactly when the triple fits. */
  lemma WrapTriple(area: int)
    ensures (Wrap32(Wrap32(area) * CHANNELS) - area * CHANNELS) % TWO_32 == 0
    ensures INT_MIN <= area * CHANNELS <= INT_MAX ==> Wrap32(Wrap32(area) * CHANNELS) == area * CHANNELS
  {
    var wrapped := Wrap32(area);
    var r := Wrap32(wrapped * CHANNELS);
    var p := (area - wrapped) / TWO_32;
    var q := (wrapped * CHANNELS - r) / TWO_32;
    assert area - wrapped == TWO_32 * p;
    assert wrapped * CHANNELS - r == TWO_32 * q;
    assert r - area * CHANNELS == TWO_32 * (-(p + p + p) - q);
    if INT_MIN <= area * CHANNELS <= INT_MAX {
      assert area * CHANNELS == area + area + area;
      assert wrapped == area;
    }
  }

  /**
   * The byte count `width*height * ch` handed to `read`, as written: both
   * products are `int`, so the count agrees with width × height × 3 only
   * modulo 2^32, and exactly when that fits an `int`.
   */
  function RequestedBytesAsWritten(width: int32, height: int32): (r: int32)
    ensures (r - width * height * CHANNELS) % TWO_32 == 0
    ensures INT_MIN <= width * height * CHANNELS <= INT_MAX ==> r == width * height * CHANNELS
  {
    WrapTriple(width * height);
    Wrap32(Wrap32(width * height) * CHANNELS)
  }

  /** Non-zero dimensions whose 32-bit product is 0: the assertion aborts on them. */
  lemma AsWrittenRejectsNonZeroDims()
    ensures 65536 != 0 && !AcceptsDimsAsWritten(65536, 65536)
  {
  }

  /** Dimensions that pass the check but whose 32-bit byte count is negative. */
  lemma AsWrittenMiscountsBytes()
    ensures AcceptsDimsAsWritten(30000, 30000)
    ensures RequestedBytesAsWritten(30000, 30000) != 30000 * 30000 * CHANNELS
  {
  }

  lemma MulMonotone(x: nat, y: nat, xMax: nat, yMax: nat)
    requires x <= xMax && y <= yMax
    ensures x * y <= xMax * yMax
  {
    assert x * y <= xMax * y;
    assert xMax * y <= xMax * yMax;
  }

  /** The product of two `int` values fits comfortably in 64 bits. */
  lemma ProductBound(a: int32, b: int32)
    ensures -0x4000_0000_0000_0000 <= a * b <= 0x4000_0000_0000_0000
  {
    var ai: int := a;
    var bi: int := b;
    var ma: nat := if ai < 0 then -ai else ai;
    var mb: nat := if bi < 0 then -bi else bi;
    MulMonotone(ma, mb, 0x8000_0000, 0x8000_0000);
    assert a * b == ma * mb || a * b == -(ma * mb);
  }

  lemma MulNonZero(a: int, b: int)
    ensures a * b != 0 <==> a != 0 && b != 0
  {
    if a != 0 && b != 0 {
      var ma: nat := if a < 0 then -a else a;
      var mb: nat := if b < 0 then -b else b;
      MulMonotone(1, 1, ma, mb);
      assert a * b == ma * mb || a * b == -(ma * mb);
    }
  }

  /** The non-zero check with the product widened to 64 bits: it holds exactly for non-zero dimensions. */
  predicate AcceptsDims(width: int32, height: int32): (ok: bool)
    ensures ok <==> width != 0 && height != 0
  {
    ProductBound(width, height);
    MulNonZero(width, height);
    Wrap64(width * height) != 0
  }

  /** Tripling a value of at most 2^62 in magnitude stays below 2^64 in magnitude and keeps it non-zero. */
  lemma TripleBound(area: int)
    requires -0x4000_0000_0000_0000 <= area <= 0x4000_0000_0000_0000
    ensures -TWO_64 < area * CHANNELS < TWO_64
    ensures area * CHANNELS != 0 <==> area != 0
  {
    assert area * CHANNELS == area + area + area;
  }

  /**
   * The byte count handed to `read`, computed without overflow (its
   * magnitude is below 2^64): zero only for an empty image.
   */
  function RequestedBytes(width: int32, height: int32): (r: int)
    ensures -TWO_64 < r < TWO_64
    ensures r != 0 <==> width != 0 && height != 0
  {
    ProductBound(width, height);
    MulNonZero(width, height);
    TripleBound(width * height);
    width * height * CHANNELS
  }

  /** Where the 32-bit products do not overflow, the code as written computes the corrected check and count. */
  lemma AsWrittenAgreesWithoutOverflow(width: int32, height: int32)
    requires INT_MIN <= width * height * CHANNELS <= INT_MAX
    ensures AcceptsDimsAsWritten(width, height) == AcceptsDims(width, height)
    ensures RequestedBytesAsWritten(width, height) == RequestedBytes(width, height)
  {
    var area: int := width * height;
    assert area * CHANNELS == area + area + area;
    assert Wrap32(area) == area;
    ProductBound(width, height);
    assert Wrap64(area) == area;
  }

  /**
   * How the two products of `bin2image` (the non-zero check and the byte
   * count) are evaluated: `AsWritten` in 32-bit `int` with two's complement
   * wrap-around, as the compiled code does; `Corrected` without overflow.
   */
  datatype Arithmetic = AsWritten | Corrected

  /** `assert(width * height)` under the given arithmetic: an empty image always fails it. */
  predicate Accepts(arith: Arithmetic, width: int32, height: int32): (ok: bool)
    ensures width == 0 || height == 0 ==> !ok
    ensures arith == Corrected ==> (ok <==> width != 0 && height != 0)
  {
    match arith
    case AsWritten => AcceptsDimsAsWritten(width, height)
    case Corrected => AcceptsDims(width, height)
  }

  /**
   * `width*height * ch` under the given arithmetic: width × height × 3
   * modulo 2^32 as written, exactly that and non-zero for a non-empty image
   * when corrected.
   */
  function ByteCount(arith: Arithmetic, width: int32, height: int32): (r: int)
    ensures (r - width * height * CHANNELS) % TWO_32 == 0
    ensures arith == Corrected ==> r == width * height * CHANNELS
    ensures arith == Corrected ==> (r != 0 <==> width != 0 && height != 0)
  {
    match arith
    case AsWritten => RequestedBytesAsWritten(width, height)
    case Corrected => RequestedBytes(width, height)
  }

  /** How a call of `bin2image` ends. */
  datatype DecodeEnd =
    | OpenFailed                  // the dump cannot be opened; reported, returns 0
    | ConversionThrew(error: StoiError)     // std::stoi's exception leaves bin2image
    | AssertionFailed             // assert(width * height) aborts the process
    | Decoded(width: int32, height: int32, requested: int, output: string)

  /**
   * `bin2image(path)`: start from width = height = 0, read the size token,
   * insist on a non-zero product, ask for width × height × 3 bytes and write
   * the image to `output_` + the recovered base name. `arith` says how the
   * two products are evaluated.
   */
  function Bin2Image(path: string, fileOpens: bool, arith: Arithmetic): (r: DecodeEnd)
    ensures r == OpenFailed <==> !fileOpens
    ensures fileOpens && ParseSize(path).Ok? && !Accepts(arith, ParseSize(path).value.0, ParseSize(path).value.1) ==>
              r == AssertionFailed
    ensures r.Decoded? <==>
              fileOpens && ParseSize(path).Ok? && Accepts(arith, ParseSize(path).value.0, ParseSize(path).value.1)
    ensures r.Decoded? ==>
              (r.width, r.height) == ParseSize(path).value &&
              r.requested == ByteCount(arith, r.width, r.height) &&
              r.output == OUTPUT_PREFIX + FilePrefix(path)
    ensures r.Decoded? ==> r.width != 0 && r.height != 0
    ensures r.ConversionThrew? <==> fileOpens && ParseSize(path).Err? && ParseSize(path).error.InvalidDimension?
    ensures r.ConversionThrew? ==> ParseSize(path).error.cause == r.error
    ensures fileOpens && (ParseSize(path) == Err(MissingUnderscore) || ParseSize(path) == Err(MissingSeparator)) ==>
              r == AssertionFailed
  {
    if !fileOpens then OpenFailed
    else
      match ParseSize(path)
      case Err(InvalidDimension(e)) => ConversionThrew(e)
      case Err(_) => DecodeWith(path, 0, 0, arith)  // no size token: both dimensions keep their initial 0
      case Ok((width, height)) => DecodeWith(path, width, height, arith)
  }

  /** The rest of `bin2image` once the dimensions are known. */
  function DecodeWith(path: string, width: int32, height: int32, arith: Arithmetic): (r: DecodeEnd)
    ensures r.Decoded? || r == AssertionFailed
    ensures r.Decoded? <==> Accepts(arith, width, height)
  {
    if !Accepts(arith, width, height) then AssertionFailed
    else Decoded(width, height, ByteCount(arith, width, height), OUTPUT_PREFIX + FilePrefix(path))
  }

  /** How the process ends. */
  datatype ProcessEnd =
    | Exit(code: int)               // main returns
    | Abort                         // a failed assert
    | Terminate(uncaught: StoiError)  // an exception nobody catches

  /**
   * `main(argc, argv)` with `args` = argv[0..argc): usage for a wrong argument
   * count (1), either conversion for a known mode (0, whatever the conversion
   * reported), 4 for an unknown mode. `inputOpens` says whether the file
   * `bin2image` reads can be opened.
   */
  function MainExit(args: seq<string>, inputOpens: bool, arith: Arithmetic): (e: ProcessEnd)
    ensures e == Exit(1) <==> |args| != 3
    ensures e == Exit(4) <==> |args| == 3 && args[1] != MODE_IMAGE2BIN && args[1] != MODE_BIN2IMAGE
    ensures e.Exit? ==> e.code == 0 || e.code == 1 || e.code == 4
    ensures |args| == 3 && args[1] == MODE_IMAGE2BIN ==> e == Exit(0)
    ensures |args| == 3 && args[1] == MODE_BIN2IMAGE ==>
              match Bin2Image(args[2], inputOpens, arith)
              case ConversionThrew(err) => e == Terminate(err)
              case AssertionFailed => e == Abort
              case _ => e == Exit(0)
  {
    if |args| != 3 then Exit(1)
    else
      var runningMode, path := args[1], args[2];
      if runningMode == MODE_IMAGE2BIN then Exit(0)
      else if runningMode == MODE_BIN2IMAGE then
        match Bin2Image(path, inputOpens, arith)
        case ConversionThrew(err) => Terminate(err)
        case AssertionFailed => Abort
        case _ => Exit(0)
      else Exit(4)
  }

  /** A wrong argument count or an unknown mode ends the same whatever the file system and the arithmetic. */
  lemma RejectedCallsTouchNoFile(args: seq<string>, opens: bool, arith: Arithmetic)
    requires |args| != 3 || (args[1] != MODE_IMAGE2BIN && args[1] != MODE_BIN2IMAGE)
    ensures MainExit(args, opens, arith) == MainExit(args, !opens, arith)
    ensures MainExit(args, opens, AsWritten) == MainExit(args, opens, Corrected)
    ensures MainExit(args, opens, arith) == Exit(1) || MainExit(args, opens, arith) == Exit(4)
  {
  }

  /**
   * Round trip through the decoder: the dump the encoder names for a
   * non-empty W × H image is decoded as W × H, `read` is asked for exactly
   * W × H × 3 bytes, and the image goes to `output_` + the original base name.
   * The code as written does so when W × H × 3 fits an `int`; the corrected
   * arithmetic always does.
   */
  lemma DecodeEncoderOutput(path: string, width: int32, height: int32, arith: Arithmetic)
    requires width != 0 && height != 0
    requires path == [] || path[|path| - 1] != '/'
    requires arith == AsWritten ==> INT_MIN <= width * height * CHANNELS <= INT_MAX
    ensures Bin2Image(OutputName(path, width, height), true, arith) ==
              Decoded(width, height, width * height * CHANNELS, OUTPUT_PREFIX + LastSegment(path))
  {
    ParseSizeOfOutputName(path, width, height);
    FilePrefixOfOutputName(path, width, height);
    if arith == AsWritten {
      AsWrittenAgreesWithoutOverflow(width, height);
    }
  }

  /** The dump of an empty image (a zero width or height) makes the decoder abort, under either arithmetic. */
  lemma DecodeEmptyImageAborts(path: string, width: int32, height: int32, arith: Arithmetic)
    requires width == 0 || height == 0
    ensures Bin2Image(OutputName(path, width, height), true, arith) == AssertionFailed
  {
    ParseSizeOfOutputName(path, width, height);
  }

  /**
   * The code as written on the encoder's dump of a non-empty image whose
   * area is a multiple of 2^32 (65536 × 65536, say): the decoder aborts, and
   * `main` with it, where the corrected decoder decodes.
   */
  lemma AsWrittenDecoderAborts(program: string, path: string, width: int32, height: int32)
    requires width != 0 && height != 0
    requires (width * height) % TWO_32 == 0
    ensures Bin2Image(OutputName(path, width, height), true, AsWritten) == AssertionFailed
    ensures MainExit([program, MODE_BIN2IMAGE, OutputName(path, width, height)], true, AsWritten) == Abort
    ensures Bin2Image(OutputName(path, width, height), true, Corrected).Decoded?
  {
    ParseSizeOfOutputName(path, width, height);
  }

  /**
   * `main` in bin2image mode on the encoder's output of a non-empty image
   * exits with 0: as written when W × H × 3 fits an `int`, corrected always.
   */
  lemma MainDecodesEncoderOutput(program: string, path: string, width: int32, height: int32, arith: Arithmetic)
    requires width != 0 && height != 0
    requires arith == AsWritten ==> INT_MIN <= width * height * CHANNELS <= INT_MAX
    ensures MainExit([program, MODE_BIN2IMAGE, OutputName(path, width, height)], true, arith) == Exit(0)
  {
    ParseSizeOfOutputName(path, width, height);
    if arith == AsWritten {
      AsWrittenAgreesWithoutOverflow(width, height);
    }
  }
}
