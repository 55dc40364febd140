# halide_utils filename convention — a Dafny model

`halide_utils` converts between image files and raw Halide buffer dumps. The
dump has no header. The image's width and height travel in the file name
instead:

- the encoder (`image2bin`) writes `<path>_<width>x<height>.halide.bin`;
- the decoder (`bin2image`) reads the two numbers back from the text after
  the last underscore (`GetWidthHeight`);
- it insists that their product is non-zero;
- it asks `read` for width × height × 3 bytes;
- it writes the image to `output_` + the last path segment cut at its last
  underscore (`GetFilePrefix`);
- `main` dispatches on the mode and chooses the exit code.

The model covers this convention and the decisions built on it:

- `wrappers.dfy` (`Wrappers`): `Option` and `Result`.
- `cxx_string.dfy` (`CxxString`): `std::string::find_last_of` and `find` on
  one character.
- `cxx_convert.dfy` (`CxxConvert`): `std::to_string(int)` and `std::stoi`
  (base 10, C locale, 32-bit `int`, both exceptions).
- `filename.dfy` (`Filename`): the output name; `GetWidthHeight` as a method
  that follows the source step by step, with its specification `ParseSize`;
  `GetFilePrefix` as a method with the `getline` loop, with its
  specification `FilePrefix`; the round-trip lemmas.
- `cli.dfy` (`Cli`): `bin2image`'s decisions and `main`'s dispatch, as
  functions of whether the input file opens; the 32-bit overflow finding.
  Both functions take the arithmetic of the two products in `bin2image`
  (lines 102 and 107) as a parameter: `AsWritten` is 32-bit `int` with
  two's complement wrap-around, as the compiled code computes it;
  `Corrected` is the products without overflow.

An exception or a failed `assert` is a value of the model:

- `Completion.Threw` when `GetWidthHeight` throws;
- `DecodeEnd.ConversionThrew` and `DecodeEnd.AssertionFailed` inside `bin2image`;
- `ProcessEnd.Terminate` and `ProcessEnd.Abort` for the process.

`assert` is modelled as active, i.e. as if the program is built without
`NDEBUG`.

## Model

| member | source | states |
|---|---|---|
| CxxString.FindLastOf | halide_utils/main.cpp:39 | `npos` exactly when the character is absent; otherwise a position holding it with no occurrence after it |
| CxxString.Find | halide_utils/main.cpp:46 | `npos` exactly when the character is absent; otherwise a position holding it with no occurrence before it |
| CxxString.FindLastOfAt | halide_utils/main.cpp:39 | a position holding the character with none after it is what `find_last_of` returns |
| CxxString.FindAt | halide_utils/main.cpp:46 | a position holding the character with none before it is what `find` returns |
| CxxString.FindLastOfAppend | halide_utils/main.cpp:39 | the last occurrence in `a + b` is the last one in `b`, shifted by the length of `a`, or else the last one in `a` |
| CxxConvert.Stoi | halide_utils/main.cpp:54-55 | text with no digits after the optional blanks and sign throws `invalid_argument`, as does a first character that is not a blank, sign or digit |
| CxxConvert.StoiOfParts | halide_utils/main.cpp:54-55 | `stoi` on any text, split into leading blanks, an optional sign, the whole digit run and the rest: `invalid_argument` without digits, the signed value of the digits when it fits an `int`, `out_of_range` otherwise |
| CxxConvert.StoiUnsigned | halide_utils/main.cpp:54-55 | the same for text with no blank and no sign in front |
| CxxConvert.StoiSigned | halide_utils/main.cpp:54-55 | the same for text starting with '+' or '-' |
| CxxConvert.StoiSkipsSpaces | halide_utils/main.cpp:54-55 | any run of leading C-locale blanks does not change the result of `stoi` |
| CxxConvert.StoiSignWithoutDigits | halide_utils/main.cpp:54-55 | `"-.5"` (a sign and no digit) throws `invalid_argument` |
| CxxConvert.StoiOfToStringOutOfRange | halide_utils/main.cpp:54-55 | the decimal text of any value outside the `int` range, on either side, throws `out_of_range` |
| CxxConvert.StoiSkipsSpace | halide_utils/main.cpp:54-55 | a leading C-locale blank does not change the result of `stoi` |
| CxxConvert.SpaceRun | halide_utils/main.cpp:54-55 | the length of the leading run of C-locale blanks, followed by a non-blank or the end |
| CxxConvert.DigitRun | halide_utils/main.cpp:54-55 | the length of the leading digit run: all of it digits, followed by a non-digit or the end |
| CxxConvert.NatToDecimal | halide_utils/main.cpp:19 | non-empty, all digits, its decimal value is the input, and it has no leading zero ("0" for zero) |
| CxxConvert.ToString | halide_utils/main.cpp:19 | non-empty, starts with '-' exactly for a negative value, otherwise only digits |
| CxxConvert.ToStringAvoids | halide_utils/main.cpp:19 | a character that is neither a digit nor '-' (such as '_', 'x' or '/') never occurs in `to_string`'s output |
| CxxConvert.StoiToString | halide_utils/main.cpp:54-55 | `stoi(to_string(i) + rest) == i` for every `int` i, when `rest` does not start with a digit |
| Filename.OutputName | halide_utils/main.cpp:19 | the output name extends the input path, and its last underscore is the one the encoder appends |
| Filename.OutputNameExample | halide_utils/main.cpp:19 | a 4 × 5 image `foo.png` is dumped to `foo.png_4x5.halide.bin` |
| Filename.OutputNameUnderscore | halide_utils/main.cpp:19 | the appended underscore is the last one in the output name |
| Filename.SplitSizeToken | halide_utils/main.cpp:39-51 | no underscore, no 'x' after the last underscore, or a width text and a height text that together with 'x' make up everything after the last underscore, with the width text free of 'x' |
| Filename.SplitAtX | halide_utils/main.cpp:46-51 | no separator exactly when 'x' is absent; otherwise the split is at the first 'x' |
| Filename.ConvertToken | halide_utils/main.cpp:54-55 | succeeds exactly when there is a token and both texts convert |
| Filename.ParseSize | halide_utils/main.cpp:35-65 | reports a missing underscore exactly when the path has none |
| Filename.GetWidthHeight | halide_utils/main.cpp:35-65 | returns 0 whenever it returns. With a token, both dimensions are overwritten. With no underscore, or no 'x' after it, both keep their values. A failed conversion throws that exception, and the width is already stored when only the height failed |
| Filename.ParseSizeUsesLastUnderscore | halide_utils/main.cpp:39-43 | anything before the last underscore, other underscores and 'x' included, does not affect the result |
| Filename.SplitSizeTokenAfter | halide_utils/main.cpp:39-43 | splitting `dir + "_" + token` (token free of '_') looks only at `token` |
| Filename.ParseSizeOfToken | halide_utils/main.cpp:39-55 | `<base>_<to_string(w)>x<to_string(h)><ext>` parses as (w, h) when `ext` has no underscore and does not start with a digit |
| Filename.ParseSizeOfOutputName | halide_utils/main.cpp:19-65 | round trip: the encoder's output name parses back to exactly (width, height), for every path and every `int` pair |
| Filename.ParseSizeExample | halide_utils/main.cpp:35-65 | `a_b_10x20.bin` parses as 10 × 20 (the last underscore wins) |
| Filename.TrimSlash | halide_utils/main.cpp:74-76 | drops at most one trailing '/', and afterwards the text ends in '/' only if one was dropped |
| Filename.AfterLastSlash | halide_utils/main.cpp:74-76 | the result has no '/' and is a suffix of the input, preceded by '/' whenever it is not the whole input |
| Filename.LastSegment | halide_utils/main.cpp:74-76 | the last `getline` token has no '/' |
| Filename.CutAtLastUnderscore | halide_utils/main.cpp:80-83 | a prefix of the input: the text before the last underscore, or all of it when there is none |
| Filename.FilePrefix | halide_utils/main.cpp:67-85 | the prefix has no '/' and is a prefix of the last path segment |
| Filename.GetFilePrefix | halide_utils/main.cpp:67-85 | the `getline` loop keeps the last '/'-separated token (a single trailing '/' adds no empty token), and the result is it cut at its last underscore |
| Filename.AfterLastSlashSkips | halide_utils/main.cpp:74-76 | text up to and including a '/' does not affect the last segment |
| Filename.AfterLastSlashExtends | halide_utils/main.cpp:74-76 | appending slash-free text extends the last segment |
| Filename.LastSegmentSlashStep | halide_utils/main.cpp:74-75 | one `getline` step: a token followed only by its '/' is the last segment; otherwise the last segment lies after that '/' |
| Filename.LastSegmentNoSlash | halide_utils/main.cpp:74-75 | a slash-free remainder is the last token |
| Filename.CutAtLastUnderscoreOf | halide_utils/main.cpp:80-83 | cutting `base + "_" + rest` (rest free of '_') gives `base` |
| Filename.FilePrefixOfSuffixed | halide_utils/main.cpp:67-85 | the prefix of `path + "_" + rest` (rest free of '_' and '/') is the last segment of `path`, or empty when `path` ends in '/' |
| Filename.OutputNameRest | halide_utils/main.cpp:19 | the text the encoder appends after its underscore has no '_' and no '/' |
| Filename.FilePrefixOfOutputName | halide_utils/main.cpp:19-85 | prefix round trip: the prefix of the encoder's output name is the input path's last segment (empty when the path ends in '/') |
| Filename.FilePrefixExample | halide_utils/main.cpp:67-85 | `/a/b/foo_4x5.halide.bin` has prefix `foo` |
| Cli.Wrap32 | halide_utils/main.cpp:102 | a 32-bit `int` congruent to the input modulo 2^32, equal to it when it fits |
| Cli.Wrap64 | halide_utils/main.cpp:102 | a 64-bit value congruent to the input modulo 2^64, equal to it when it fits |
| Cli.AcceptsDimsAsWritten | halide_utils/main.cpp:102 | as written, `assert(width * height)` passes exactly when the true product is not a multiple of 2^32; an empty image always fails it, and when the product fits an `int` it passes exactly for non-zero dimensions |
| Cli.RequestedBytesAsWritten | halide_utils/main.cpp:107 | as written, the count handed to `read` agrees with width × height × 3 modulo 2^32, and equals it whenever it fits an `int` |
| Cli.AsWrittenRejectsNonZeroDims | halide_utils/main.cpp:102 | as written, 65536 × 65536 fails `assert(width * height)` although both are non-zero |
| Cli.AsWrittenMiscountsBytes | halide_utils/main.cpp:102-107 | as written, 30000 × 30000 passes the assert but the byte count passed to `read` is not 30000 × 30000 × 3 |
| Cli.AcceptsDims | halide_utils/main.cpp:102 | corrected check: it passes exactly when width and height are both non-zero |
| Cli.RequestedBytes | halide_utils/main.cpp:107 | corrected byte count: below 2^64 in magnitude, and non-zero exactly for non-zero dimensions |
| Cli.AsWrittenAgreesWithoutOverflow | halide_utils/main.cpp:102-107 | when width × height × 3 fits an `int`, the code as written makes the same check and asks for the same count as the corrected one |
| Cli.Accepts | halide_utils/main.cpp:102 | an empty image fails the check under either arithmetic; corrected, it passes exactly for non-zero dimensions |
| Cli.ByteCount | halide_utils/main.cpp:107 | the count is width × height × 3 modulo 2^32 under either arithmetic; corrected, it is exactly that and non-zero for a non-empty image |
| Cli.Bin2Image | halide_utils/main.cpp:87-124 | It reports and returns exactly when the file cannot be opened. With a token whose dimensions fail the check under the given arithmetic, the assert fails. With a token whose dimensions pass the check under the given arithmetic, it decodes exactly those dimensions. Such a decode asks for the byte count under that arithmetic and writes `output_` + the file prefix. A decode always has non-zero dimensions. A conversion failure escapes as that exception. No underscore, or no 'x', fails the assert |
| Cli.DecodeWith | halide_utils/main.cpp:102-114 | once the dimensions are known, the call decodes exactly when they pass the check, and otherwise fails the assert |
| Cli.MainExit | halide_utils/main.cpp:128-151 | Exit 1 exactly for a wrong argument count and 4 exactly for an unknown mode; otherwise 0. image2bin exits 0. bin2image exits 0 unless its conversion throws (terminate) or its assert fails (abort) |
| Cli.RejectedCallsTouchNoFile | halide_utils/main.cpp:129-148 | a wrong argument count or an unknown mode ends with 1 or 4, whatever the file system and the arithmetic |
| Cli.DecodeEncoderOutput | halide_utils/main.cpp:87-124 | The decoder on the encoder's output of a non-empty W × H image decodes W × H, reads W × H × 3 bytes and writes `output_` + the input's last segment. As written this needs W × H × 3 to fit an `int`; corrected it always holds |
| Cli.DecodeEmptyImageAborts | halide_utils/main.cpp:98-102 | the dump of an image with a zero width or height aborts the decoder, under either arithmetic |
| Cli.AsWrittenDecoderAborts | halide_utils/main.cpp:102 | on the dump of a non-empty image whose area is a multiple of 2^32, the code as written aborts, and `main` with it, where the corrected decoder decodes |
| Cli.MainDecodesEncoderOutput | halide_utils/main.cpp:139-150 | `main` in bin2image mode on the encoder's output of a non-empty image exits with 0. As written this needs W × H × 3 to fit an `int`; corrected it always holds |

## Left out

- `image2bin`: `load_image`, the buffer's data and `number_of_elements`, and
  writing the dump are image and file I/O. Only the name it builds
  (line 19) is modelled, as `OutputName` over the width and height the image
  reports. `main` treats image2bin as exiting 0; a failure inside
  `load_image` is not modelled.
- The open mode `std::ios::binary & std::ios::trunc` at line 22 is I/O and is
  not modelled.
- `bin2image`'s file handling is not modelled: the file size (`seekg`/`tellg`,
  unused by the code), the bytes actually read, a short read, and
  `save_image`. Whether the file opens is a parameter. A decoded dump is
  described by its dimensions, the byte count asked of `read` and the output
  name.
- The Halide buffer constructor at line 104 is called with the parsed
  dimensions. Negative dimensions pass `assert(width * height)`; what the
  Halide runtime then does is foreign code and is not modelled.
- All console output (`cout`, `cerr`) is not modelled: the usage text, the
  "Unable to find" messages, and the output-file lines.
- `assert` is modelled as active. Built with `NDEBUG`, both asserts of
  `bin2image` vanish, and with the first one the `GetWidthHeight` call at
  line 101, which sits inside it: such a build never parses the name and
  always builds a 0 × 0 buffer. That build is not modelled.
- `std::stoi` is modelled for base 10 in the C locale, on `char` text.
  Locale-dependent white space is not modelled.
- A specification of this program could ask for errors to be reported more
  gracefully than this code does, for example by propagating a conversion
  failure or a short read as a return code. The model follows the code. An
  uncaught `stoi` exception terminates the process. A failed assert aborts
  it. Neither exits 0.
- Cli.RequestedBytes: the corrected count is the exact product, whose
  magnitude is below 2^64. A signed 64-bit product of two extreme `int`
  values times 3 would still overflow, so it is not stated as `int64_t`
  arithmetic.
- Signed overflow is undefined behaviour in C++. The `AsWritten` arithmetic
  assumes the two's complement wrap-around that common compilers produce;
  other outcomes of the overflow are not modelled.

## Findings

| source | as written | input that shows it | evidently intended | confidence | as-written member | corrected member |
|---|---|---|---|---|---|---|
| halide_utils/main.cpp:102 | `assert(width * height)` multiplies two `int`s in 32 bits | `f_65536x65536.halide.bin`: 65536 × 65536 wraps to 0, so non-zero dimensions abort | both dimensions non-zero, checked without overflow | medium: signed overflow is undefined behaviour and is modelled as two's complement wrap-around; an optimising compiler may instead fold the test to `width != 0 && height != 0`; not executed | Cli.AsWrittenRejectsNonZeroDims | Cli.AcceptsDims |
| halide_utils/main.cpp:107 | `width*height * ch` is computed in 32-bit `int` | `f_30000x30000.halide.bin`: 2 700 000 000 bytes wrap to a negative count | the count width × height × 3 computed in a wide type | medium: signed overflow is undefined behaviour and is modelled as two's complement wrap-around; not executed | Cli.AsWrittenMiscountsBytes | Cli.RequestedBytes |
