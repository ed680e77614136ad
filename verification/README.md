# YOLO post-processing of OpenCV_GPU, modelled in Dafny

This project models the logic of the YOLO object detection demo in
`opencv_example/main.cpp` that sits outside OpenCV. That covers:

- the letterbox geometry that fits a frame into the network input;
- the decoder `parseDetectionsRobust` with its helper `makeDetRowsNxC`. The decoder turns a raw detection-head tensor into boxes, scores and class ids. It guesses the feature axis, whether there is an objectness column, whether coordinates are normalised, and whether boxes are centre or corner form;
- the class-name readers: `loadNamesFile`, and the inline list and inline map forms handled by `parseCocoYaml`;
- `trim`, `parseSize` and the `classColor` palette hash;
- `typeToString` from `opencv_lessons_code/lesson_2.cpp`, which names a `cv::Mat` type.

Floats are Dafny `real`s. `std::round` (half away from zero), C++ integer
division (truncating) and the 32-bit wrap-around of `uint32_t` and `uchar`
are written out explicitly. Each module has one file:

| module | file | models |
|---|---|---|
| `Wrappers` | wrappers.dfy | `Option` and `Result` |
| `Numeric` | numeric.dfy | `std::round`, truncating division, min/max |
| `Text` | text.dfy | `trim`, `string::find`, `std::to_string`, `std::stoi` |
| `Seqs` | seqs.dfy | keeping the `Some` entries of a sequence, with their positions |
| `Letterbox` | letterbox.dfy | `letterbox`, and the `unletterbox` lambda with its inverse |
| `Layout` | layout.dfy | `makeDetRowsNxC`: the axis choice, and the reshape or transpose to N-by-C |
| `Decoder` | decoder.dfy | `parseDetectionsRobust` |
| `Names` | names.dfy | `loadNamesFile`, plus the inline list, inline map and fallback order of `parseCocoYaml` |
| `Palette` | palette.dfy | `classColor` |
| `MatType` | mattype.dfy | `typeToString` |
| `CommandLine` | cli.dfy | `parseSize` |

## Model

| member | source | states |
|---|---|---|
| Text.Trim | opencv_example/main.cpp:26-33 | the result has no leading or trailing space, tab, CR or LF; it is empty exactly when the input is all such blanks; it is the input with only blanks removed from the two ends |
| Text.FirstNonSpace | opencv_example/main.cpp:28 | `find_first_not_of(" \t\r\n")`: the first position at or after `from` that is not a blank, with only blanks between `from` and it; none exactly when the rest is all blanks |
| Text.LastNonSpace | opencv_example/main.cpp:31 | `find_last_not_of(" \t\r\n")`: the last position before `upto` that is not a blank, with only blanks between it and `upto`; none exactly when that prefix is all blanks |
| Text.TrimOfPadded | opencv_example/main.cpp:26-33 | an unpadded core surrounded by any blanks trims back to exactly that core |
| Text.TrimIdempotent | opencv_example/main.cpp:26-33 | trimming twice gives the same as trimming once |
| Text.Find | opencv_example/main.cpp:111-112 | `find` returns the first position at or after `from` holding the character, and nothing exactly when no such position exists |
| Text.ToDecimal | opencv_lessons_code/lesson_2.cpp:42 | `to_string` of a non-negative number is a non-empty digit string with no leading zero, except for "0" itself |
| Text.DigitsValueOfDecimal | opencv_lessons_code/lesson_2.cpp:42 | the decimal text of `n` denotes `n` |
| Text.ToDecimalInjective | opencv_lessons_code/lesson_2.cpp:42 | different numbers print differently |
| Text.ParseInt | opencv_example/main.cpp:118 | `stoi` yields a value only inside the 32-bit `int` range; every failure the source raises as an exception is `None` |
| Text.ParseIntOfDecimal | opencv_example/main.cpp:118 | `stoi` reads back any in-range decimal, whatever non-digit text follows it |
| Text.ParseIntOfNegative | opencv_example/main.cpp:463 | a minus sign followed by a decimal reads back as the negated value, down to `INT_MIN` |
| Text.ParseIntSkipsSpace | opencv_example/main.cpp:118 | leading C whitespace does not change what `stoi` reads |
| Text.ParseIntNeedsDigits | opencv_example/main.cpp:118 | when no digit follows the leading white space and the optional sign, `stoi` fails (`invalid_argument`) |
| Text.ParseIntOverflow | opencv_example/main.cpp:118 | a decimal above `INT_MAX`, whatever non-digit text follows it, fails (`out_of_range`) |
| Text.ParseIntUnderflow | opencv_example/main.cpp:463 | a minus sign and a decimal below `INT_MIN` fails (`out_of_range`) |
| Names.NameLine | opencv_example/main.cpp:44-47 | a line yields its trimmed text, which is non-empty and not a comment; it yields nothing exactly when the trimmed line is empty or starts with `#` |
| Names.NameLineReadsBack | opencv_example/main.cpp:44-47 | a plain name with blank padding on its line reads back as itself |
| Names.NamesFromLines | opencv_example/main.cpp:35-50 | every collected name is plain and is what some line yields; every name a line yields is collected; there are no more names than lines |
| Names.NamesFromLinesFollowLines | opencv_example/main.cpp:42-48 | name k comes from the k-th line that yields a name: the source lines increase, and every line that yields a name is among them |
| Names.NamesFileReadsBack | opencv_example/main.cpp:35-50 | a file of plain names, one per line, reads back as exactly those names in order |
| Names.Dequote | opencv_example/main.cpp:90-96 | a quote (`'` or `"`) is dropped from the front when there is one, and then from the back when one is left there: quoted at both ends gives the middle, at one end drops that end, at neither leaves the text unchanged |
| Names.DequoteQuote | opencv_example/main.cpp:90-96 | removing the quotes undoes single-quoting, for every name |
| Names.Flush | opencv_example/main.cpp:78-81 | ending a token appends its trimmed text exactly when that text is non-empty, and changes nothing otherwise |
| Names.ListTokens | opencv_example/main.cpp:74-89 | the comma loop only appends to the names collected so far |
| Names.ListTokensClean | opencv_example/main.cpp:74-89 | every token the comma loop cuts is non-empty, unpadded and free of commas |
| Names.ListTokensOfJoin | opencv_example/main.cpp:74-89 | on clean tokens joined by `, `, the character loop cuts exactly those tokens, appended in order |
| Names.InlineListNames | opencv_example/main.cpp:68-98 | names taken from an inline list contain no comma; blank text gives no names, and comma-free text gives its one trimmed, dequoted name |
| Names.InlineListOfJoin | opencv_example/main.cpp:68-98 | captured list text of clean tokens joined by `, `, quoted or bare, yields every token in order with its quotes stripped |
| Names.InlineListOfBareNames | opencv_example/main.cpp:68-98 | the bare form `a, b, c` of the captured list text reads back as exactly those names when none starts or ends with a quote |
| Names.InlineListReadsBack | opencv_example/main.cpp:74-98 | captured list text `'a', 'b', ...` (what the pattern at line 70 takes from between `[` and the first `]`) with comma-free names reads back as exactly those names |
| Names.SetName | opencv_example/main.cpp:124-126 | after `names[idx] = val` the vector has length max(old length, idx+1); slot idx holds val; old slots are unchanged; new slots are empty |
| Names.MapEntry | opencv_example/main.cpp:113-127 | a token without a colon changes nothing; an entry never shortens the vector |
| Names.MapEntrySplit | opencv_example/main.cpp:115-126 | for a key without a colon: a key `stoi` cannot read fails with `BadIndex`; a negative index fails with `NegativeIndex`; otherwise slot idx is set to the trimmed, dequoted value |
| Names.MapTokens | opencv_example/main.cpp:107-132 | the comma loop of the inline map never shortens the vector |
| Names.MapTokensOfJoin | opencv_example/main.cpp:107-132 | on `, `-joined clean tokens, the `find`/`substr` loop has the same effect as applying the entries one by one, stopping at the first failure |
| Names.InlineMapNames | opencv_example/main.cpp:101-136 | inline map text without any colon yields no names, so the reader falls through |
| Names.MapEntryReadsBack | opencv_example/main.cpp:113-127 | the entry `k: 'name'` applied to a vector of k names appends name |
| Names.InlineMapReadsBack | opencv_example/main.cpp:107-136 | captured map text `0: 'a', 1: 'b', ...` (what the pattern at line 103 takes from between `{` and the first `}`) with comma-free names reads back as exactly those names |
| Names.CocoYamlNames | opencv_example/main.cpp:53-186 | a non-empty inline list wins; otherwise a failing inline map propagates its failure and a non-empty inline map wins; when neither gives names, the line-by-line result (a success or its own failure) is returned |
| Names.CocoYamlOfList | opencv_example/main.cpp:68-98 | when the list pattern captured a non-empty quoted list of comma-free names, `parseCocoYaml` returns exactly those names, whatever the map capture and the line-by-line section hold |
| Names.CocoYamlOfMap | opencv_example/main.cpp:101-136 | when the list pattern did not match and the map pattern captured comma-free names numbered 0, 1, ..., `parseCocoYaml` returns exactly those names, whatever the line-by-line section holds |
| Palette.Hash | opencv_example/main.cpp:215 | the multiplicative hash is a 32-bit unsigned value |
| Palette.ClassColor | opencv_example/main.cpp:213-217 | each channel is a byte, and blue, green and red are bytes 0, 1 and 2 of the hash |
| Palette.UnhashHash | opencv_example/main.cpp:215 | multiplying by the inverse of 2654435761 modulo 2^32 recovers the class id modulo 2^32 |
| Palette.HashInjective | opencv_example/main.cpp:215 | two class ids hash alike exactly when they agree modulo 2^32 |
| Palette.ClassColorWraps | opencv_example/main.cpp:213-217 | class ids 2^32 apart get the same colour (the `uint32_t` cast) |
| Letterbox.Letterbox | opencv_example/main.cpp:220-235 | the image is scaled by the largest factor that fits, filling one side exactly; resized sides round the scaled sides to nearest with halves rounding up, and fit the canvas; each pair of pads is non-negative and completes its side, with the odd pixel going right or down |
| Letterbox.FitScale | opencv_example/main.cpp:223 | the scale is positive, fits both sides, and fills at least one of them |
| Letterbox.ResizedSide | opencv_example/main.cpp:224 | the rounded side lies within half a pixel of the scaled side, a half rounding up; it never exceeds the target, and equals the target when the scaled side does |
| Letterbox.Split | opencv_example/main.cpp:226 | the slack splits into two non-negative parts that differ by at most one, the second part being the larger |
| Letterbox.Unletterbox | opencv_example/main.cpp:361-370 | scaling the result and adding the pad gives back the canvas box |
| Letterbox.UnletterboxOfCanvas | opencv_example/main.cpp:361-370 | a box mapped to the canvas and back is unchanged |
| Letterbox.CanvasOfUnletterbox | opencv_example/main.cpp:361-370 | a canvas box mapped back and then to the canvas again is unchanged |
| Numeric.Round | opencv_example/main.cpp:420-423 | the result is within one half of x, and a tie is broken away from zero |
| Numeric.RoundIsNearest | opencv_example/main.cpp:420-423 | no integer is closer to x than its rounding |
| Numeric.RoundIsOdd | opencv_example/main.cpp:420-423 | rounding is symmetric about zero |
| Numeric.TruncDiv | opencv_example/main.cpp:226 | the quotient truncates toward zero |
| Layout.ResolveLayout | opencv_example/main.cpp:257-294 | an axis of at most 512 entries is the feature axis when the other axis is longer than 512; otherwise the smaller axis is, the first one on a tie; the cell count is preserved |
| Layout.ResolvedChannelsAreShort | opencv_example/main.cpp:260-294 | when either axis is at most 512, so is the chosen feature axis; the feature axis is never longer than the candidate axis |
| Layout.Canonical | opencv_example/main.cpp:263-294 | the N-by-C view is the transpose of the C-by-N reshape when channels come first, and the N-by-C reshape otherwise |
| Layout.RowMajor | opencv_example/main.cpp:276 | `reshape(1, rows)` puts flat entry i*cols+j at (i, j) |
| Layout.ColumnMajor | opencv_example/main.cpp:268-269 | `reshape(1, C).t()` puts flat entry j*N+i at (i, j) |
| Decoder.ClassColumnsMatchExpected | opencv_example/main.cpp:337-343 | when the expected class count fits either layout, the class columns are exactly that many |
| Decoder.HasObjectness | opencv_example/main.cpp:337-350 | there is an objectness column when C-5 is the expected class count, none when C-4 is, and otherwise exactly when C >= 85 |
| Decoder.ClassStart | opencv_example/main.cpp:395 | class scores start at column 5 exactly when there is an objectness column, and at column 4 exactly when there is none |
| Decoder.FallbackObjectness | opencv_example/main.cpp:344-350 | with an unknown class count, objectness is assumed exactly when C >= 85, so 84 columns mean no objectness |
| Decoder.SmallCount | opencv_example/main.cpp:374-376 | `smallCnt` equals the loop's count, one value at a time, of the first four values that are at most 1.5 |
| Decoder.LooksNormalized | opencv_example/main.cpp:372-377 | coordinates are taken as normalised exactly when no two of the first row's four box values exceed 1.5 |
| Decoder.LooksNormalizedIff | opencv_example/main.cpp:372-377 | coordinates are taken as normalised exactly when at most one of the first row's four box values exceeds 1.5 |
| Decoder.ContextOf | opencv_example/main.cpp:337-377 | the per-tensor decisions: objectness exactly when C-5 is the expected count, or C-4 is not and C >= 85; normalised exactly when all of row 0's four box values but at most one are at most 1.5; the parameters are passed through |
| Decoder.BoxValues | opencv_example/main.cpp:385-392 | the box values are scaled by the input width (x values) and height (y values) when normalised, and kept otherwise |
| Decoder.CentreForm | opencv_example/main.cpp:354-357 | the centre-form box has centre (b0, b1) and extent (b2, b3) |
| Decoder.CornerForm | opencv_example/main.cpp:358-359 | the corner-form box spans from corner (b0, b1) to corner (b2, b3) |
| Decoder.PlausibleCentre | opencv_example/main.cpp:408-416 | the `valid` lambda (`Decoder.Plausible`) accepts the centre reading exactly when w > 1, h > 1, cx + w/2 > 1 and cy + h/2 > 1 |
| Decoder.ChooseBox | opencv_example/main.cpp:408-416 | the centre reading is taken whenever it is plausible; the corner reading is taken otherwise, unchecked |
| Decoder.ScanClasses | opencv_example/main.cpp:396-403 | the pick is the first column with the largest positive score, or class -1 with score 0 when no score is positive |
| Decoder.Confidence | opencv_example/main.cpp:394-404 | with objectness the confidence is obj times the best class score; without, it is the best class score: no class score exceeds it, and it is one of them or 0 |
| Decoder.NoClassNoConfidence | opencv_example/main.cpp:394-404 | when no class score is positive the confidence is 0, with or without objectness |
| Decoder.PixelBox | opencv_example/main.cpp:408-423 | each field of the integer box is the nearest integer to the chosen box mapped back to the original image (within half a pixel), with halves rounded away from zero as `std::round` does |
| Decoder.ClampToImage | opencv_example/main.cpp:427-431 | x and y move into [0, w-1] and [0, h-1]: kept when already inside, else set to the nearest edge; the width (height) is then cut to what is left of the image from there; the result is non-negative, inside the image, positive exactly when the original's side is and the image has that side, and never grows |
| Decoder.ClampKeepsInside | opencv_example/main.cpp:427-431 | a non-empty box already inside the image is left unchanged |
| Decoder.ClampIdempotent | opencv_example/main.cpp:427-431 | clamping twice gives the same as clamping once |
| Decoder.ClampShiftsNotCuts | opencv_example/main.cpp:427-431 | a box hanging off the left edge is moved onto the image with its width kept, not cut at the edge |
| Decoder.DecodeRow | opencv_example/main.cpp:381-438 | an emitted detection has confidence obj*clsScore at or above the threshold, the scanned class id, and as its box the clamped pixel box, non-empty and inside the image; a row below the threshold emits nothing |
| Decoder.DecodeRowEmitsIff | opencv_example/main.cpp:404-433 | a row is emitted exactly when its confidence reaches the threshold, its rounded box is over one pixel each way, and the image is non-empty |
| Decoder.DecodeRowKeepsInsideBox | opencv_example/main.cpp:427-435 | a rounded box already inside the image is pushed unchanged |
| Decoder.Unzip | opencv_example/main.cpp:435-437 | the three output vectors have equal length, and entry k of each comes from detection k |
| Decoder.DecodeMatrix | opencv_example/main.cpp:327-438 | the vectors are parallel and no longer than N; C < 6, N = 0 or an empty image give nothing; every score reaches the threshold, every box is inside the image, and every class id is in [-1, C-4) |
| Decoder.DecodeMatrixFollowsRows | opencv_example/main.cpp:381-438 | output entry k is the detection of an increasing sequence of rows, and every row that yields a detection appears |
| Decoder.Decode | opencv_example/main.cpp:304-332 | rank 3 with a leading size other than 1 fails (the `CV_Assert`); ranks other than 2 and 3 give nothing; otherwise the vectors are parallel, scores reach the threshold and boxes are inside the image |
| Decoder.DecodeFollowsTensor | opencv_example/main.cpp:304-332 | a rank-3 output with leading size 1 gives the detections of the N-by-C matrix whose row i, column j is element (0, j, i) when the feature axis comes first and (0, i, j) otherwise; resolved C < 6 or N = 0 gives nothing; there are at most N detections |
| Decoder.DecodeFollowsRank2 | opencv_example/main.cpp:312-332 | a rank-2 output gives the detections of its rows read as they are; fewer than 6 columns or no rows gives nothing; there are at most as many detections as rows |
| MatType.MakeTypeParts | opencv_lessons_code/lesson_2.cpp:11-12 | the depth mask and the channel shift recover the depth and channel count of `CV_MAKETYPE` |
| MatType.Depth | opencv_lessons_code/lesson_2.cpp:11 | `type & CV_MAT_DEPTH_MASK`: the depth is the residue of the type modulo 8, in [0, 8) |
| MatType.WideChannels | opencv_lessons_code/lesson_2.cpp:12 | `1 + (type >> CV_CN_SHIFT)` before narrowing: the type is rebuilt as 8 * (channels - 1) + depth |
| MatType.NarrowChannels | opencv_lessons_code/lesson_2.cpp:12 | the `uchar` channel count is below 256 and congruent to the true count modulo 256 |
| MatType.TypeToString | opencv_lessons_code/lesson_2.cpp:8-44 | the name is the depth tag, `C`, and a decimal without a leading zero whose value is the channel count as a `uchar`, (1 + (type >> 3)) mod 256 |
| MatType.DepthTag | opencv_lessons_code/lesson_2.cpp:14-40 | no depth tag contains the letter C |
| MatType.DepthTagInjective | opencv_lessons_code/lesson_2.cpp:14-40 | the seven known depths have distinct tags |
| MatType.TypeToStringOfMakeType | opencv_lessons_code/lesson_2.cpp:8-44 | a type with fewer than 256 channels is named by its depth tag, `C` and its channel count |
| MatType.TypeToStringInjective | opencv_lessons_code/lesson_2.cpp:8-44 | for known depths and at most 255 channels, distinct types get distinct names |
| MatType.NarrowChannelsZero | opencv_lessons_code/lesson_2.cpp:12 | the 256-channel 8U type prints as "8UC0" |
| MatType.NarrowChannelsCollide | opencv_lessons_code/lesson_2.cpp:12 | the 257-channel 8U type prints like `CV_8UC1`, while the int-count version tells them apart |
| MatType.TypeToStringWideOfMakeType | opencv_lessons_code/lesson_2.cpp:8-44 | with an `int` channel count, every type up to 512 channels is named by its tag, `C` and its true channel count |
| MatType.TypeToStringWideInjective | opencv_lessons_code/lesson_2.cpp:8-44 | with an `int` channel count, distinct known-depth types up to 512 channels get distinct names |
| CommandLine.ParseSize | opencv_example/main.cpp:456-471 | text without an `x` is refused; an accepted size has both sides positive and within `int` |
| CommandLine.ParseSizeSplitsAtFirstX | opencv_example/main.cpp:456-471 | for `a` without an `x`, `a x b` gives (w, h) exactly when `stoi` reads w from a and h from b and both are positive, and it is refused exactly when either read fails or either side is not positive |
| CommandLine.ParseSizeReadsBack | opencv_example/main.cpp:456-471 | `WxH` with positive in-range sides reads back as (W, H) |
| CommandLine.ParseSizeRefusesNonPositive | opencv_example/main.cpp:463-465 | a zero or negative width or height, read from either side of the first `x`, is refused |
| CommandLine.ParseSizeRefusesZero | opencv_example/main.cpp:463-465 | "0x480" and "640x0" are refused |
| CommandLine.ParseSizeRefusesNegative | opencv_example/main.cpp:463-465 | "640x-5" is refused |

## Left out

- Reading files and video, running the network, resizing and copying pixels, drawing, NMS and `main` are I/O or foreign OpenCV calls. The decoder's inputs are the tensor's shape and data, and the output is the three vectors.
- The `std::regex` matching in `parseCocoYaml`: the text inside the `[...]` or `{...}` is the input of the inline readers. `None` stands for a pattern that did not match. The capture ends at the first `]` or `}`, and the first `names:` match in the file is used, so a name holding `]` or `}` is cut there; which part of a file the patterns capture is not modelled.
- The line-by-line `names:` section of `parseCocoYaml` (`opencv_example/main.cpp:137-185`) is regex-driven, and its result is a parameter of `Names.CocoYamlNames`. That parameter is a `Result`, so the `stoi` exception it can raise at `opencv_example/main.cpp:164` is passed through as a failure; when it is raised is not modelled.
- `loadClassList` (the fallback to `cls_0` … `cls_79`) is not part of this model.
- Float rounding is not modelled: values are exact reals, so `float` effects such as `w * r` rounding just below a half are absent.
- Integer overflow in the decoder (`int(round(...))` casts, `box.area()`) and in `names.resize(idx + 1)` near `INT_MAX` is not modelled. Unbounded integers are used there.
- Decoder.Decode: requires a non-zero scale. The source divides by `scale`, and a zero would give infinities.
- Decoder.DecodeMatrix: requires a non-zero scale, for the same reason.
- Letterbox.Letterbox: requires positive image and target sizes. The source divides by the image size.
- Names.MapEntry: a negative index is the failure `NegativeIndex`. The source writes `names[-1]`, which is undefined behaviour.
- A `stoi` failure in the inline map is the failure `BadIndex`. In the source it is an exception that escapes `parseCocoYaml`.
- CommandLine.ParseSize: does not model that the source writes the width into its out-parameter before a failing height parse. Only the accept/refuse result and the pair are modelled.
- Text.ParseInt: reads base 10 in the C locale, which is how the source calls `stoi`; other locales are not modelled.
- Comment versus code at `opencv_example/main.cpp:347-349`: the comment says 84 columns mean objectness, but the code tests `C >= 85`. The model follows the code, as `Decoder.FallbackObjectness` states.
- The `debug` logging of `parseDetectionsRobust` is output only and is left out.

## Findings

| source | as written | input that shows it | evidently intended | confidence | as-written member | corrected member |
|---|---|---|---|---|---|---|
| opencv_lessons_code/lesson_2.cpp:12 | the channel count is stored in a `uchar`, so it wraps modulo 256 | type 2040 (`CV_8UC(256)`) prints "8UC0"; type 2048 (`CV_8UC(257)`) prints "8UC1", like `CV_8UC1` | an `int` channel count, printing the true count for all of OpenCV's up to 512 channels | not executed | MatType.NarrowChannelsCollide | MatType.TypeToStringWideInjective |
