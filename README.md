# XPM decoder model

This is a Dafny model of the XPM 3 pixmap decoder in `xpm/xpm.go`. XPM is a
text image format. The decoder reads the input line by line and keeps only
the lines that begin with a double quote, with their quotes stripped.

- The first kept line is the header: width, height, number of colours and
  characters per pixel.
- The next `ncolors` kept lines are colour lines. Each maps a key of `cpp`
  characters to a colour.
- Every later kept line is a pixel row. It is written into a zeroed
  non-premultiplied RGBA buffer, four bytes per pixel.
- The first error ends the decode.

Modules, one file each:

- `Wrappers`: `Option` and `Result`.
- `GoStrings`: Go's `strings.Fields`, `strings.Join`, single-character
  `strings.Split` and `strings.Index`.
- `GoInts`: the 64-bit `int`, its wrap-around, and `strconv.Atoi`/`Itoa`.
- `XpmTypes`: bytes, colours and the decoder's error kinds.
- `XpmColor`: `stringToColor`.
- `XpmHeader`: `parseDimensions` and `maxPixels`.
- `XpmPalette`: `parseColor` and `nextKeyIndex`.
- `XpmPixels`: the NRGBA image as a class over a byte array, and
  `parsePixels` as a method that writes it in place.
- `XpmDecode`: `stripQuotes`, and the decode.

The decode is modelled twice:

- `Decode` is a function that states the result phase by phase: header,
  colour table, pixel rows.
- `ParseXPM` is the line-by-line loop of the source, with its row counter, its
  colour map and its image. It is proved to compute `Decode`.

The X11 colour-name table is the parameter `names` throughout.

## Model

| member | source | states |
|---|---|---|
| GoStrings.IndexOf | xpm/xpm.go:220 | the result is -1 exactly when the character is absent; otherwise the character is at that index and does not occur before it |
| GoStrings.Split | xpm/xpm.go:116 | `strings.Split` with a one-character separator gives at least one piece, and no piece contains the separator |
| GoStrings.Join | xpm/xpm.go:78 | `strings.Join` of a non-empty list starts with its first part |
| GoStrings.Fields | xpm/xpm.go:72 | every field of `strings.Fields` is a non-empty run of characters none of which is white space |
| GoStrings.FirstIndex | xpm/xpm.go:220 | the first occurrence of a character is the index `strings.Index` returns |
| GoStrings.SplitJoin | xpm/xpm.go:116 | joining the pieces of a split with the separator restores the string |
| GoStrings.JoinSplit | xpm/xpm.go:116 | splitting parts that do not contain the separator, once joined by it, gives the parts back |
| GoStrings.FieldsJoin | xpm/xpm.go:72 | `strings.Fields` of words joined by single spaces gives the words back |
| GoStrings.FieldsSkipsSpace | xpm/xpm.go:72 | leading white space does not change the fields |
| GoStrings.JoinEmpty | xpm/xpm.go:78-83 | a joined value is empty exactly when there are no words or only one empty word |
| GoInts.WrapInt64 | xpm/xpm.go:129 | the 64-bit result lies in range, is congruent to the true value mod 2^64, and is the true value when that fits |
| GoInts.Atoi | xpm/xpm.go:121-148 | `strconv.Atoi` accepts only an optional sign followed by one or more decimal digits; a digit string, or `-` and a digit string, reads as its decimal value, or its negation, exactly when that fits in 64 bits |
| GoInts.AtoiItoa | xpm/xpm.go:121-148 | `strconv.Atoi` reads back the decimal text of every 64-bit integer |
| XpmColor.StringToColor | xpm/xpm.go:183-213 | "none" in any case gives transparent; a `#` value longer or shorter than 4 or 7 characters is an invalid hex colour; a successful `#` value is opaque; a name succeeds exactly when it is in the table, with the table's colour |
| XpmColor.NoneAnyCase | xpm/xpm.go:184-186 | every letter-case spelling of "none" is transparent |
| XpmColor.LongHexRoundTrip | xpm/xpm.go:195-196 | `#rrggbb` gives exactly those three bytes with alpha 0xff |
| XpmColor.LongHexValue | xpm/xpm.go:195-196 | `#` and six hex digits in either letter case gives bytes 16*high+low per channel with alpha 0xff |
| XpmColor.ShortHexIsTimesSixteen | xpm/xpm.go:197-201 | `#rgb` equals `#r0g0b0` (16 times each digit), not `#rrggbb` |
| XpmColor.StringToColorExamples | xpm/xpm_test.go:60-64 | "None" is transparent, `#000000` opaque black, `#ffffff` opaque white, `#fff` is (0xf0, 0xf0, 0xf0, 0xff), `#FFFFFF` is opaque white |
| XpmPalette.NextKeyIndex | xpm/xpm.go:100-110 | the result is at most the length; no token before it is a visual key; the token at it, if any, is one |
| XpmPalette.NextKeyIndexAt | xpm/xpm.go:100-110 | any index with those three properties is the one returned |
| XpmPalette.ParseEntries | xpm/xpm.go:73-97 | fewer than two tokens, or a key followed at once by a key, is a missing colour specification; a first token that is not a visual key, followed by a non-empty token that is not one either, is an unknown visual naming that first token; conversely every unknown-visual error names the first token, which is not a visual key |
| XpmPalette.ParseColor | xpm/xpm.go:66-98 | input shorter than `cpp` is a missing colour specification; otherwise the line succeeds exactly when its entries after the first `cpp` characters do, fails with their error, and on success the key is exactly the first `cpp` characters and the colour is the entries' colour |
| XpmPalette.FirstColorEntryWins | xpm/xpm.go:73-92 | the colour is that of the first `c` entry, given only that it and the m, s, g4 and g entries before it are well-formed; the entries before it are skipped whatever the number of words in their values, and any tokens after its value, from the next visual key on, are never read |
| XpmPalette.ColorEntryDecides | xpm/xpm.go:73-88 | a well-formed `c` entry gives the colour of its value, whatever follows it from the next visual key on |
| XpmPalette.TrailingKeyIgnoredExample | xpm/xpm.go:66-88 | ". c red m" gives key "." and the table's "red": the lone `m` after the colour is never read |
| XpmPalette.SkippedEntries | xpm/xpm.go:73-92 | well-formed m, s, g4 and g entries are skipped with their values: the result is that of the tokens after them |
| XpmPalette.NoColorEntry | xpm/xpm.go:73-97 | a line of well-formed entries without a `c` entry is a missing colour specification |
| XpmPalette.MissingAfterSkipExamples | xpm/xpm.go:73-97 | after a skipped entry, a lone key ("m black c") or a key followed at once by a key ("m black g c red") is a missing colour specification |
| XpmPalette.ColorLineRoundTrip | xpm/xpm.go:66-98 | a written colour line parses back to its key and the colour of its first `c` entry, or fails with that entry's colour error |
| XpmPalette.ParseColorExample | xpm/xpm_test.go:43-45 | ". c #000000" gives key "." and opaque black |
| XpmPalette.ParseColorSpaceKeyExample | xpm/xpm_test.go:47-49 | "  c #000000" gives key " " and opaque black |
| XpmPalette.VisualPrecedenceExample | xpm/xpm.go:85-92 | in "g gray g4 #888888 c red m black" the grey entries are skipped and the colour is the table's "red" |
| XpmHeader.SizeCheckAsWritten | xpm/xpm.go:129-136 | the check as written only ever reports an empty or a too-large image; on a product that fits Go's `int` it passes exactly when the product is positive and below `MaxPixels`, and reports an empty image exactly when the product is not positive |
| XpmHeader.SizeCheck | xpm/xpm.go:129-136 | the corrected size check passes exactly when both sides are positive and the true product is below `MaxPixels`; wherever the check as written rejects, it rejects with the same error |
| XpmHeader.ParseDimensionsWith | xpm/xpm.go:112-154 | an empty header, or one without exactly four fields, gives all zeros and no error; a four-field header succeeds exactly when all four fields are integers and the size, colour-count and characters-per-pixel checks pass, and then gives those integers; otherwise it fails with the first failing step's error, in the source's order |
| XpmHeader.ParseDimensions | xpm/xpm.go:112-154 | an accepted header is all zeros, or has positive fields with fewer than `MaxPixels` pixels; a four-field header is accepted exactly when its fields are integers forming admissible dimensions; wherever the parser as written fails it fails with the same error, whatever it accepts the parser as written accepts alike, and it differs from the parser as written only on a header the written parser accepts and `image.NewNRGBA` then panics on, where it reports the corrected size error |
| XpmHeader.ParseDimensionsAsWritten | xpm/xpm.go:112-154 | a header the parser as written accepts is all zeros, or has positive colour and character counts and 64-bit sides whose wrapped product is positive and below `MaxPixels` |
| XpmHeader.HeaderRoundTrip | xpm/xpm.go:112-154 | a header written from admissible dimensions parses back to them |
| XpmHeader.ParseDimensionsExample | xpm/xpm_test.go:52-58 | "5 10 2 1" gives width 5, height 10, 2 colours, 1 character per pixel |
| XpmHeader.NegativeSidesNoPaletteExample | xpm/xpm.go:129-142 | "-2 -3 0 1" passes the written size check and fails for its colour count, before any allocation; the corrected parser gives the same error |
| XpmHeader.SizeCheckAllocatable | xpm/xpm.go:129-136 | a header the corrected check passes can be allocated, and the check as written passes it too |
| XpmHeader.NewNrgbaPanics | xpm/xpm.go:43 | `image.NewNRGBA` panics on a negative side or a buffer of more than `MaxInt64` bytes; where it does not, the sides and the byte count `4 * w * h` are non-negative Go `int`s |
| XpmHeader.SizeChecksAgreeWhereAllocatable | xpm/xpm.go:129-136 | wherever Go can allocate the image, the corrected and the written checks agree |
| XpmHeader.NegativeSidesPassAsWritten | xpm/xpm.go:129-132 | "-2 -3 1 1" passes the check as written, the allocation then panics, and the corrected parser rejects it |
| XpmHeader.WrappedToZeroRejectedAlike | xpm/xpm.go:129-131 | width and height 2^32 wrap to a product of 0: the check as written reports an empty image, and the corrected check reports the same |
| XpmHeader.WrappedProductPassesAsWritten | xpm/xpm.go:129-136 | width 3 and height 6148914691236517206 wrap to a product of 2 and pass as written; the corrected check reports too many pixels |
| XpmPixels.Nrgba.constructor | xpm/xpm.go:43 | a new image of the header's size has every byte zero |
| XpmPixels.RowError | xpm/xpm.go:157-163 | a row fails with missing pixel data exactly when it has fewer than `cs * width` characters, with too much pixel data exactly when it is long enough but its bytes would end past the `height * 4 * width` byte buffer, and passes exactly when it is long enough and its bytes fit |
| XpmPixels.RowBytesAt | xpm/xpm.go:164-178 | bytes 4i to 4i+4 of a row are the colour of key `row[i*cpp..(i+1)*cpp]`, transparent when the key is not in the table |
| XpmPixels.RowBytesIgnoresTail | xpm/xpm.go:157-166 | characters after `width` keys do not affect the row's bytes |
| XpmPixels.SetPixel | xpm/xpm.go:172-177 | the four bytes at `pos` become the colour and no other byte changes |
| XpmPixels.WriteRow | xpm/xpm.go:164-179 | the loop writes exactly the row's bytes at the offset and leaves every other byte |
| XpmPixels.ParsePixels | xpm/xpm.go:156-181 | a row shorter than `cpp*width` is missing pixel data; a row at or beyond the height is too much pixel data, and neither changes the buffer; otherwise image row `pixRow` becomes the row's bytes and nothing else changes |
| XpmDecode.StripQuotes | xpm/xpm.go:215-225 | a line that is empty or has no opening quote is unchanged; otherwise the result is the text after the opening quote up to the next quote or the end, and contains no quote |
| XpmDecode.StripQuotesAt | xpm/xpm.go:215-225 | with the next quote at `n`, the result is characters 1 to `n` |
| XpmDecode.StripQuotesExample | xpm/xpm_test.go:67 | `"hello"` strips to hello |
| XpmDecode.StripQuotesCommaExample | xpm/xpm_test.go:68 | `"hello",` strips to hello |
| XpmDecode.StripQuotesEmptyExample | xpm/xpm_test.go:69 | `""` strips to the empty string |
| XpmDecode.Kept | xpm/xpm.go:31-36 | there are no more kept lines than input lines, and no kept line contains a quote |
| XpmDecode.KeptAllQuoted | xpm/xpm.go:31-36 | when every line starts with a quote, the kept lines are all of them, in order, each with its quotes stripped |
| XpmDecode.UnquotedLineSkipped | xpm/xpm.go:33-35 | a line without an opening quote, wherever it stands, does not change what is decoded |
| XpmDecode.NoQuotedLines | xpm/xpm.go:63 | no quoted line at all gives no image and no error |
| XpmDecode.BuildTable | xpm/xpm.go:46-54 | the table fails exactly when some colour line fails, and then with the error of the first failing line; otherwise its keys are exactly the non-empty keys the colour lines define |
| XpmDecode.TableFails | xpm/xpm.go:46-50 | the colour table fails exactly when some colour line fails, and then with the error of the first failing line |
| XpmDecode.TableKeys | xpm/xpm.go:52-54 | the table's keys are exactly the non-empty keys the colour lines define |
| XpmDecode.LaterDefinitionWins | xpm/xpm.go:52-54 | each key maps to the colour of the last line that defines it |
| XpmDecode.OutcomeAt | xpm/xpm.go:46-47 | outcome `j` of the colour table is what `parseColor` gives for colour line `j` |
| XpmDecode.CheckRowsFails | xpm/xpm.go:55-59 | the pixel rows pass exactly when each fits, and otherwise fail with the first failing row's error |
| XpmDecode.CanvasLayout | xpm/xpm.go:43-60 | image row `r` holds pixel row `r`'s bytes, and every byte after the supplied rows is zero |
| XpmDecode.DecodedImage | xpm/xpm.go:43-63 | a decoded image has the header's width and height; row `r` holds pixel row `r`; rows never supplied stay transparent |
| XpmDecode.ErrorIsFinal | xpm/xpm.go:38-60 | once an error occurs, no later line changes the result |
| XpmDecode.DecodeHeader | xpm/xpm.go:38-45 | after the header line, the image is all transparent at the header's size, or the decode fails with the header's error |
| XpmDecode.DecodeColorLine | xpm/xpm.go:46-54 | a colour line adds its definition to the table, unless its key is empty, and leaves the image; or it fails the decode with its error |
| XpmDecode.DecodeRowsAppend | xpm/xpm.go:55-60 | a pixel row is written into the next image row and nothing else changes, or it fails the decode with its error |
| XpmDecode.Decode | xpm/xpm.go:23-64 | no quoted line gives no image and no error; a header that fails gives its error; a decoded image has the header's width and height and four bytes per pixel |
| XpmDecode.ParseXPM | xpm/xpm.go:23-64 | the loop over lines returns `Decode`'s result: on an error, that error and no image; with no header, no image and no error; otherwise a fresh image with `Decode`'s size and bytes |
| XpmDecode.ReadRow | xpm/xpm.go:36-61 | one kept line moves the decoder from the decode of the lines before it to the decode with it, or returns that decode's error |
| XpmDecode.ReadHeader | xpm/xpm.go:38-45 | the header line gives a fresh zeroed image of its size, or the header's error |
| XpmDecode.ReadColor | xpm/xpm.go:46-54 | a colour line extends the table as the decode says, or returns its error |
| XpmDecode.ReadPixels | xpm/xpm.go:55-60 | a pixel row written at row `rowNum - ncolors - 1` keeps the image equal to the decode, or returns its error |

## Left out

- Reading the input: `bufio.Scanner` becomes a sequence of lines. Its
  token-size limit, its read errors (xpm/xpm.go:63) and its removal of a
  trailing `\r` are not modelled.
- The `x11colors` table is not part of this model. It is the parameter
  `names`, looked up case-sensitively.
- `color.Color.RGBA()` and the `uint8` conversions (xpm/xpm.go:173-177): a
  colour is four bytes. Every colour the decoder makes is opaque or fully
  transparent, and for those the bytes written are the channel bytes.
- XpmColor.StringToColor: `fmt.Sscanf`'s leniency is left out. A `#` value of
  the right length with any character that is not a hex digit is an error.
  Go's verbs stop early or skip spaces on some such inputs.
- GoInts.Atoi: the syntax and range errors of `strconv.Atoi` are one error
  kind, `NotAnInteger`.
- GoStrings.Fields: white space is ASCII white space only. Each `char`
  stands for one byte of a Go string.
- Error messages: the model keeps error kinds, not text, and does not
  model which of them wrap `ErrInvalidFormat`.
- XpmDecode.ParseXPM: the no-image result is `null`. When no quoted line is
  read (xpm/xpm.go:63), Go returns a non-nil `image.Image` interface holding
  a nil `*image.NRGBA`; on every error path it returns a nil interface.
- XpmHeader.ParseDimensions: the decoder uses the corrected size check (see
  Findings), applied after the parser as written has accepted the header.
  It differs from Go only on a non-zero header that the parser as written
  accepts and whose image `image.NewNRGBA` would panic allocating; there the
  model reports the size error (`XpmHeader.SizeChecksAgreeWhereAllocatable`).
- The ICO decoder and `xpm/register.go` (format registration and reading
  the whole input) are not part of this model.

## Findings

| source | as written | input that shows it | evidently intended | confidence | as-written member | corrected member |
|---|---|---|---|---|---|---|
| xpm/xpm.go:129-132 | only the sign of `w*h` is checked | header "-2 -3 1 1": the product is 6, the check passes, and `image.NewNRGBA` panics on the negative rectangle | reject any negative side | not executed | XpmHeader.NegativeSidesPassAsWritten | XpmHeader.SizeCheckAllocatable |
| xpm/xpm.go:129-136 | `w*h` is a 64-bit product that wraps around | header "3 6148914691236517206 1 1": the product wraps to 2, both checks pass, and the allocation panics | compare the true product with `maxPixels` | not executed | XpmHeader.WrappedProductPassesAsWritten | XpmHeader.SizeCheckAllocatable |
