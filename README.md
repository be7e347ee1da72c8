# uuencode encoder, modelled in Dafny

This project models the encoding engine of `uuencode.c`: the `b64s` alphabet,
the quantum transform `encodechunk`, and `encode`, the loop that frames
lines and writes the `begin … / end` envelope. Of `main`, only the mode it
passes to `encode` is modelled.

The modules follow the program's structure:

- `Chunk` (chunk.dfy) covers `b64s` and `encodechunk`.
  - `EncodeChunk` is a method on arrays, with three steps: store the four 6-bit values, map them in place with the `for` loop, and apply the overrides for a short group.
  - The pure specification is `Quantum`.
  - Lemmas prove the bit layout, the Base64 padding, the classic uuencode symbol range, the count `encodechunk` returns, and the round trip of one quantum.
- `Envelope` (envelope.dfy) covers the header `begin[-base64] %03o name` and the terminator, and the mode `main` chooses.
- `Encoder` (encoder.dfy) covers `encode` as imperative code.
  - It keeps the 3-byte `ibuf`, the 76-byte `obuf`, the `lpos` counter, `memset`, and a `fread` over the input bytes.
  - Standard output is the string it returns.
  - `LineBytes` is its specification: the input bytes of every line the loop writes.
- `Layout` (layout.dfy) states the program's output without its loop.
  - The input is cut into spans of a full line (57 bytes for Base64, 33 for uuencode).
  - Every full span becomes a line, and so does a trailing partial span, but only when the input does not end on a whole group.
  - From this follow line counts, line lengths, the frame of each line, and which bytes are lost.
- `Intended` (intended.dfy) holds the corrected behaviour for the findings below, with what they promise proved.

The model follows the code where the code departs from the historical uuencode
format, as the POSIX `uuencode` utility describes it (IEEE Std 1003.1, section
STDOUT), and from Base64 as RFC 4648 defines it:

- The uuencode length character is `0x20 + lpos`, i.e. it counts symbols, not input bytes. The historical format counts the bytes the line carries.
- No zero-length line comes before `end`. The historical format ends the body with a line whose length character means zero.
- Symbols still in `obuf` when the input ends on a full three-byte read are never written. RFC 4648 (section 4) encodes every input byte, the last quantum included.

Each of these three is a row of the section "Findings", with the behaviour as written and the corrected one.

One more difference is recorded but is not a finding: the last group of a uuencode line contributes `n + 1` symbols, where traditional encoders write a full four. A length character that counts bytes fixes the number of symbols that follow, `(4n + 2) / 3` (`Intended.UuSymbolsLength`), so the shorter line still carries every byte.

`DecodeQuantum` and `DecodeSymbols` are reference inverses written for the model. They state the round trips. The repository contains no decoder.

## Model

| member | source | states |
|---|---|---|
| Chunk.B64STable | uuencode.c:34-35 | `b64s` holds 64 entries. Entry `v` is the RFC 4648 symbol for `v`, never the pad `=`, and RfcValue maps it back to `v` |
| Chunk.B64STableOnto | uuencode.c:34-35 | every symbol of the alphabet is the `b64s` entry at its value |
| Chunk.Sextets | uuencode.c:39-42 | the four values computed from a group are each below 64 |
| Chunk.SextetsAreBitFields | uuencode.c:39-42 | the four values are bits 23-18, 17-12, 11-6 and 5-0 of `in[0]:in[1]:in[2]` |
| Chunk.JoinSextets | uuencode.c:39-42 | concatenating the four values gives back the three input bytes |
| Chunk.SextetsJoin | uuencode.c:39-42 | splitting any four joined 6-bit values gives them back, so the split is a bijection |
| Chunk.Symbol | uuencode.c:45 | a Base64 symbol is never the pad `=` and RFC 4648 reads it back as the value; a uuencode symbol lies in 0x20..0x5F and, less 0x20, is the value |
| Chunk.Quantum | uuencode.c:39-54 | the symbols of a group are four |
| Chunk.Override2 | uuencode.c:48-50 | the override for `n < 2` is `=` in Base64 mode |
| Chunk.Override3 | uuencode.c:52-54 | the override for `n < 3` is `=` in Base64 mode |
| Chunk.Count | uuencode.c:56 | for a read of one to three bytes the count is between 2 and 4: always 4 in Base64, and in uuencode the fewest six-bit symbols that hold the `n` bytes |
| Chunk.EncodeChunk | uuencode.c:37-57 | `out[off..off+4)` becomes the group's quantum, every other cell of `out` is unchanged, and the result is 4 for Base64 or `4-(3-n)` for uuencode |
| Chunk.StoreSextets | uuencode.c:39-42 | the four cells at `off` receive the four values, and nothing else changes |
| Chunk.MapSymbols | uuencode.c:44-46 | each of the four cells is replaced by the symbol of the value it held, and nothing else changes |
| Chunk.PadShortGroup | uuencode.c:48-54 | after the overrides the four cells are the quantum, and nothing else changes |
| Chunk.QuantumEntries | uuencode.c:44-54 | entries 0 and 1 are always mapped values. Entry 2 is the mapped value when `n >= 2` and the `n < 2` override otherwise; entry 3 is the mapped value when `n >= 3` and the `n < 3` override otherwise |
| Chunk.QuantumLeads | uuencode.c:44-54 | the first symbol of a Base64 quantum is always a mapped value, never the pad `=` |
| Chunk.QuantumAlphabet | uuencode.c:44-54 | every symbol of a quantum, overrides included, is in the scheme's alphabet: an RFC 4648 symbol or `=`, or a character in 0x20..0x5F |
| Chunk.Base64Padding | uuencode.c:48-54 | in Base64 entry `i` is `=` exactly when `i > n`, which gives 2, 1 or 0 pads. The other entries are `b64s[v]` and all four count |
| Chunk.UuencodeSymbols | uuencode.c:44-54 | every uuencode symbol, the overrides included, lies in 0x20..0x5F. The overrides are `((in[0]<<4)&0x3f)+0x20` and `((in[1]<<2)&0x3f)+0x20`. `n + 1` symbols count, and a zero value is a space |
| Chunk.PadBitsZero | uuencode.c:39-42 | with the unread bytes zero, the bits of the last meaningful value that lie past the data are zero |
| Chunk.JoinMeaningful | uuencode.c:39-42 | the first `n + 1` values determine the first `n` bytes |
| Chunk.ValuesReadBack | uuencode.c:44-56 | from the symbols that count, a decoder finds `n` (by the pads or by the count) and reads back the meaningful values |
| Chunk.UuValueInverse | uuencode.c:45 | subtracting 0x20 undoes the uuencode mapping |
| Chunk.QuantumRoundTrip | uuencode.c:39-56 | the counted symbols of a group decode to exactly the `n` bytes read |
| Envelope.Octal | uuencode.c:61 | `%o` writes at least one octal digit |
| Envelope.Octal03 | uuencode.c:61 | `%03o` writes at least three octal digits |
| Envelope.OctalRoundTrip | uuencode.c:61 | the `%o` numeral reads back as the number |
| Envelope.LeadingZeros | uuencode.c:61 | zero padding does not change the value read back |
| Envelope.OctalLength | uuencode.c:61 | a numeral has at most `k` digits exactly when the number is below 8^k |
| Envelope.Octal03RoundTrip | uuencode.c:61 | `%03o` reads back as the mode, and is three digits wide exactly when the mode is below 0o1000 |
| Envelope.Octal03Digits | uuencode.c:61 | below 0o1000 the three digits are the mode's octal digits |
| Envelope.Header | uuencode.c:61 | the header starts with `begin ` or `begin-base64 `, has the width of the prefix, the mode field, the path and two more characters, and ends with a space, the path verbatim and a newline |
| Envelope.HeaderFields | uuencode.c:61 | the header is `begin` or `begin-base64`, a space, three octal digits that read back as the mode, a space, the path verbatim, and a newline |
| Envelope.HeaderDefaultMode | uuencode.c:61 | mode 0644 for `x` gives `begin 644 x\n` |
| Envelope.HeaderBase64 | uuencode.c:61 | mode 0755 in Base64 gives `begin-base64 755 foo.bin\n` |
| Envelope.Terminator | uuencode.c:91 | the terminator ends in a newline. Base64's is pads only, and uuencode's starts with a character above 0x5F, outside the symbol range 0x20..0x5F |
| Envelope.MainMode | uuencode.c:126-130 | the mode `main` passes is below 0o1000, and is 0644 when there is no file mode |
| Envelope.MainModeField | uuencode.c:126-130 | the header `main` leads to has a mode field of exactly three digits that read back as the mode (`644` by default) |
| Encoder.LineLength | uuencode.c:64 | `linelength + 1` is a whole number of four-symbol groups and fits the 76-byte `obuf`, so `lpos` passes `linelength` exactly as a group fills the line |
| Encoder.GroupsPerLine | uuencode.c:64 | a full line holds the fewest four-symbol groups that take `lpos` past `linelength`, 19 or 11, and it still fits in the 76-byte `obuf` |
| Encoder.ReadBuffer | uuencode.c:88 | after a read into the cleared `ibuf`, the buffer holds the bytes read, then zeros |
| Encoder.GroupSymbols | uuencode.c:76 | one read adds as many symbols as `encodechunk` returns, all in the scheme's alphabet |
| Encoder.Memset | uuencode.c:86-88 | every cell becomes zero |
| Encoder.Fread | uuencode.c:70 | up to three bytes go to the front of the buffer, fewer only when fewer remain; the rest of the buffer is untouched, and the unread bytes are what is left |
| Encoder.ClearedRead | uuencode.c:88 | a cleared buffer after a read is ReadBuffer of the bytes read |
| Encoder.SymbolsLead | uuencode.c:44-46 | a Base64 line of at least one byte starts with a symbol of the alphabet, never the pad `=` |
| Encoder.Symbols | uuencode.c:76 | the symbols of a line are all in the scheme's alphabet, and a line of at least one byte has at least two |
| Encoder.ReadGroup | uuencode.c:70 | a read into the cleared `ibuf` yields ReadBuffer of the next `min(3, remaining)` bytes, and consumes them |
| Encoder.LengthChar | uuencode.c:80 | the length character is `0x20 + lpos` modulo 256, and exactly `0x20 + lpos` for any `lpos` a line can have |
| Encoder.WriteLine | uuencode.c:79-84 | a line is written as the uuencode length character, the `lpos` buffered symbols and a newline (no length character in Base64) |
| Encoder.Frame | uuencode.c:79-84 | a written line ends with a newline, the symbols sit just before it, and in uuencode it starts with the length character, one more character than Base64 |
| Encoder.SymbolsLength | uuencode.c:76 | whole groups give four symbols each, and a short last group gives Count symbols |
| Encoder.SymbolsAppend | uuencode.c:76 | after whole groups the line's symbols continue with those of the next bytes |
| Encoder.PendingLine | uuencode.c:76 | the buffered symbols followed by one more read's symbols are those of all the bytes, and `lpos` counts them |
| Encoder.GroupRoundTrip | uuencode.c:39-56 | one read's symbols decode to exactly the bytes read |
| Encoder.SymbolsRoundTrip | uuencode.c:76-83 | the symbols of a line decode to exactly the line's bytes |
| Encoder.HoldsNext | uuencode.c:76 | a full group keeps `lpos` at four symbols per buffered group |
| Encoder.AppendGroup | uuencode.c:76 | `lpos += encodechunk(...)` makes the whole of `obuf` the old first `lpos` cells, the group's quantum and the old cells after it. So `obuf[..newlpos]` holds the symbols of all buffered bytes, and the new `lpos` stays within the 76-byte `obuf`. With the cells past `lpos` zero before, a full quantum leaves them zero past the new `lpos`; a short uuencode group leaves its uncounted symbols there |
| Encoder.LineRoom | uuencode.c:76 | before each `encodechunk`, with `lpos` at most `linelength`, `lpos` is at most 72 (Base64) or 40 (uuencode), so the 4-byte write fits in `obuf` |
| Encoder.Flush | uuencode.c:79-86 | the buffered line is written as its frame, and `obuf` becomes all zero |
| Encoder.LineBytesTurn | uuencode.c:78-87 | one turn of the loop writes the line exactly when `lpos > linelength` or `nread < 3`, and otherwise keeps it buffered |
| Encoder.LineBytes | uuencode.c:70-89 | the loop never writes an empty line: every line carries at least one input byte |
| Encoder.Turn | uuencode.c:76-88 | after one loop body `lpos` counts the buffered groups and stays within `linelength`. A line is written exactly when `lpos > linelength` or the read was short, in which case `lpos` is 0 and `obuf` is all zero. What this turn and the later turns write equals LineBytes of what the turn saw. The cells of `obuf` past `lpos` stay zero |
| Encoder.EncodeBody | uuencode.c:63-89 | the read loop prints exactly the framed lines of LineBytes of the input; its invariant keeps `obuf` zero past `lpos` |
| Encoder.Encoding | uuencode.c:59-93 | the whole output opens with the header and closes with the terminator |
| Encoder.Encode | uuencode.c:59-93 | `encode` prints exactly the header, then the framed lines, then the terminator |
| Layout.Span | uuencode.c:64 | a full line carries three bytes per group, 57 or 33 |
| Layout.FullLine | uuencode.c:78 | with whole groups buffered, a full read takes `lpos` past `linelength` exactly when it completes a span |
| Layout.LastSpan | uuencode.c:78 | a final short read writes everything buffered as one line |
| Layout.LineBytesFrom | uuencode.c:70-89 | from any buffered state of whole groups, the loop's lines are the spans of everything else to be read |
| Layout.LinesAreSpans | uuencode.c:70-89 | the loop's lines are the spans of the input |
| Layout.SpanCount | uuencode.c:70-89 | there is one line per full span, and one more when the input length is not a multiple of three |
| Layout.SpanSizes | uuencode.c:78 | every line but the last carries a full span, and the last carries between one byte and a full span. All are full when the input length is a multiple of three |
| Layout.LineSymbols | uuencode.c:76-78 | a full line has 76 (Base64) or 44 (uuencode) symbols, and every line has between 2 and that many |
| Layout.SpansCarry | uuencode.c:70-91 | the lines carry every input byte in order except the Dropped tail, which is whole groups short of a span |
| Layout.NothingDropped | uuencode.c:78 | nothing is lost exactly when the input ends on a short read or fills its last span |
| Layout.BodyRoundTrip | uuencode.c:70-89 | every written line decodes to its bytes, and together the lines give the input without the Dropped tail |
| Layout.FrameLayout | uuencode.c:79-84 | every line ends in a newline. A uuencode line starts with `0x20` plus its symbol count (`L` for a full line), and a Base64 line has no prefix |
| Layout.EncodingLayout | uuencode.c:59-93 | the output is the header, the framed spans, and the terminator |
| Layout.TerminatorNotALine | uuencode.c:78-91 | no written line is the terminator, and none even starts with its first character: a Base64 line starts with a symbol, never `=`, and a uuencode line with a length character of at most `L` (0x4C), below the `e` of `end` |
| Layout.NoZeroLengthLine | uuencode.c:78-91 | no written line is empty: a uuencode length character is at least `0x22`, so no zero-length line appears before `end` |
| Layout.EmptyInput | uuencode.c:70-91 | empty input gives the header immediately followed by the terminator |
| Layout.ShortWholeGroupsVanish | uuencode.c:70-91 | an input of whole groups shorter than a span gives no line at all |
| Layout.AbcVanishes | uuencode.c:70-91 | `ABC` gives only the header and the terminator, in either scheme |
| Intended.IntendedCarriesAll | uuencode.c:70-91 | the corrected lines carry every input byte in order |
| Intended.IntendedRoundTrip | uuencode.c:70-91 | each corrected line decodes to its bytes, and together they give the whole input |
| Intended.IntendedExtendsWritten | uuencode.c:70-91 | the corrected lines are the code's lines, followed by the Dropped tail when there is one |
| Intended.UuSymbolCount | uuencode.c:56 | `n` bytes give `(4n + 2) / 3` uuencode symbols |
| Intended.UuSymbolsLength | uuencode.c:56 | a uuencode line of `n` bytes has `(4n + 2) / 3` symbols |
| Intended.IntendedFrameLength | uuencode.c:80 | in the corrected frame the length character, less 0x20, is the byte count, from which the symbol count follows |
| Intended.LengthCountsSymbols | uuencode.c:80 | as written, the length character, less 0x20, is the symbol count, which exceeds the byte count |
| Intended.FullLineAnnounced | uuencode.c:80 | a full uuencode line is announced as `L` where `A` (33 bytes) is meant |
| Intended.IntendedTerminatorLine | uuencode.c:91 | the corrected uuencode terminator is ` \nend\n`; the written one is `end\n` |
| Intended.Base64FramesAgree | uuencode.c:79-84 | Base64 frames are the same in both versions |
| Intended.Base64Agrees | uuencode.c:59-93 | when nothing is Dropped, the Base64 output is the corrected output |
| Intended.OneByteSymbols | uuencode.c:44-54 | the byte `A` gives the uuencode symbols `00` |
| Intended.OneByteAsWritten | uuencode.c:59-93 | `A` is printed as `begin 644 x\n"00\nend\n` |
| Intended.OneByteIntended | uuencode.c:59-93 | corrected, `A` is printed as `begin 644 x\n!00\n \nend\n` |
| Intended.AbcSymbols | uuencode.c:44-46 | `ABC` gives the Base64 symbols `QUJD` |
| Intended.HeaderBase64Default | uuencode.c:61 | the default Base64 header for `x` is `begin-base64 644 x\n` |
| Intended.AbcLines | uuencode.c:70-91 | corrected, the Base64 body of `ABC` is `QUJD\n` |
| Intended.AbcIntended | uuencode.c:59-93 | corrected, `ABC` in Base64 is printed as `begin-base64 644 x\nQUJD\n====\n` |

## Left out

- The file name `path` is a Dafny `string`, so it may hold characters that `argv[argc-1]` cannot, such as NUL or values above 0xFF. The header copies it verbatim as `%s` copies the bytes; the model does not restrict it to a NUL-free byte string.
- `main`'s option and operand handling is not modelled: `getopt`, the operand count checks, the choice of `argv[argc-1]`, `setlocale`, `fopen`/`fstat` errors and exit codes. This is command-line glue. Only the mode it passes is modelled, as `MainMode`.
- The `nread < 0` branch (uuencode.c:71-74) is left out. `fread` returns a `size_t` byte count, which is never negative, so the branch cannot be taken.
- Encoder.Fread: models `fread` returning fewer than three bytes only at the end of the input, as C's `fread` does apart from read errors (section 7.21.8.1 of ISO C11). Read errors are not modelled, nor is a terminal's end-of-file after which reading resumes. On either, a short read could come before the end of the data, which the model's line structure does not allow.
- Real `FILE*` output is not modelled. `printf`, `fputc` and `fwrite` become appends to the returned string, and write errors are ignored, as the code ignores them.
- The line buffer `unsigned char obuf[76]` is an `array<char>`. The values it holds are below 0x80, so nothing is lost by the type.
- Encoder.Encode: does not require `mode < 512`. The header is modelled for any mode, and the three-digit field is proved for the modes `main` passes (`MainModeField`, `HeaderFields`).
- There is no decoder in the repository. `DecodeQuantum` and `DecodeSymbols` exist only to state the round trips. They do not model a uuencode or Base64 decoder's handling of length characters or of malformed input.

## Findings

| source | as written | input that shows it | evidently intended | confidence | as-written member | corrected member |
|---|---|---|---|---|---|---|
| uuencode.c:80 | the uuencode length character is `0x20 + lpos`, the number of symbols on the line | the byte `A` gives the line `"00`, announcing two bytes | `0x20` plus the number of input bytes on the line (`!00`); a full line is announced as `A`, not `L` | not executed | Intended.LengthCountsSymbols | Intended.IntendedFrameLength |
| uuencode.c:91 | after the last line only `end` is printed | the byte `A` gives `begin 644 x\n"00\nend\n`, with no zero-length line | a zero-length line ` ` before `end`, i.e. the terminator ` \nend\n` | not executed | Layout.NoZeroLengthLine | Intended.IntendedTerminatorLine |
| uuencode.c:70-89 | a buffered line is written only after a full line or a short read, so symbols still buffered when the input ends on a full read are lost | `ABC` gives only the header and the terminator | a last line with what is buffered: `begin-base64 644 x\nQUJD\n====\n` | not executed | Layout.AbcVanishes | Intended.IntendedRoundTrip |
