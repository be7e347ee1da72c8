/**
 * What `encode` (uuencode.c:59-93) evidently means to print, next to what
 * it prints. Three departures of the code from the uuencode and Base64
 * conventions are stated here, each with the corrected definition and the
 * property the convention promises:
 *   - a uuencode line's length character counts its input bytes, not its
 *     symbols (uuencode.c:80 writes `0x20 + lpos`);
 *   - a uuencode body ends with a zero-length line before `end`
 *     (uuencode.c:91 writes only `end`);
 *   - the symbols still buffered when the input ends are written as a last
 *     line (uuencode.c:70-89 writes them only after a short read).
 */
module Intended {
  import opened Chunk
  import opened Envelope
  import opened Encoder
  import opened Layout

  /** The bytes of each line once the buffered tail is written too: full spans, then what is left. */
  function IntendedLines(data: seq<byte>, b64: bool): seq<seq<byte>>
    decreases |data|
  {
    if |data| >= Span(b64) then [data[..Span(b64)]] + IntendedLines(data[Span(b64)..], b64)
    else if data != [] then [data]
    else []
  }

  /** One line with the length character counting the line's input bytes. */
  function IntendedFrame(chunk: seq<byte>, b64: bool): string
  {
    (if b64 then "" else [LengthChar(|chunk|)]) + Symbols(chunk, b64) + "\n"
  }

  function IntendedFramed(lines: seq<seq<byte>>, b64: bool): string
    decreases |lines|
  {
    if lines == [] then "" else IntendedFrame(lines[0], b64) + IntendedFramed(lines[1..], b64)
  }

  /** For uuencode, the zero-length line and then `end`. */
  function IntendedTerminator(b64: bool): string
  {
    if b64 then "====\n" else IntendedFrame([], false) + "end\n"
  }

  function IntendedEncoding(input: seq<byte>, path: string, mode: nat, b64: bool): string
  {
    Header(path, mode, b64) + IntendedFramed(IntendedLines(input, b64), b64) + IntendedTerminator(b64)
  }

  /** The corrected lines carry every byte of the input, in order. */
  lemma {:induction false} IntendedCarriesAll(data: seq<byte>, b64: bool)
    ensures Flatten(IntendedLines(data, b64)) == data
    decreases |data|
  {
    var span := Span(b64);
    var ls := IntendedLines(data, b64);
    if |data| >= span {
      IntendedCarriesAll(data[span..], b64);
      assert ls[0] == data[..span] && ls[1..] == IntendedLines(data[span..], b64);
      assert data == data[..span] + data[span..];
    } else if data != [] {
      assert ls[1..] == [] && data + [] == data;
    }
  }

  /** Read back, the corrected lines give the whole input. */
  lemma IntendedRoundTrip(input: seq<byte>, b64: bool)
    ensures var ls := IntendedLines(input, b64);
      && (forall i :: 0 <= i < |ls| ==> DecodeSymbols(Symbols(ls[i], b64), b64) == ls[i])
      && Flatten(ls) == input
  {
    IntendedCarriesAll(input, b64);
    var ls := IntendedLines(input, b64);
    forall i | 0 <= i < |ls|
      ensures DecodeSymbols(Symbols(ls[i], b64), b64) == ls[i]
    {
      SymbolsRoundTrip(ls[i], b64);
    }
  }

  /**
   * The corrected lines are the lines the code writes, followed by the
   * Dropped tail when there is one.
   */
  lemma {:induction false} IntendedExtendsWritten(data: seq<byte>, b64: bool)
    ensures var d := Dropped(data, b64);
      IntendedLines(data, b64) == SpansOf(data, b64) + (if d == 0 then [] else [data[|data| - d..]])
    decreases |data|
  {
    var span := Span(b64);
    var d := Dropped(data, b64);
    if |data| >= span {
      var tail := data[span..];
      IntendedExtendsWritten(tail, b64);
      Shift(|data|, b64);
      assert Dropped(tail, b64) == d;
      assert tail[|tail| - d..] == data[|data| - d..];
      var extra: seq<seq<byte>> := if d == 0 then [] else [data[|data| - d..]];
      Associative([data[..span]], SpansOf(tail, b64), extra);
    } else if |data| % 3 != 0 {
      assert [data] + [] == [data];
    } else if data != [] {
      ModSmall(|data|, span);
      assert data[|data| - d..] == data;
      assert [] + [data] == [data];
    }
  }

  /**
   * The corrected uuencode frame: its length character, less 0x20, is the
   * number of input bytes on the line, from which a decoder knows exactly
   * how many symbols follow.
   */
  lemma IntendedFrameLength(chunk: seq<byte>)
    requires |chunk| <= Span(false)
    ensures var f := IntendedFrame(chunk, false);
      && f[0] as int - 0x20 == |chunk|
      && |f| == 2 + (4 * |chunk| + 2) / 3
      && f[1..|f| - 1] == Symbols(chunk, false)
      && f[|f| - 1] == '\n'
  {
    UuSymbolsLength(chunk);
    Framing(LengthChar(|chunk|), Symbols(chunk, false));
  }

  /** The parts of a line made of a leading character, the symbols and a newline. */
  lemma Framing(c: char, s: string)
    ensures var f := [c] + s + "\n";
      |f| == |s| + 2 && f[0] == c && f[1..|f| - 1] == s && f[|f| - 1] == '\n'
  {
    var f := [c] + s + "\n";
    assert f[1..|f| - 1] == s;
  }

  /** `n` bytes take `(4n + 2) / 3` uuencode symbols. */
  lemma UuSymbolsLength(chunk: seq<byte>)
    ensures |Symbols(chunk, false)| == (4 * |chunk| + 2) / 3
  {
    SymbolsLength(chunk, false);
    UuSymbolCount(|chunk|);
  }

  /** The number of uuencode symbols for `n` bytes: four per group, one more than the bytes of a short one. */
  lemma UuSymbolCount(n: nat)
    ensures 4 * (n / 3) + (if n % 3 == 0 then 0 else Count(n % 3, false)) == (4 * n + 2) / 3
  {
    var k, r := n / 3, n % 3;
    assert 4 * n + 2 == 3 * (4 * k) + (4 * r + 2);
  }

  /**
   * As written, the length character of a uuencode line, less 0x20, is its
   * number of symbols, which is more than its number of input bytes.
   */
  lemma LengthCountsSymbols(chunk: seq<byte>)
    requires 1 <= |chunk| <= Span(false)
    ensures var s := Symbols(chunk, false);
      Frame(s, false)[0] as int - 0x20 == |s| > |chunk|
  {
    LineSymbols(chunk, false);
    SymbolsLength(chunk, false);
    FrameLayout(Symbols(chunk, false), false);
    var k := |chunk| / 3;
    assert |chunk| == 3 * k + |chunk| % 3;
  }

  /** A full uuencode line of 33 bytes is announced as `L` (44) rather than `A` (33). */
  lemma FullLineAnnounced(chunk: seq<byte>)
    requires |chunk| == Span(false)
    ensures Frame(Symbols(chunk, false), false)[0] == 'L'
    ensures IntendedFrame(chunk, false)[0] == 'A'
  {
    IntendedFrameLength(chunk);
    LengthCountsSymbols(chunk);
    LineSymbols(chunk, false);
  }

  /** The corrected uuencode terminator starts with the zero-length line. */
  lemma IntendedTerminatorLine()
    ensures IntendedTerminator(false) == " \nend\n"
    ensures Terminator(false) == "end\n"
  {
  }

  /** For Base64 the corrected frames are the written ones. */
  lemma {:induction false} Base64FramesAgree(lines: seq<seq<byte>>)
    ensures IntendedFramed(lines, true) == Framed(lines, true)
    decreases |lines|
  {
    if lines != [] {
      Base64FramesAgree(lines[1..]);
    }
  }

  /**
   * Base64 output is what the convention promises whenever nothing is
   * Dropped: the departures above all lie in the tail and in uuencode.
   */
  lemma Base64Agrees(input: seq<byte>, path: string, mode: nat)
    requires Dropped(input, true) == 0
    ensures Encoding(input, path, mode, true) == IntendedEncoding(input, path, mode, true)
  {
    IntendedExtendsWritten(input, true);
    assert SpansOf(input, true) + [] == SpansOf(input, true);
    LinesAreSpans(input, true);
    Base64FramesAgree(SpansOf(input, true));
  }

  /** One byte `A`: as written, announced as two symbols and with no zero-length line. */
  lemma OneByteAsWritten()
    ensures Encoding([0x41], "x", 420, false) == "begin 644 x\n\"00\nend\n"
  {
    HeaderDefaultMode();
    OneByteSymbols();
    LastSpan([], [0x41], false);
    assert [] + [0x41] == [0x41];
  }

  /** One byte `A`, corrected: announced as one byte, then the zero-length line. */
  lemma OneByteIntended()
    ensures IntendedEncoding([0x41], "x", 420, false) == "begin 644 x\n!00\n \nend\n"
  {
    HeaderDefaultMode();
    OneByteSymbols();
    assert IntendedLines([0x41], false) == [[0x41]];
  }

  lemma OneByteSymbols()
    ensures Symbols([0x41], false) == "00"
  {
    assert ReadBuffer([0x41]) == [0x41, 0, 0];
  }

  /** `ABC` in Base64, corrected: its one line is written. */
  lemma AbcIntended()
    ensures IntendedEncoding([0x41, 0x42, 0x43], "x", 420, true) == "begin-base64 644 x\nQUJD\n====\n"
  {
    HeaderBase64Default();
    AbcLines();
  }

  lemma HeaderBase64Default()
    ensures Header("x", 420, true) == "begin-base64 644 x\n"
  {
    Octal03Digits(420);
  }

  lemma AbcLines()
    ensures IntendedFramed(IntendedLines([0x41, 0x42, 0x43], true), true) == "QUJD\n"
  {
    var ls := IntendedLines([0x41, 0x42, 0x43], true);
    assert ls == [[0x41, 0x42, 0x43]];
    AbcSymbols();
    assert IntendedFramed(ls, true) == IntendedFrame(ls[0], true) + IntendedFramed([], true);
  }

  lemma AbcSymbols()
    ensures Symbols([0x41, 0x42, 0x43], true) == "QUJD"
  {
    var g: seq<byte> := [0x41, 0x42, 0x43];
    assert ReadBuffer(g) == g;
    assert Sextets(g) == [16, 20, 9, 3];
    B64STable(16);
    B64STable(20);
    B64STable(9);
    B64STable(3);
  }
}
