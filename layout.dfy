/**
 * The shape of what `encode` (uuencode.c:59-93) prints, stated without its
 * loop: the input is cut into spans of one full line each (57 bytes for
 * Base64, 33 for uuencode), and every full span, and a last partial span
 * whose length is not a multiple of three, becomes one line. These lemmas
 * show that the loop's lines are exactly these spans, and then what the
 * written lines look like.
 */
module Layout {
  import opened Chunk
  import opened Envelope
  import opened Encoder

  /** The input bytes of one full line: three per group. */
  function Span(b64: bool): (s: nat)
    ensures s == 3 * GroupsPerLine(b64) && s % 3 == 0 && s >= 3
  {
    if b64 then 57 else 33
  }

  /**
   * The reference definition of the lines' bytes: one line per full span,
   * then one for a partial span, but only when the input ends on a short
   * read.
   */
  function SpansOf(data: seq<byte>, b64: bool): seq<seq<byte>>
    decreases |data|
  {
    if |data| >= Span(b64) then [data[..Span(b64)]] + SpansOf(data[Span(b64)..], b64)
    else if |data| % 3 != 0 then [data]
    else []
  }

  /**
   * With whole groups `p` pending, a read of three bytes takes `lpos` past
   * `linelength` exactly when it completes a span.
   */
  lemma FullLine(p: seq<byte>, b64: bool)
    requires |p| % 3 == 0 && |p| < Span(b64)
    ensures LposAfter(p, 3, b64) > LineLength(b64) <==> |p| + 3 == Span(b64)
  {
    var k := |p| / 3;
    assert |p| == 3 * k;
  }

  /**
   * The loop's lines, from any point where the bytes `p` (whole groups,
   * fewer than a span) are pending, are the spans of `p + rest`.
   */
  lemma {:induction false} LineBytesFrom(p: seq<byte>, rest: seq<byte>, b64: bool)
    requires |p| % 3 == 0 && |p| < Span(b64)
    ensures LineBytes(rest, p, b64) == SpansOf(p + rest, b64)
    decreases |rest|
  {
    var span := Span(b64);
    var all := p + rest;
    if rest == [] {
      assert all == p;
    } else if |rest| < 3 {
      assert rest[..|rest|] == rest && rest[|rest|..] == [];
      assert |all| < span || |all| == span;
      LastSpan(p, rest, b64);
    } else {
      var group := rest[..3];
      FullLine(p, b64);
      if |p| + 3 == span {
        assert all[..span] == p + group && all[span..] == rest[3..];
        assert [] + rest[3..] == rest[3..];
        LineBytesFrom([], rest[3..], b64);
      } else {
        assert (p + group) + rest[3..] == all;
        LineBytesFrom(p + group, rest[3..], b64);
      }
    }
  }

  /** A last read of one or two bytes ends the input: a single line of all that is pending. */
  lemma LastSpan(p: seq<byte>, rest: seq<byte>, b64: bool)
    requires |p| % 3 == 0 && |p| < Span(b64) && 1 <= |rest| < 3
    ensures LineBytes(rest, p, b64) == [p + rest]
    ensures SpansOf(p + rest, b64) == [p + rest]
  {
    assert rest[..|rest|] == rest && rest[|rest|..] == [];
  }

  /** The loop's lines are the spans of the whole input. */
  lemma LinesAreSpans(input: seq<byte>, b64: bool)
    ensures LineBytes(input, [], b64) == SpansOf(input, b64)
  {
    LineBytesFrom([], input, b64);
    assert [] + input == input;
  }

  /**
   * The number of lines: one per full span, and one more when the input
   * does not end on a whole group.
   */
  lemma {:induction false} SpanCount(data: seq<byte>, b64: bool)
    ensures |SpansOf(data, b64)| == |data| / Span(b64) + (if |data| % 3 != 0 then 1 else 0)
    decreases |data|
  {
    var span := Span(b64);
    if |data| >= span {
      SpanCount(data[span..], b64);
      Shift(|data|, b64);
    }
  }

  /** Taking one span off the front of the data. */
  lemma Shift(m: nat, b64: bool)
    requires m >= Span(b64)
    ensures (m - Span(b64)) / Span(b64) == m / Span(b64) - 1
    ensures (m - Span(b64)) % Span(b64) == m % Span(b64)
    ensures (m - Span(b64)) % 3 == m % 3
  {
    if b64 {
      assert (m - 57) / 57 == m / 57 - 1;
    } else {
      assert (m - 33) / 33 == m / 33 - 1;
    }
  }

  /**
   * Every line but the last carries a full span; the last carries one byte
   * to a full span, and a full one as well when the input ends on a whole
   * group.
   */
  lemma {:induction false} SpanSizes(data: seq<byte>, b64: bool)
    ensures var ls := SpansOf(data, b64);
      && (forall i :: 0 <= i < |ls| - 1 ==> |ls[i]| == Span(b64))
      && (forall i :: 0 <= i < |ls| ==> 1 <= |ls[i]| <= Span(b64))
      && (|data| % 3 == 0 ==> forall i :: 0 <= i < |ls| ==> |ls[i]| == Span(b64))
    decreases |data|
  {
    var span := Span(b64);
    if |data| >= span {
      SpanSizes(data[span..], b64);
      Shift(|data|, b64);
      var ls := SpansOf(data, b64);
      assert ls[0] == data[..span];
      assert ls[1..] == SpansOf(data[span..], b64);
      assert forall i :: 1 <= i < |ls| ==> ls[i] == ls[1..][i - 1];
    }
  }

  /**
   * The number of symbols on a line of `c` bytes: 76 (Base64) or 44
   * (uuencode) for a full span, and 2 to that many for a shorter one; so
   * every line fits the 76-byte `obuf`.
   */
  lemma LineSymbols(c: seq<byte>, b64: bool)
    requires 1 <= |c| <= Span(b64)
    ensures |c| == Span(b64) ==> |Symbols(c, b64)| == 4 * GroupsPerLine(b64)
    ensures 2 <= |Symbols(c, b64)| <= 4 * GroupsPerLine(b64) <= 76
  {
    SymbolsLength(c, b64);
    var k := |c| / 3;
    assert |c| == 3 * k + |c| % 3;
  }

  /** All bytes of a list of lines, in order. */
  function Flatten(lines: seq<seq<byte>>): seq<byte>
    decreases |lines|
  {
    if lines == [] then [] else lines[0] + Flatten(lines[1..])
  }

  /**
   * The bytes whose symbols are never written: the last partial span when
   * the input ends on a full three-byte read.
   */
  function Dropped(data: seq<byte>, b64: bool): (k: nat)
    ensures k <= |data|
  {
    if |data| % 3 == 0 then |data| % Span(b64) else 0
  }

  /**
   * The lines carry every byte of the input but the Dropped tail, in order;
   * that tail is less than a span of whole groups.
   */
  lemma {:induction false} SpansCarry(data: seq<byte>, b64: bool)
    ensures Flatten(SpansOf(data, b64)) == data[..|data| - Dropped(data, b64)]
    ensures Dropped(data, b64) < Span(b64) && Dropped(data, b64) % 3 == 0
    decreases |data|
  {
    var span := Span(b64);
    if |data| >= span {
      var tail := data[span..];
      SpansCarry(tail, b64);
      Shift(|data|, b64);
      assert Dropped(tail, b64) == Dropped(data, b64);
      var m := |tail| - Dropped(tail, b64);
      assert data[..|data| - Dropped(data, b64)] == data[..span] + tail[..m];
      var ls := SpansOf(data, b64);
      assert ls[0] == data[..span] && ls[1..] == SpansOf(tail, b64);
    } else if |data| % 3 != 0 {
      assert data[..|data|] == data;
      var ls := SpansOf(data, b64);
      assert ls[1..] == [];
      assert data + [] == data;
    } else {
      assert data[..0] == [];
      ModSmall(|data|, span);
    }
  }

  /**
   * The whole body read back: each written line decodes to the bytes it
   * carries, and together they are the input but for the Dropped tail.
   */
  lemma BodyRoundTrip(input: seq<byte>, b64: bool)
    ensures var ls := LineBytes(input, [], b64);
      && (forall i :: 0 <= i < |ls| ==> DecodeSymbols(Symbols(ls[i], b64), b64) == ls[i])
      && Flatten(ls) == input[..|input| - Dropped(input, b64)]
  {
    LinesAreSpans(input, b64);
    SpansCarry(input, b64);
    var ls := LineBytes(input, [], b64);
    forall i | 0 <= i < |ls|
      ensures DecodeSymbols(Symbols(ls[i], b64), b64) == ls[i]
    {
      SymbolsRoundTrip(ls[i], b64);
    }
  }

  lemma ModSmall(m: nat, span: nat)
    requires m < span
    ensures m % span == m
  {
  }

  /** Nothing is dropped exactly when the input ends on a short read or fills its last span. */
  lemma NothingDropped(data: seq<byte>, b64: bool)
    ensures Dropped(data, b64) == 0 <==> |data| % 3 != 0 || |data| % Span(b64) == 0
  {
  }

  /**
   * A written uuencode line starts with `0x20` plus its number of symbols
   * (`'L'` for a full line of 44), then the symbols, then a newline; a
   * Base64 line is the symbols and a newline.
   */
  lemma FrameLayout(line: string, b64: bool)
    requires |line| <= 76
    ensures var f := Frame(line, b64);
      && f[|f| - 1] == '\n'
      && (b64 ==> f == line + "\n")
      && (!b64 ==> f[0] as int == 0x20 + |line| && f[1..|f| - 1] == line)
      && (!b64 && |line| == 44 ==> f[0] == 'L')
  {
  }

  /** The whole output: the header, the framed spans, the terminator. */
  lemma EncodingLayout(input: seq<byte>, path: string, mode: nat, b64: bool)
    ensures Encoding(input, path, mode, b64)
      == Header(path, mode, b64) + Framed(SpansOf(input, b64), b64) + Terminator(b64)
  {
    LinesAreSpans(input, b64);
  }

  /**
   * No written line is empty: each holds at least two symbols, so a
   * uuencode length character is at least `0x22` and the body never holds a
   * zero-length line (a lone `0x20`).
   */
  lemma NoZeroLengthLine(input: seq<byte>, b64: bool)
    ensures var ls := LineBytes(input, [], b64);
      forall i :: 0 <= i < |ls| ==> var s := Symbols(ls[i], b64);
        |s| >= 2 && (!b64 ==> Frame(s, b64)[0] as int >= 0x22)
  {
    LinesAreSpans(input, b64);
    SpanSizes(input, b64);
    var ls := LineBytes(input, [], b64);
    forall i | 0 <= i < |ls|
      ensures var s := Symbols(ls[i], b64); |s| >= 2 && (!b64 ==> Frame(s, b64)[0] as int >= 0x22)
    {
      LineSymbols(ls[i], b64);
      FrameLayout(Symbols(ls[i], b64), b64);
    }
  }

  /**
   * The terminator cannot be taken for a written line: their first
   * characters differ. A Base64 line starts with a symbol, never the pad
   * `=`; a uuencode line starts with a length character of at most `L`
   * (0x4C), below the `e` (0x65) of `end`.
   */
  lemma TerminatorNotALine(input: seq<byte>, b64: bool)
    ensures var ls := LineBytes(input, [], b64);
      forall i :: 0 <= i < |ls| ==> var f := Frame(Symbols(ls[i], b64), b64);
        f[0] != Terminator(b64)[0] && f != Terminator(b64)
  {
    LinesAreSpans(input, b64);
    SpanSizes(input, b64);
    var ls := LineBytes(input, [], b64);
    forall i | 0 <= i < |ls|
      ensures var f := Frame(Symbols(ls[i], b64), b64); f[0] != Terminator(b64)[0] && f != Terminator(b64)
    {
      var s := Symbols(ls[i], b64);
      LineSymbols(ls[i], b64);
      if b64 {
        SymbolsLead(ls[i]);
        assert Frame(s, b64)[0] == s[0];
      } else {
        assert Frame(s, b64)[0] as int == 0x20 + |s| <= 0x4c;
      }
    }
  }

  /** Empty input: the header immediately followed by the terminator. */
  lemma EmptyInput(path: string, mode: nat, b64: bool)
    ensures Encoding([], path, mode, b64) == Header(path, mode, b64) + Terminator(b64)
  {
  }

  /**
   * An input that ends on a full read and fills less than one line prints
   * no line at all.
   */
  lemma ShortWholeGroupsVanish(input: seq<byte>, path: string, mode: nat, b64: bool)
    requires |input| % 3 == 0 && |input| < Span(b64)
    ensures Encoding(input, path, mode, b64) == Header(path, mode, b64) + Terminator(b64)
  {
    EncodingLayout(input, path, mode, b64);
  }

  /** `ABC`, in either scheme, gives the header and the terminator only. */
  lemma AbcVanishes(b64: bool)
    ensures Encoding([0x41, 0x42, 0x43], "x", 420, b64) == Header("x", 420, b64) + Terminator(b64)
  {
    ShortWholeGroupsVanish([0x41, 0x42, 0x43], "x", 420, b64);
  }
}
