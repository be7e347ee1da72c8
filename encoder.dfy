/**
 * `encode` of uuencode.c:59-93: the header, then a loop that reads the
 * input three bytes at a time, appends each group's symbols to the
 * 76-byte line buffer `obuf` at `lpos`, and writes the buffered line when
 * `lpos` passes the scheme's `linelength` or a read comes back short;
 * then the terminator.
 *
 * Standard output is the string `encode` returns; the input file is the
 * byte sequence `fread` would deliver from a regular file.
 */
module Encoder {
  import opened Chunk
  import opened Envelope

  /**
   * `linelength` (uuencode.c:64): a line is written once `lpos` exceeds it.
   * `lpos` grows four symbols per full group, so it passes `linelength`
   * exactly on reaching `linelength + 1`, a whole number of groups that
   * still fits the 76-byte `obuf`.
   */
  function LineLength(b64: bool): (l: int)
    ensures 0 < l < 76 && (l + 1) % 4 == 0
  {
    if b64 then 75 else 43
  }

  /**
   * The number of groups on a full line: the fewest four-symbol groups that
   * take `lpos` past `linelength`; such a line still fits the 76-byte `obuf`.
   */
  function GroupsPerLine(b64: bool): (k: nat)
    ensures 4 * (k - 1) <= LineLength(b64) < 4 * k <= 76
  {
    if b64 then 19 else 11
  }

  /** The contents of `ibuf` after a read of `group`: the buffer was cleared, so the bytes not read are 0. */
  function ReadBuffer(group: seq<byte>): (b: seq<byte>)
    requires |group| <= 3
    ensures |b| == 3 && b[..|group|] == group
    ensures forall i :: |group| <= i < 3 ==> b[i] == 0
  {
    group + seq(3 - |group|, _ => 0)
  }

  /**
   * The symbols one read of 1-3 bytes adds to the line: the first `Count` of
   * its quantum, as many as `encodechunk` returns, all in the scheme's alphabet.
   */
  function GroupSymbols(group: seq<byte>, b64: bool): (s: string)
    requires 1 <= |group| <= 3
    ensures |s| == Count(|group|, b64)
    ensures forall i :: 0 <= i < |s| ==> InAlphabet(s[i], b64)
  {
    QuantumAlphabet(ReadBuffer(group), |group|, b64);
    Quantum(ReadBuffer(group), |group|, b64)[..Count(|group|, b64)]
  }

  /**
   * The symbols of `data` read three bytes at a time, every group included:
   * a line of them is printable text in the scheme's alphabet.
   */
  function Symbols(data: seq<byte>, b64: bool): (s: string)
    ensures forall i :: 0 <= i < |s| ==> InAlphabet(s[i], b64)
    ensures data != [] ==> |s| >= 2
    decreases |data|
  {
    if data == [] then ""
    else if |data| < 3 then GroupSymbols(data, b64)
    else GroupSymbols(data[..3], b64) + Symbols(data[3..], b64)
  }

  /**
   * `lpos` once a read of `n` bytes is appended to the whole groups
   * `pending`: four symbols per group already there, and `Count` more.
   */
  function LposAfter(pending: seq<byte>, n: int, b64: bool): int
  {
    4 * (|pending| / 3) + Count(n, b64)
  }

  /**
   * The input bytes of each line `encode` writes for the input still to be
   * read, `rest`, when the symbols of the bytes `pending` are in `obuf`
   * (uuencode.c:70-89). Each read appends its group; the line is written
   * when `lpos` passes `linelength` or the read was short. When the input
   * ends, whatever is still pending is not written. No line is empty.
   */
  function LineBytes(rest: seq<byte>, pending: seq<byte>, b64: bool): (lines: seq<seq<byte>>)
    ensures forall i :: 0 <= i < |lines| ==> lines[i] != []
    decreases |rest|
  {
    if rest == [] then []
    else
      var n := if |rest| < 3 then |rest| else 3;
      var held := pending + rest[..n];
      if LposAfter(pending, n, b64) > LineLength(b64) || n < 3 then [held] + LineBytes(rest[n..], [], b64)
      else LineBytes(rest[n..], held, b64)
  }

  /**
   * One written line (uuencode.c:79-84): for uuencode the character
   * `0x20 + lpos` (`fputc` writes it as an `unsigned char`), then the
   * symbols, then a newline. A reader finds the symbols between the
   * length character (uuencode only) and the final newline.
   */
  function Frame(line: string, b64: bool): (f: string)
    ensures |f| == |line| + (if b64 then 1 else 2) && f[|f| - 1] == '\n'
    ensures f[|f| - 1 - |line|..|f| - 1] == line
    ensures !b64 ==> f[0] == LengthChar(|line|)
  {
    (if b64 then "" else [LengthChar(|line|)]) + line + "\n"
  }

  /** `fputc(0x20 + n, stdout)`: the character is the value taken modulo 256. */
  function LengthChar(n: nat): (c: char)
    ensures c as int == (0x20 + n) % 256
    ensures n < 0xe0 ==> c as int == 0x20 + n
  {
    ((0x20 + n) % 256) as char
  }

  /** The written lines whose input bytes are `lines`. */
  function Framed(lines: seq<seq<byte>>, b64: bool): string
    decreases |lines|
  {
    if lines == [] then "" else Frame(Symbols(lines[0], b64), b64) + Framed(lines[1..], b64)
  }

  /** Everything `encode` prints for `input`: it opens with the header and closes with the terminator. */
  function Encoding(input: seq<byte>, path: string, mode: nat, b64: bool): (e: string)
    ensures |e| >= |Header(path, mode, b64)| + |Terminator(b64)|
    ensures e[..|Header(path, mode, b64)|] == Header(path, mode, b64)
    ensures e[|e| - |Terminator(b64)|..] == Terminator(b64)
  {
    Enclosed(Header(path, mode, b64), Framed(LineBytes(input, [], b64), b64), Terminator(b64));
    Header(path, mode, b64) + Framed(LineBytes(input, [], b64), b64) + Terminator(b64)
  }

  /** The ends of a three-part concatenation. */
  lemma Enclosed<T>(a: seq<T>, b: seq<T>, c: seq<T>)
    ensures (a + b + c)[..|a|] == a && (a + b + c)[|a + b + c| - |c|..] == c
  {
  }

  /** `memset(a, 0, sizeof(a))`, with `z` the zero of the element type. */
  method Memset<T>(a: array<T>, z: T)
    modifies a
    ensures forall i :: 0 <= i < a.Length ==> a[i] == z
  {
    for i := 0 to a.Length
      invariant forall j :: 0 <= j < i ==> a[j] == z
    {
      a[i] := z;
    }
  }

  /**
   * `fread(buf, 1, 3, in)` on a regular file whose unread bytes are `file`:
   * up to three of them go to the front of the buffer, the rest of the buffer
   * is left alone, and `remaining` is what is left unread.
   */
  method Fread(buf: array<byte>, file: seq<byte>) returns (nread: nat, remaining: seq<byte>)
    requires buf.Length == 3
    modifies buf
    ensures nread == if |file| < 3 then |file| else 3
    ensures buf[..nread] == file[..nread] && remaining == file[nread..]
    ensures forall i :: nread <= i < 3 ==> buf[i] == old(buf[i])
  {
    nread := if |file| < 3 then |file| else 3;
    for i := 0 to nread
      invariant forall j :: 0 <= j < i ==> buf[j] == file[j]
      invariant forall j :: i <= j < 3 ==> buf[j] == old(buf[j])
    {
      buf[i] := file[i];
    }
    remaining := file[nread..];
  }

  /** A cleared buffer after a read holds exactly the bytes read, then zeros. */
  lemma ClearedRead(b: seq<byte>, group: seq<byte>)
    requires |b| == 3 && |group| <= 3 && b[..|group|] == group
    requires forall i :: |group| <= i < 3 ==> b[i] == 0
    ensures b == ReadBuffer(group)
  {
  }

  /** Whole groups give four symbols each, and a last short group Count of them. */
  lemma {:induction false} SymbolsLength(d: seq<byte>, b64: bool)
    ensures |Symbols(d, b64)| == 4 * (|d| / 3) + (if |d| % 3 == 0 then 0 else Count(|d| % 3, b64))
    decreases |d|
  {
    if |d| >= 3 {
      SymbolsLength(d[3..], b64);
      assert Symbols(d, b64) == GroupSymbols(d[..3], b64) + Symbols(d[3..], b64);
      DropGroup(|d|);
    }
  }

  /** Taking one group off the front of the data. */
  lemma DropGroup(m: int)
    requires m >= 3
    ensures (m - 3) / 3 == m / 3 - 1 && (m - 3) % 3 == m % 3
  {
  }

  /** A Base64 line never starts with the pad `=`. */
  lemma SymbolsLead(d: seq<byte>)
    requires d != []
    ensures Symbols(d, true)[0] != '='
  {
    var g := if |d| < 3 then d else d[..3];
    QuantumLeads(ReadBuffer(g), |g|);
    assert Symbols(d, true)[0] == GroupSymbols(g, true)[0];
  }

  /** Reading stays aligned on groups: the symbols of whole groups followed by more data. */
  lemma {:induction false} SymbolsAppend(p: seq<byte>, q: seq<byte>, b64: bool)
    requires |p| % 3 == 0
    ensures Symbols(p + q, b64) == Symbols(p, b64) + Symbols(q, b64)
    decreases |p|
  {
    if p == [] {
      assert p + q == q;
    } else {
      assert (p + q)[..3] == p[..3] && (p + q)[3..] == p[3..] + q;
      var a := GroupSymbols(p[..3], b64);
      assert Symbols(p + q, b64) == a + Symbols(p[3..] + q, b64);
      assert Symbols(p, b64) == a + Symbols(p[3..], b64);
      DropGroup(|p|);
      SymbolsAppend(p[3..], q, b64);
      Associative(a, Symbols(p[3..], b64), Symbols(q, b64));
    }
  }

  /**
   * What a decoder reads back from the symbols of a line: four symbols at a
   * time, each quantum as DecodeQuantum reads it, the last one of two to
   * four symbols.
   */
  function DecodeSymbols(s: string, b64: bool): seq<byte>
    decreases |s|
  {
    if |s| > 4 then DecodeQuantum(s[..4], b64) + DecodeSymbols(s[4..], b64)
    else if 2 <= |s| && (b64 ==> |s| == 4) then DecodeQuantum(s, b64)
    else []
  }

  /** One read's symbols decode to the bytes read. */
  lemma GroupRoundTrip(group: seq<byte>, b64: bool)
    requires 1 <= |group| <= 3
    ensures |GroupSymbols(group, b64)| == Count(|group|, b64)
    ensures 2 <= Count(|group|, b64) <= 4 && (b64 ==> Count(|group|, b64) == 4)
    ensures DecodeQuantum(GroupSymbols(group, b64), b64) == group
  {
    QuantumRoundTrip(ReadBuffer(group), |group|, b64);
    assert ReadBuffer(group)[..|group|] == group;
  }

  /** Round trip of a line: its symbols decode back to exactly its bytes. */
  lemma {:induction false} SymbolsRoundTrip(d: seq<byte>, b64: bool)
    ensures DecodeSymbols(Symbols(d, b64), b64) == d
    decreases |d|
  {
    if |d| > 3 {
      SymbolsRoundTrip(d[3..], b64);
      FrontGroup(d, b64);
    } else if d != [] {
      LastGroup(d, b64);
    }
  }

  /** A line of more than one group: the first quantum decodes to the first three bytes. */
  lemma FrontGroup(d: seq<byte>, b64: bool)
    requires |d| > 3 && DecodeSymbols(Symbols(d[3..], b64), b64) == d[3..]
    ensures DecodeSymbols(Symbols(d, b64), b64) == d
  {
    var g, t := GroupSymbols(d[..3], b64), Symbols(d[3..], b64);
    GroupRoundTrip(d[..3], b64);
    SymbolsLength(d[3..], b64);
    assert Symbols(d, b64) == g + t;
    DecodeFront(g, t, b64);
    assert d == d[..3] + d[3..];
  }

  /** Decoding takes the first four symbols as a quantum when more follow. */
  lemma DecodeFront(g: string, t: string, b64: bool)
    requires |g| == 4 && |t| >= 2
    ensures DecodeSymbols(g + t, b64) == DecodeQuantum(g, b64) + DecodeSymbols(t, b64)
  {
    assert (g + t)[..4] == g && (g + t)[4..] == t;
  }

  /** A line of one group: its symbols are the whole of what is decoded. */
  lemma LastGroup(d: seq<byte>, b64: bool)
    requires 1 <= |d| <= 3
    ensures DecodeSymbols(Symbols(d, b64), b64) == d
  {
    GroupRoundTrip(d, b64);
    DecodeOne(GroupSymbols(d, b64), b64);
    OneGroup(d, b64);
  }

  lemma OneGroup(d: seq<byte>, b64: bool)
    requires 1 <= |d| <= 3
    ensures Symbols(d, b64) == GroupSymbols(d, b64)
  {
    if |d| == 3 {
      assert d[..3] == d && d[3..] == [];
      assert Symbols(d, b64) == GroupSymbols(d, b64) + "";
    }
  }

  /** Two to four symbols (four for Base64) are decoded as a single quantum. */
  lemma DecodeOne(s: string, b64: bool)
    requires 2 <= |s| <= 4 && (b64 ==> |s| == 4)
    ensures DecodeSymbols(s, b64) == DecodeQuantum(s, b64)
  {
  }

  /** The symbols in `obuf` after a read is appended to whole groups are those of all the bytes. */
  lemma PendingLine(p: seq<byte>, group: seq<byte>, b64: bool)
    requires |p| % 3 == 0 && 1 <= |group| <= 3
    ensures Symbols(p, b64) + GroupSymbols(group, b64) == Symbols(p + group, b64)
    ensures |Symbols(p, b64)| == 4 * (|p| / 3)
    ensures |Symbols(p + group, b64)| == LposAfter(p, |group|, b64)
  {
    SymbolsAppend(p, group, b64);
    SymbolsLength(p, b64);
    assert Symbols(group, b64) == GroupSymbols(group, b64);
  }

  /** One turn of the read loop, as LineBytes describes it: the line is written, or it stays pending. */
  lemma LineBytesTurn(rest: seq<byte>, pending: seq<byte>, b64: bool, n: nat, held: seq<byte>, tail: seq<byte>)
    requires rest != [] && n == (if |rest| < 3 then |rest| else 3)
    requires held == pending + rest[..n] && tail == rest[n..]
    ensures LposAfter(pending, n, b64) > LineLength(b64) || n < 3 ==>
      Framed(LineBytes(rest, pending, b64), b64) == Frame(Symbols(held, b64), b64) + Framed(LineBytes(tail, [], b64), b64)
    ensures !(LposAfter(pending, n, b64) > LineLength(b64) || n < 3) ==>
      LineBytes(rest, pending, b64) == LineBytes(tail, held, b64)
  {
    if LposAfter(pending, n, b64) > LineLength(b64) || n < 3 {
      var lines := [held] + LineBytes(tail, [], b64);
      assert lines[0] == held && lines[1..] == LineBytes(tail, [], b64);
    }
  }

  lemma Associative<T>(a: seq<T>, b: seq<T>, c: seq<T>)
    ensures (a + b) + c == a + (b + c)
  {
  }

  /** The read of uuencode.c:70 into the cleared `ibuf`. */
  method ReadGroup(ibuf: array<byte>, file: seq<byte>) returns (nread: nat, remaining: seq<byte>)
    requires ibuf.Length == 3
    requires forall i :: 0 <= i < 3 ==> ibuf[i] == 0
    modifies ibuf
    ensures nread == if |file| < 3 then |file| else 3
    ensures ibuf[..] == ReadBuffer(file[..nread]) && remaining == file[nread..]
  {
    nread, remaining := Fread(ibuf, file);
    ClearedRead(ibuf[..], file[..nread]);
  }

  /** The output of uuencode.c:79-84 for the `lpos` symbols in `obuf`. */
  method WriteLine(obuf: array<char>, lpos: nat, b64: bool) returns (text: string)
    requires lpos <= obuf.Length
    ensures text == Frame(obuf[..lpos], b64)
  {
    text := "";
    if !b64 {
      text := text + [LengthChar(lpos)];
    }
    text := text + obuf[..lpos];
    text := text + "\n";
  }

  /** `lpos` counts the symbols of the whole groups `pending` held in `obuf`: four per group. */
  predicate Holds(lpos: int, pending: seq<byte>)
  {
    |pending| % 3 == 0 && lpos == 4 * (|pending| / 3)
  }

  /** A further full group keeps the count. */
  lemma HoldsNext(lpos: int, pending: seq<byte>, group: seq<byte>)
    requires Holds(lpos, pending) && |group| == 3
    ensures Holds(lpos + 4, pending + group)
  {
    var k := |pending| / 3;
    assert |pending + group| == 3 * (k + 1);
  }

  /**
   * `lpos += encodechunk(ibuf, obuf + lpos, nread, b64)` (uuencode.c:76):
   * with the symbols of the whole groups `pending` in the line buffer, it
   * gains the symbols of the group just read, and `lpos` their number; the
   * whole buffer is the old prefix, the group's quantum and the old suffix.
   * The cells past `lpos` are zero before; after a full quantum of four
   * they are still zero past the new `lpos`, while a short uuencode group
   * leaves its uncounted symbols there until the line is cleared.
   */
  method AppendGroup(ibuf: array<byte>, obuf: array<char>, lpos: int, nread: int, b64: bool,
                     ghost pending: seq<byte>, ghost group: seq<byte>)
    returns (newlpos: int)
    requires ibuf.Length == 3 && obuf.Length == 76
    requires Holds(lpos, pending) && lpos <= LineLength(b64)
    requires obuf[..lpos] == Symbols(pending, b64)
    requires 1 <= nread <= 3 && |group| == nread && ibuf[..] == ReadBuffer(group)
    requires forall i :: lpos <= i < obuf.Length ==> obuf[i] == '\0'
    modifies obuf
    ensures newlpos == LposAfter(pending, nread, b64) <= 76
    ensures obuf[..] == old(obuf[..lpos]) + Quantum(ibuf[..], nread, b64) + old(obuf[lpos + 4..])
    ensures obuf[..newlpos] == Symbols(pending + group, b64)
    ensures nread == 3 || b64 ==> forall i :: newlpos <= i < obuf.Length ==> obuf[i] == '\0'
  {
    LineRoom(lpos, |pending| / 3, b64);
    ghost var before := obuf[..];
    var count := EncodeChunk(ibuf, obuf, lpos, nread, b64);
    ghost var q := Quantum(ibuf[..], nread, b64);
    PrefixOf(before[..lpos], q, before[lpos + 4..], count);
    assert q[..count] == GroupSymbols(group, b64);
    PendingLine(pending, group, b64);
    newlpos := lpos + count;
    assert forall i :: lpos + 4 <= i < obuf.Length ==> obuf[i] == before[i];
  }

  /** The first `k` of a block written after a prefix. */
  lemma PrefixOf<T>(a: seq<T>, q: seq<T>, c: seq<T>, k: int)
    requires 0 <= k <= |q|
    ensures (a + q + c)[..|a| + k] == a + q[..k]
  {
  }

  /**
   * A line buffer filled in whole groups up to `linelength` holds at most 72
   * (Base64) or 40 (uuencode) symbols, so the next group's four fit in `obuf`.
   */
  lemma LineRoom(lpos: int, groups: int, b64: bool)
    requires lpos == 4 * groups && 0 <= lpos <= LineLength(b64)
    ensures lpos <= (if b64 then 72 else 40) && lpos + 4 <= 76
  {
  }

  /**
   * uuencode.c:79-85: the buffered line, holding the symbols of `line`, is
   * written, and the buffer cleared.
   */
  method Flush(obuf: array<char>, lpos: int, b64: bool, ghost line: seq<byte>) returns (text: string)
    requires 0 <= lpos <= obuf.Length && obuf[..lpos] == Symbols(line, b64)
    modifies obuf
    ensures text == Frame(Symbols(line, b64), b64)
    ensures forall i :: 0 <= i < obuf.Length ==> obuf[i] == '\0'
  {
    text := WriteLine(obuf, lpos, b64);
    Memset(obuf, '\0');
  }

  /**
   * The body of the read loop (uuencode.c:76-87) for the group of `nread`
   * bytes at the front of `rest` in `ibuf`, with the symbols of the whole
   * groups `pending` in `obuf`: the group's symbols are appended, and the
   * line is written (`text`, empty when it is not) once `lpos` passes
   * `linelength` or the read was short; `held` is what is pending after.
   * What is written now and later is what LineBytes gives before. The
   * cells of `obuf` past `lpos` are zero before and after.
   */
  method Turn(ibuf: array<byte>, obuf: array<char>, lpos: int, nread: int, b64: bool,
              ghost rest: seq<byte>, ghost pending: seq<byte>)
    returns (newlpos: int, text: string, ghost held: seq<byte>)
    requires ibuf.Length == 3 && obuf.Length == 76
    requires Holds(lpos, pending) && lpos <= LineLength(b64)
    requires obuf[..lpos] == Symbols(pending, b64)
    requires rest != [] && nread == (if |rest| < 3 then |rest| else 3)
    requires ibuf[..] == ReadBuffer(rest[..nread])
    requires forall i :: lpos <= i < obuf.Length ==> obuf[i] == '\0'
    modifies obuf
    ensures Holds(newlpos, held) && newlpos <= LineLength(b64)
    ensures obuf[..newlpos] == Symbols(held, b64)
    ensures forall i :: newlpos <= i < obuf.Length ==> obuf[i] == '\0'
    ensures text != "" <==> LposAfter(pending, nread, b64) > LineLength(b64) || nread < 3
    ensures text != "" ==> held == [] && forall i :: 0 <= i < obuf.Length ==> obuf[i] == '\0'
    ensures text == "" ==> held == pending + rest[..nread]
    ensures text + Framed(LineBytes(rest[nread..], held, b64), b64) == Framed(LineBytes(rest, pending, b64), b64)
  {
    var linelength := LineLength(b64);
    ghost var whole := pending + rest[..nread];
    newlpos := AppendGroup(ibuf, obuf, lpos, nread, b64, pending, rest[..nread]);

    if newlpos > linelength || nread < 3 {
      text := Flush(obuf, newlpos, b64, whole);
      newlpos := 0;
      held := [];
    } else {
      text := "";
      held := whole;
      HoldsNext(lpos, pending, rest[..nread]);
    }
    LineBytesTurn(rest, pending, b64, nread, whole, rest[nread..]);
  }

  /**
   * The read loop of `encode` (uuencode.c:63-89): the encoded lines it
   * writes for `input`.
   */
  method EncodeBody(input: seq<byte>, b64: bool) returns (out: string)
    ensures out == Framed(LineBytes(input, [], b64), b64)
  {
    out := "";
    var lpos := 0;
    var ibuf := new byte[3][0, 0, 0];
    var obuf := new char[76](_ => '\0');

    ghost var rest := input;
    ghost var pending: seq<byte> := [];
    var nread, file := ReadGroup(ibuf, input);
    assert obuf[..lpos] == "";
    while nread != 0
      invariant ibuf.Length == 3 && obuf.Length == 76
      invariant nread == (if |rest| < 3 then |rest| else 3) && file == rest[nread..]
      invariant ibuf[..] == ReadBuffer(rest[..nread])
      invariant Holds(lpos, pending) && lpos <= LineLength(b64)
      invariant obuf[..lpos] == Symbols(pending, b64)
      invariant forall i :: lpos <= i < obuf.Length ==> obuf[i] == '\0'
      invariant out + Framed(LineBytes(rest, pending, b64), b64) == Framed(LineBytes(input, [], b64), b64)
      decreases |rest|
    {
      var text;
      lpos, text, pending := Turn(ibuf, obuf, lpos, nread, b64, rest, pending);
      Associative(out, text, Framed(LineBytes(file, pending, b64), b64));
      out := out + text;
      ghost var symbols := obuf[..lpos];

      label turned:
      Memset(ibuf, 0);
      rest := file;
      nread, file := ReadGroup(ibuf, file);
      assert unchanged@turned(obuf);
      assert obuf[..lpos] == symbols;
    }
  }

  /** `encode` (uuencode.c:59-93): what it prints for `input`. */
  method Encode(input: seq<byte>, path: string, mode: nat, b64: bool) returns (out: string)
    ensures out == Encoding(input, path, mode, b64)
  {
    out := Header(path, mode, b64);
    var body := EncodeBody(input, b64);
    out := out + body;
    out := out + Terminator(b64);
  }
}
