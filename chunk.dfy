/**
 * The quantum transform of uuencode.c: `encodechunk` turns one read of
 * one to three input bytes into four output symbols, either from the
 * Base64 alphabet (with `=` padding) or by adding 0x20 (classic uuencode),
 * and says how many of the four count toward the line.
 */
module Chunk {

  /** One byte of the input stream (C's `unsigned char`). */
  type byte = bv8

  // The `b64s` table of uuencode.c:34-35, the alphabet of section 4 of
  // RFC 4648 (Table 1), written as its four runs; their concatenation is the
  // source's 64-character literal.
  const Upper: string := "ABCDEFGHIJKLMNOPQRSTUVWXYZ"
  const Lower: string := "abcdefghijklmnopqrstuvwxyz"
  const Digits: string := "0123456789"
  const B64S: string := Upper + Lower + Digits + "+/"

  /**
   * The symbol RFC 4648 assigns to the 6-bit value `v`, written as the
   * ranges of its Table 1 rather than as a lookup string.
   */
  function RfcSymbol(v: int): char
    requires 0 <= v < 64
  {
    if v < 26 then ('A' as int + v) as char
    else if v < 52 then ('a' as int + (v - 26)) as char
    else if v < 62 then ('0' as int + (v - 52)) as char
    else if v == 62 then '+'
    else '/'
  }

  /** The value RFC 4648 gives the symbol `c`, or -1 when `c` is not in the alphabet. */
  function RfcValue(c: char): int
  {
    if 'A' <= c <= 'Z' then c as int - 'A' as int
    else if 'a' <= c <= 'z' then c as int - 'a' as int + 26
    else if '0' <= c <= '9' then c as int - '0' as int + 52
    else if c == '+' then 62
    else if c == '/' then 63
    else -1
  }

  /** `b64s` is the RFC 4648 alphabet, every entry differs from the pad `=`, and RfcValue inverts it. */
  lemma B64STable(v: int)
    requires 0 <= v < 64
    ensures |B64S| == 64
    ensures B64S[v] == RfcSymbol(v)
    ensures B64S[v] != '='
    ensures RfcValue(B64S[v]) == v
  {
    assert |Upper| == 26 && |Lower| == 26 && |Digits| == 10;
    if v < 26 {
      assert B64S[v] == Upper[v];
    } else if v < 52 {
      assert B64S[v] == Lower[v - 26];
    } else if v < 62 {
      assert B64S[v] == Digits[v - 52];
    } else {
      assert B64S[v] == "+/"[v - 62];
    }
  }

  /** The other direction: every symbol of the alphabet is the table entry at its value. */
  lemma B64STableOnto(c: char)
    requires RfcValue(c) >= 0
    ensures 0 <= RfcValue(c) < 64 && B64S[RfcValue(c)] == c
  {
    B64STable(RfcValue(c));
  }

  /**
   * The four values computed before mapping (uuencode.c:39-42). C promotes
   * the bytes to `int`; every expression is masked with 0x3f, so the bits
   * that 8-bit shifts lose are bits the mask clears anyway.
   */
  function Sextets(g: seq<byte>): (v: seq<byte>)
    requires |g| == 3
    ensures |v| == 4
    ensures forall i :: 0 <= i < 4 ==> v[i] < 64
  {
    [ (g[0] >> 2) & 0x3f,
      ((g[0] << 4) | ((g[1] >> 4) & 0xf)) & 0x3f,
      ((g[1] << 2) | ((g[2] >> 6) & 0x3)) & 0x3f,
      g[2] & 0x3f ]
  }

  /** Concatenates four 6-bit values back into three bytes (the decoder's step). */
  function Join(v: seq<byte>): (g: seq<byte>)
    requires |v| == 4
    ensures |g| == 3
  {
    [ (v[0] << 2) | (v[1] >> 4),
      (v[1] << 4) | (v[2] >> 2),
      (v[2] << 6) | v[3] ]
  }

  /** The 24-bit value `g[0]:g[1]:g[2]`. */
  function Word(g: seq<byte>): bv32
    requires |g| == 3
  {
    (g[0] as bv32 << 16) | (g[1] as bv32 << 8) | g[2] as bv32
  }

  /** The four values are bits 23-18, 17-12, 11-6 and 5-0 of the 24-bit group. */
  lemma SextetsAreBitFields(g: seq<byte>)
    requires |g| == 3
    ensures Sextets(g)[0] as bv32 == (Word(g) >> 18) & 0x3f
    ensures Sextets(g)[1] as bv32 == (Word(g) >> 12) & 0x3f
    ensures Sextets(g)[2] as bv32 == (Word(g) >> 6) & 0x3f
    ensures Sextets(g)[3] as bv32 == Word(g) & 0x3f
  {
  }

  /** Concatenating the four values gives back the three bytes. */
  lemma JoinSextets(g: seq<byte>)
    requires |g| == 3
    ensures Join(Sextets(g)) == g
  {
  }

  /** And splitting any four 6-bit values joined together gives them back. */
  lemma SextetsJoin(v: seq<byte>)
    requires |v| == 4 && forall i :: 0 <= i < 4 ==> v[i] < 64
    ensures Sextets(Join(v)) == v
  {
    assert v[0] < 64 && v[1] < 64 && v[2] < 64 && v[3] < 64;
  }

  /** A classic uuencode symbol: the value plus 0x20, so 0 is a space and 63 is `_`. */
  function UuChar(x: int): char
    requires 0 <= x < 64
  {
    (x + 0x20) as char
  }

  /** `x & 0x3f`, the low six bits, as a number. */
  function Low6(x: byte): (r: int)
    ensures 0 <= r < 64
  {
    (x & 0x3f) as int
  }

  /**
   * The mapping of uuencode.c:45, `b64s[v]` or `v + 0x20`: a Base64 symbol
   * other than the pad that RFC 4648 reads back as `v`, or a printable
   * uuencode symbol in 0x20..0x5F from which a decoder recovers `v` by
   * subtracting 0x20.
   */
  function Symbol(v: int, b64: bool): (c: char)
    requires 0 <= v < 64
    ensures b64 ==> c != '=' && RfcValue(c) == v
    ensures !b64 ==> ' ' <= c <= '_' && c as int - 0x20 == v
  {
    if b64 then B64STable(v); B64S[v] else UuChar(v)
  }

  /**
   * The characters a line of the scheme may hold: the RFC 4648 alphabet and
   * its pad `=` for Base64, the printable range 0x20..0x5F for uuencode.
   */
  predicate InAlphabet(c: char, b64: bool)
  {
    if b64 then RfcValue(c) >= 0 || c == '=' else ' ' <= c <= '_'
  }

  /**
   * What `encodechunk` leaves in `out[0..3]` for the group `g` of which `n`
   * bytes were read (uuencode.c:39-54).
   */
  function Quantum(g: seq<byte>, n: int, b64: bool): (s: seq<char>)
    requires |g| == 3
    ensures |s| == 4
  {
    var v := Sextets(g);
    var mapped := [Symbol(v[0] as int, b64), Symbol(v[1] as int, b64), Symbol(v[2] as int, b64), Symbol(v[3] as int, b64)];
    var s2 := if n < 2 then mapped[2 := Override2(g[0], b64)] else mapped;
    if n < 3 then s2[3 := Override3(g[1], b64)] else s2
  }

  /** The symbol uuencode.c:49 puts in place of the third of a one-byte group. */
  function Override2(b0: byte, b64: bool): (c: char)
    ensures b64 ==> c == '='
    ensures !b64 ==> ' ' <= c <= '_'
  {
    if b64 then '=' else UuChar(Low6(b0 << 4))
  }

  /** The symbol uuencode.c:53 puts in place of the fourth of a group of one or two bytes. */
  function Override3(b1: byte, b64: bool): (c: char)
    ensures b64 ==> c == '='
    ensures !b64 ==> ' ' <= c <= '_'
  {
    if b64 then '=' else UuChar(Low6(b1 << 2))
  }

  /**
   * The count `encodechunk` returns (uuencode.c:56): for a read of one to
   * three bytes, a whole quantum of four in Base64, and in uuencode the
   * fewest 6-bit symbols that hold the `n` bytes.
   */
  function Count(n: int, b64: bool): (c: int)
    ensures 1 <= n <= 3 ==> 2 <= c <= 4
    ensures 1 <= n <= 3 && b64 ==> c == 4
    ensures 1 <= n <= 3 && !b64 ==> 6 * (c - 1) < 8 * n <= 6 * c
  {
    if b64 then 4 else 4 - (3 - n)
  }

  /**
   * `encodechunk` (uuencode.c:37-57): `out` is the caller's line buffer and
   * `off` the position `obuf + lpos` points at. Its three steps are the
   * three methods below: store the four values, map them in place, apply
   * the overrides for a short group.
   */
  method EncodeChunk(inp: array<byte>, out: array<char>, off: nat, n: int, b64: bool) returns (count: int)
    requires inp.Length == 3 && off + 4 <= out.Length
    modifies out
    ensures out[..] == old(out[..off]) + Quantum(inp[..], n, b64) + old(out[off + 4..])
    ensures count == Count(n, b64)
  {
    StoreSextets(inp, out, off);
    MapSymbols(out, off, b64);
    PadShortGroup(inp, out, off, n, b64);
    count := if b64 then 4 else 4 - (3 - n);
  }

  /** uuencode.c:39-42: the four values, stored as they are. */
  method StoreSextets(inp: array<byte>, out: array<char>, off: nat)
    requires inp.Length == 3 && off + 4 <= out.Length
    modifies out
    ensures forall k :: 0 <= k < out.Length && !(off <= k < off + 4) ==> out[k] == old(out[k])
    ensures forall k :: off <= k < off + 4 ==> out[k] == Stored(Sextets(old(inp[..]))[k - off])
  {
    var v := Sextets(inp[..]);
    out[off] := Stored(v[0]);
    out[off + 1] := Stored(v[1]);
    out[off + 2] := Stored(v[2]);
    out[off + 3] := Stored(v[3]);
  }

  /** A byte value stored in the `unsigned char` line buffer. */
  function Stored(x: byte): (c: char)
    ensures c as int == x as int
  {
    x as char
  }

  /** uuencode.c:44-46: each stored value replaced by its symbol. */
  method MapSymbols(out: array<char>, off: nat, b64: bool)
    requires off + 4 <= out.Length
    requires forall k :: off <= k < off + 4 ==> out[k] as int < 64
    modifies out
    ensures forall k :: 0 <= k < out.Length && !(off <= k < off + 4) ==> out[k] == old(out[k])
    ensures forall k :: off <= k < off + 4 ==> out[k] == Symbol(old(out[k]) as int, b64)
  {
    for i := 0 to 4
      invariant forall k :: off <= k < off + i ==> out[k] == Symbol(old(out[k]) as int, b64)
      invariant forall k :: off + i <= k < off + 4 ==> out[k] == old(out[k])
      invariant forall k :: 0 <= k < out.Length && !(off <= k < off + 4) ==> out[k] == old(out[k])
    {
      out[off + i] := Symbol(out[off + i] as int, b64);
    }
  }

  /** uuencode.c:48-54: the overrides of the last two symbols of a short group. */
  method PadShortGroup(inp: array<byte>, out: array<char>, off: nat, n: int, b64: bool)
    requires inp.Length == 3 && off + 4 <= out.Length
    requires forall k :: off <= k < off + 4 ==> out[k] == Symbol(Sextets(inp[..])[k - off] as int, b64)
    modifies out
    ensures forall k :: 0 <= k < out.Length && !(off <= k < off + 4) ==> out[k] == old(out[k])
    ensures forall k :: off <= k < off + 4 ==> out[k] == Quantum(old(inp[..]), n, b64)[k - off]
  {
    QuantumEntries(inp[..], n, b64);
    if n < 2 {
      out[off + 2] := Override2(inp[0], b64);
    }
    if n < 3 {
      out[off + 3] := Override3(inp[1], b64);
    }
  }

  /** Every symbol of a quantum, the overrides included, is in the scheme's alphabet. */
  lemma QuantumAlphabet(g: seq<byte>, n: int, b64: bool)
    requires |g| == 3
    ensures forall i :: 0 <= i < 4 ==> InAlphabet(Quantum(g, n, b64)[i], b64)
  {
    QuantumEntries(g, n, b64);
  }

  /** A Base64 quantum never starts with the pad: its first symbol is always a mapped value. */
  lemma QuantumLeads(g: seq<byte>, n: int)
    requires |g| == 3
    ensures Quantum(g, n, true)[0] != '='
  {
    QuantumEntries(g, n, true);
  }

  /** The four entries of a quantum, one by one. */
  lemma QuantumEntries(g: seq<byte>, n: int, b64: bool)
    requires |g| == 3
    ensures var v := Sextets(g);
      && Quantum(g, n, b64)[0] == Symbol(v[0] as int, b64)
      && Quantum(g, n, b64)[1] == Symbol(v[1] as int, b64)
      && Quantum(g, n, b64)[2] == (if n >= 2 then Symbol(v[2] as int, b64) else Override2(g[0], b64))
      && Quantum(g, n, b64)[3] == (if n >= 3 then Symbol(v[3] as int, b64) else Override3(g[1], b64))
  {
  }

  /**
   * The value a decoder reads back from a symbol: the RFC 4648 value, or
   * `(c - 0x20) & 0x3f` for uuencode.
   */
  function SymbolValue(c: char, b64: bool): (v: byte)
    ensures v < 64
  {
    if b64 then (if RfcValue(c) >= 0 then RfcValue(c) as byte else 0)
    else ((c as int - 0x20) % 64) as byte
  }

  /**
   * The inverse of a quantum: the bytes its meaningful symbols carry. Base64
   * tells their number by the `=` pads, uuencode by how many symbols there are.
   */
  function DecodeQuantum(s: seq<char>, b64: bool): (g: seq<byte>)
    requires 2 <= |s| <= 4 && (b64 ==> |s| == 4)
    ensures 1 <= |g| <= 3
  {
    var n := if b64 then (if s[2] == '=' then 1 else if s[3] == '=' then 2 else 3) else |s| - 1;
    var v := seq(4, i requires 0 <= i < 4 => if i <= n then SymbolValue(s[i], b64) else 0);
    Join(v)[..n]
  }

  /** The values past the ones meaningful for `n` bytes, set to zero. */
  function Meaningful(v: seq<byte>, n: int): (w: seq<byte>)
    requires |v| == 4
    ensures |w| == 4
  {
    seq(4, i requires 0 <= i < 4 => if i <= n then v[i] else 0)
  }

  /** The first `n + 1` values of a group determine its first `n` bytes. */
  lemma JoinMeaningful(g: seq<byte>, n: int)
    requires |g| == 3 && 1 <= n <= 3
    ensures Join(Meaningful(Sextets(g), n))[..n] == g[..n]
  {
    var v := Sextets(g);
    var w := Meaningful(v, n);
    assert w[0] == v[0] && w[1] == v[1];
    if n == 1 {
      assert w[2] == 0 && w[3] == 0;
      assert Join(w)[0] == g[0];
    } else if n == 2 {
      assert w[2] == v[2] && w[3] == 0;
      assert Join(w)[0] == g[0] && Join(w)[1] == g[1];
    } else {
      assert w == v;
      JoinSextets(g);
    }
  }

  /** Round trip of one quantum: the symbols that count give back exactly the `n` bytes read. */
  lemma QuantumRoundTrip(g: seq<byte>, n: int, b64: bool)
    requires |g| == 3 && 1 <= n <= 3
    ensures 2 <= Count(n, b64) <= 4 && (b64 ==> Count(n, b64) == 4)
    ensures DecodeQuantum(Quantum(g, n, b64)[..Count(n, b64)], b64) == g[..n]
  {
    var s := Quantum(g, n, b64)[..Count(n, b64)];
    ValuesReadBack(g, n, b64);
    assert seq(4, i requires 0 <= i < 4 => if i <= n then SymbolValue(s[i], b64) else 0) == Meaningful(Sextets(g), n);
    JoinMeaningful(g, n);
  }

  /** A decoder finds `n` again and reads back the meaningful values. */
  lemma ValuesReadBack(g: seq<byte>, n: int, b64: bool)
    requires |g| == 3 && 1 <= n <= 3
    ensures var s := Quantum(g, n, b64)[..Count(n, b64)];
      && 2 <= |s| <= 4 && (b64 ==> |s| == 4)
      && (if b64 then (if s[2] == '=' then 1 else if s[3] == '=' then 2 else 3) else |s| - 1) == n
      && forall i :: 0 <= i <= n ==> SymbolValue(s[i], b64) == Sextets(g)[i]
  {
    var v := Sextets(g);
    if b64 {
      Base64Padding(g, n);
      forall i | 0 <= i <= n
        ensures SymbolValue(Quantum(g, n, b64)[i], b64) == v[i]
      {
        B64STable(v[i] as int);
      }
    } else {
      UuencodeSymbols(g, n);
      forall i | 0 <= i <= n
        ensures SymbolValue(Quantum(g, n, b64)[i], b64) == v[i]
      {
        UuValueInverse(v[i]);
      }
    }
  }

  /** A uuencode decoder's `(c - 0x20) & 0x3f` undoes the `+ 0x20`. */
  lemma UuValueInverse(x: byte)
    requires x < 64
    ensures SymbolValue(UuChar(x as int), false) == x
  {
    var y := x as int;
    assert UuChar(y) as int - 0x20 == y && y % 64 == y;
    assert y as byte == x;
  }

  /**
   * Base64 padding: the symbol at position `i` is the pad `=` exactly when
   * `i > n`, so a group of 1, 2 or 3 bytes ends in 2, 1 or 0 pads; the others
   * are `b64s` entries, and all four count.
   */
  lemma Base64Padding(g: seq<byte>, n: int)
    requires |g| == 3 && 1 <= n <= 3
    ensures Count(n, true) == 4
    ensures forall i :: 0 <= i < 4 ==> (Quantum(g, n, true)[i] == '=' <==> i > n)
    ensures forall i :: 0 <= i < 4 && i <= n ==> Quantum(g, n, true)[i] == B64S[Sextets(g)[i] as int]
  {
    var v := Sextets(g);
    B64STable(v[0] as int);
    B64STable(v[1] as int);
    B64STable(v[2] as int);
    B64STable(v[3] as int);
  }

  /**
   * Classic uuencode: every one of the four symbols, the overrides included,
   * lies in 0x20..0x5F; the overrides are the ones of uuencode.c:49 and :53;
   * and the symbols that count are the meaningful values plus 0x20, a zero
   * value giving a space.
   */
  lemma UuencodeSymbols(g: seq<byte>, n: int)
    requires |g| == 3 && 1 <= n <= 3
    ensures forall i :: 0 <= i < 4 ==> ' ' <= Quantum(g, n, false)[i] <= '_'
    ensures n < 2 ==> Quantum(g, n, false)[2] == UuChar(Low6(g[0] << 4))
    ensures n < 3 ==> Quantum(g, n, false)[3] == UuChar(Low6(g[1] << 2))
    ensures Count(n, false) == n + 1
    ensures forall i :: 0 <= i <= n ==> Quantum(g, n, false)[i] == UuChar(Sextets(g)[i] as int)
    ensures forall i :: 0 <= i <= n && Sextets(g)[i] == 0 ==> Quantum(g, n, false)[i] == ' '
  {
  }

  /**
   * When the bytes not read are zero (the caller clears its input buffer),
   * the bits of the last meaningful value that lie past the data are zero,
   * as section 3.5 of RFC 4648 asks of a canonical encoding.
   */
  lemma PadBitsZero(g: seq<byte>, n: int)
    requires |g| == 3 && 1 <= n <= 2
    requires forall i :: n <= i < 3 ==> g[i] == 0
    ensures n == 1 ==> Sextets(g)[1] & 0xf == 0 && Sextets(g)[2] == 0 && Sextets(g)[3] == 0
    ensures n == 2 ==> Sextets(g)[2] & 0x3 == 0 && Sextets(g)[3] == 0
  {
    if n == 1 {
      assert g[1] == 0 && g[2] == 0;
    } else {
      assert g[2] == 0;
    }
  }
}
