/**
 * The envelope `encode` writes around the encoded lines: the header
 * `begin[-base64] MMM name` printed with `printf("begin%s %03o %s\n", ...)`
 * and the terminator `====` or `end` (uuencode.c:61, 91).
 */
module Envelope {

  /** The character of the octal digit `d`. */
  function OctalDigit(d: int): char
    requires 0 <= d < 8
  {
    ('0' as int + d) as char
  }

  predicate IsOctal(s: string)
  {
    forall i :: 0 <= i < |s| ==> '0' <= s[i] <= '7'
  }

  /** The octal numeral of `m` with no leading zeros, as the `%o` conversion writes it. */
  function Octal(m: nat): (r: string)
    ensures 1 <= |r| && IsOctal(r)
    decreases m
  {
    if m < 8 then [OctalDigit(m)] else Octal(m / 8) + [OctalDigit(m % 8)]
  }

  /** `%03o`: the octal numeral, padded with zeros on the left to at least three digits. */
  function Octal03(m: nat): (r: string)
    ensures |r| >= 3 && IsOctal(r)
  {
    var d := Octal(m);
    if |d| < 3 then seq(3 - |d|, _ => '0') + d else d
  }

  /** The number an octal numeral denotes (what a decoder reads back from the header). */
  function OctalValue(s: string): nat
    requires IsOctal(s)
    decreases |s|
  {
    if s == [] then 0 else OctalValue(s[..|s| - 1]) * 8 + (s[|s| - 1] as int - '0' as int)
  }

  function Pow8(k: nat): (r: nat)
    ensures r >= 1
  {
    if k == 0 then 1 else 8 * Pow8(k - 1)
  }

  /** Reading the numeral `%o` writes gives back the number. */
  lemma {:induction false} OctalRoundTrip(m: nat)
    ensures OctalValue(Octal(m)) == m
    decreases m
  {
    if m >= 8 {
      var d := Octal(m);
      assert d[..|d| - 1] == Octal(m / 8);
      OctalRoundTrip(m / 8);
    }
  }

  /** Leading zeros do not change the value of a numeral. */
  lemma {:induction false} LeadingZeros(z: nat, s: string)
    requires IsOctal(s)
    ensures IsOctal(seq(z, _ => '0') + s)
    ensures OctalValue(seq(z, _ => '0') + s) == OctalValue(s)
    decreases |s|, z
  {
    var zs: string := seq(z, _ => '0');
    var t := zs + s;
    if s == [] {
      assert t == zs;
      if z > 0 {
        assert t[..|t| - 1] == seq(z - 1, _ => '0') + [];
        LeadingZeros(z - 1, []);
      }
    } else {
      assert t[..|t| - 1] == zs + s[..|s| - 1];
      assert t[|t| - 1] == s[|s| - 1];
      LeadingZeros(z, s[..|s| - 1]);
    }
  }

  /** A numeral of at most `k` digits (`k` at least one) stands exactly for the numbers below 8^k. */
  lemma {:induction false} OctalLength(m: nat, k: nat)
    requires k >= 1
    ensures |Octal(m)| <= k <==> m < Pow8(k)
    decreases m
  {
    assert Pow8(k) == 8 * Pow8(k - 1);
    if m >= 8 {
      assert |Octal(m)| == |Octal(m / 8)| + 1;
      if k == 1 {
        assert |Octal(m / 8)| >= 1;
      } else {
        OctalLength(m / 8, k - 1);
      }
    }
  }

  /**
   * `%03o` is read back as the mode it printed, and it is exactly three
   * digits wide precisely when the mode is below 0o1000 (`st_mode & 0777`
   * and the default 0644 always are).
   */
  lemma Octal03RoundTrip(m: nat)
    ensures OctalValue(Octal03(m)) == m
    ensures |Octal03(m)| == 3 <==> m < 512
  {
    var d := Octal(m);
    OctalRoundTrip(m);
    OctalLength(m, 3);
    EightCubed();
    if |d| < 3 {
      LeadingZeros(3 - |d|, d);
      assert |Octal03(m)| == 3;
    } else {
      assert Octal03(m) == d;
    }
  }

  lemma EightCubed()
    ensures Pow8(3) == 512
  {
    assert Pow8(1) == 8;
  }

  /** For a mode below 0o1000 the field is the mode's three octal digits. */
  lemma Octal03Digits(m: nat)
    requires m < 512
    ensures Octal03(m) == [OctalDigit(m / 64), OctalDigit(m / 8 % 8), OctalDigit(m % 8)]
  {
    OctalDivisions(m);
    if m >= 64 {
      assert Octal(m / 64) == [OctalDigit(m / 64)];
      assert Octal(m / 8) == Octal(m / 64) + [OctalDigit(m / 8 % 8)];
      assert Octal(m) == Octal(m / 8) + [OctalDigit(m % 8)];
    } else if m >= 8 {
      assert Octal(m) == [OctalDigit(m / 8), OctalDigit(m % 8)];
    } else {
      assert Octal(m) == [OctalDigit(m % 8)];
    }
  }

  /** The octal digits of a mode below 0o1000, one division at a time. */
  lemma OctalDivisions(m: nat)
    requires m < 512
    ensures m / 8 / 8 == m / 64 < 8
    ensures m >= 64 <==> m / 8 >= 8
    ensures m < 64 ==> m / 64 == 0 && m / 8 % 8 == m / 8
    ensures m < 8 ==> m / 8 == 0 && m % 8 == m
  {
  }

  datatype Option<T> = None | Some(value: T)

  /**
   * The mode `main` passes to `encode` (uuencode.c:98, 126-130): 0644, or,
   * when a file operand was opened and `fstat` succeeded, the permission
   * bits `st_mode & 0777` of that file (`fileMode` is its `st_mode`; for a
   * non-negative number the mask keeps the value modulo 512).
   */
  function MainMode(fileMode: Option<nat>): (m: nat)
    ensures m < 512
    ensures fileMode.None? ==> m == 420
  {
    if fileMode.Some? then fileMode.value % 512 else 420
  }

  /** The mode field of the header `main` has printed: exactly three digits, read back as the mode. */
  lemma MainModeField(fileMode: Option<nat>)
    ensures var m := MainMode(fileMode);
      |Octal03(m)| == 3 && OctalValue(Octal03(m)) == m
    ensures fileMode.None? ==> Octal03(MainMode(fileMode)) == "644"
  {
    Octal03RoundTrip(MainMode(fileMode));
    if fileMode.None? {
      Octal03Digits(420);
    }
  }

  /**
   * The header line of uuencode.c:61: the scheme's `begin` word and a space,
   * the mode field, a space, the path verbatim, and a newline.
   */
  function Header(path: string, mode: nat, b64: bool): (h: string)
    ensures |h| == |HeaderPrefix(b64)| + |Octal03(mode)| + |path| + 2
    ensures h[..|HeaderPrefix(b64)|] == HeaderPrefix(b64)
    ensures h[|h| - 2 - |path|] == ' ' && h[|h| - 1 - |path|..|h| - 1] == path && h[|h| - 1] == '\n'
  {
    HeaderShape(HeaderPrefix(b64), Octal03(mode), path);
    "begin" + (if b64 then "-base64" else "") + " " + Octal03(mode) + " " + path + "\n"
  }

  /** Where the parts of a header line sit. */
  lemma HeaderShape(p: string, f: string, path: string)
    ensures var h := p + f + " " + path + "\n";
      && |h| == |p| + |f| + |path| + 2
      && h[..|p|] == p
      && h[|h| - 2 - |path|] == ' ' && h[|h| - 1 - |path|..|h| - 1] == path && h[|h| - 1] == '\n'
  {
    var h := p + f + " " + path + "\n";
    assert h[|h| - 1 - |path|..|h| - 1] == path;
  }

  /** The fixed text before the mode field. */
  function HeaderPrefix(b64: bool): string
  {
    if b64 then "begin-base64 " else "begin "
  }

  /**
   * The header is the scheme's `begin` word and a space, three octal digits
   * that read back as the mode, a space, the path verbatim, and a newline.
   */
  lemma HeaderFields(path: string, mode: nat, b64: bool)
    requires mode < 512
    ensures var h, p := Header(path, mode, b64), |HeaderPrefix(b64)|;
      && |h| == p + 3 + 1 + |path| + 1
      && h[..p] == HeaderPrefix(b64)
      && IsOctal(h[p..p + 3]) && OctalValue(h[p..p + 3]) == mode
      && h[p + 3] == ' '
      && h[p + 4..|h| - 1] == path
      && h[|h| - 1] == '\n'
  {
    Octal03RoundTrip(mode);
    var h, f := Header(path, mode, b64), Octal03(mode);
    var p, rest := HeaderPrefix(b64), " " + path + "\n";
    assert h == p + f + rest;
    assert h[..|p|] == p && h[|p|..|p| + 3] == f && h[|p| + 3..] == rest;
  }

  /** `begin 644 x`: the header with the default mode 0644. */
  lemma HeaderDefaultMode()
    ensures Header("x", 420, false) == "begin 644 x\n"
  {
    Octal03Digits(420);
  }

  /** `begin-base64 755 foo.bin`: a Base64 header for an executable file. */
  lemma HeaderBase64()
    ensures Header("foo.bin", 493, true) == "begin-base64 755 foo.bin\n"
  {
    Octal03Digits(493);
  }

  /**
   * The terminator of uuencode.c:91: Base64's is pads only, and uuencode's
   * starts with `e` (0x65), above the symbol range 0x20..0x5F. That no
   * written line equals it is `Layout.TerminatorNotALine`.
   */
  function Terminator(b64: bool): (t: string)
    ensures |t| >= 2 && t[|t| - 1] == '\n'
    ensures b64 ==> forall i :: 0 <= i < |t| - 1 ==> t[i] == '='
    ensures !b64 ==> t[0] as int > 0x5f
  {
    if b64 then "====\n" else "end\n"
  }
}
