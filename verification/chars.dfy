/** Character utilities of the core library: digit conversion in radices up
    to 36, the hexadecimal and "default" escapes, and the UTF-8 length.

    A character is a Unicode scalar value (`char`); `c as uint` is its code
    point. `fail!` is the `Panic` outcome. */
module Chars {
  import opened Common

  const MaxRadix: nat := 36

  predicate IsAsciiDigit(c: char) { '0' <= c <= '9' }
  predicate IsAsciiLower(c: char) { 'a' <= c <= 'z' }
  predicate IsAsciiUpper(c: char) { 'A' <= c <= 'Z' }

  /** The lower-case form of an ASCII letter; every other character is itself. */
  function AsciiLower(c: char): char
  {
    if IsAsciiUpper(c) then (c as int - 'A' as int + 'a' as int) as char else c
  }

  // ---------------------------------------------------------------------------
  // to_digit / from_digit / is_digit_radix

  /** `to_digit(c, radix)`: `0-9` are 0..9, `a-z` and `A-Z` are 10..35; the
      value is returned only when it is below the radix. A radix above 36 fails. */
  function ToDigit(c: char, radix: nat): (r: Outcome<Option<nat>>)
    ensures r.Panic? <==> radix > MaxRadix
    ensures r.Done? && r.value.Some? ==> r.value.value < radix
    ensures r.Done? && IsAsciiDigit(c) ==> (r.value.Some? <==> (c as int - '0' as int) < radix)
    ensures r.Done? && IsAsciiLower(c) ==> (r.value.Some? <==> (c as int - 'a' as int) + 10 < radix)
    ensures r.Done? && IsAsciiUpper(c) ==> (r.value.Some? <==> (c as int - 'A' as int) + 10 < radix)
    ensures r.Done? && !(IsAsciiDigit(c) || IsAsciiLower(c) || IsAsciiUpper(c)) ==> r.value.None?
    ensures r.Done? && r.value.Some? && IsAsciiDigit(c) ==> r.value.value == c as int - '0' as int
    ensures r.Done? && r.value.Some? && IsAsciiLower(c) ==> r.value.value == c as int - 'a' as int + 10
    ensures r.Done? && r.value.Some? && IsAsciiUpper(c) ==> r.value.value == c as int - 'A' as int + 10
  {
    if radix > MaxRadix then
      Panic("to_digit: radix is too high (maximum 36)")
    else
      var val: nat :=
        if IsAsciiDigit(c) then c as int - '0' as int
        else if IsAsciiLower(c) then c as int + 10 - 'a' as int
        else if IsAsciiUpper(c) then c as int + 10 - 'A' as int
        else radix;  // the source returns `None` here, as an out-of-radix value does
      if IsAsciiDigit(c) || IsAsciiLower(c) || IsAsciiUpper(c) then
        if val < radix then Done(Some(val)) else Done(None)
      else
        Done(None)
  }

  /** `from_digit(num, radix)`: the character `0-9` or `a-z` for `num`, when
      `num` is one digit of `radix`. A radix above 36 fails. */
  function FromDigit(num: nat, radix: nat): (r: Outcome<Option<char>>)
    ensures r.Panic? <==> radix > MaxRadix
    ensures r.Done? ==> (r.value.Some? <==> num < radix)
    ensures r.Done? && r.value.Some? && num < 10 ==>
              IsAsciiDigit(r.value.value) && r.value.value as int - '0' as int == num
    ensures r.Done? && r.value.Some? && num >= 10 ==>
              IsAsciiLower(r.value.value) && r.value.value as int - 'a' as int + 10 == num
  {
    if radix > MaxRadix then
      Panic("from_digit: radix is too high (maximum 36)")
    else if num < radix then
      if num < 10 then Done(Some(('0' as int + num) as char))
      else Done(Some(('a' as int + num - 10) as char))
    else
      Done(None)
  }

  /** `is_digit_radix(c, radix)` holds exactly when `to_digit` yields a value;
      it fails whenever `to_digit` fails. */
  function IsDigitRadix(c: char, radix: nat): (r: Outcome<bool>)
    ensures r.Panic? <==> radix > MaxRadix
    ensures r.Done? ==> (r.value <==>
              (IsAsciiDigit(c) && c as int - '0' as int < radix) ||
              (IsAsciiLower(c) && c as int - 'a' as int + 10 < radix) ||
              (IsAsciiUpper(c) && c as int - 'A' as int + 10 < radix))
  {
    match ToDigit(c, radix)
    case Panic(m) => Panic(m)
    case Done(Some(_)) => Done(true)
    case Done(None) => Done(false)
  }

  /** Round trip: a digit rendered by `from_digit` reads back as itself. */
  lemma FromDigitThenToDigit(num: nat, radix: nat)
    requires radix <= MaxRadix && num < radix
    ensures FromDigit(num, radix).Done? && FromDigit(num, radix).value.Some?
    ensures ToDigit(FromDigit(num, radix).value.value, radix) == Done(Some(num))
  {
  }

  /** Round trip the other way: a character accepted by `to_digit` is rendered
      back by `from_digit` as its lower-case form. */
  lemma ToDigitThenFromDigit(c: char, radix: nat, v: nat)
    requires ToDigit(c, radix) == Done(Some(v))
    ensures FromDigit(v, radix) == Done(Some(AsciiLower(c)))
  {
  }

  /** The unit tests of `to_digit`. */
  lemma ToDigitExamples()
    ensures ToDigit('0', 10) == Done(Some(0))
    ensures ToDigit('1', 2) == Done(Some(1))
    ensures ToDigit('2', 3) == Done(Some(2))
    ensures ToDigit('9', 10) == Done(Some(9))
    ensures ToDigit('a', 16) == Done(Some(10))
    ensures ToDigit('A', 16) == Done(Some(10))
    ensures ToDigit('b', 16) == Done(Some(11))
    ensures ToDigit('B', 16) == Done(Some(11))
    ensures ToDigit('z', 36) == Done(Some(35))
    ensures ToDigit('Z', 36) == Done(Some(35))
    ensures ToDigit(' ', 10) == Done(None)
    ensures ToDigit('$', 36) == Done(None)
  {
  }

  // ---------------------------------------------------------------------------
  // escape_unicode / escape_default

  function HexDigit(d: nat): (c: char)
    requires d < 16
  {
    "0123456789abcdef"[d]
  }

  /** A lower-case hexadecimal digit, as `to_str_radix(_, 16)` writes. */
  predicate IsLowerHex(c: char)
  {
    IsAsciiDigit(c) || 'a' <= c <= 'f'
  }

  predicate LowerHex(s: string)
  {
    forall k :: 0 <= k < |s| ==> IsLowerHex(s[k])
  }

  /** Each digit is written as the lower-case digit reading back as it. */
  lemma HexDigitValue(d: nat)
    requires d < 16
    ensures IsLowerHex(HexDigit(d)) && HexValue(HexDigit(d)) == d
  {
  }

  /** A lower-case digit is the digit of its value. */
  lemma HexValueDigit(c: char)
    requires IsLowerHex(c)
    ensures HexValue(c) < 16 && HexDigit(HexValue(c)) == c
  {
  }

  function HexValue(c: char): nat
  {
    if IsAsciiDigit(c) then c as int - '0' as int
    else if 'a' <= c <= 'f' then c as int - 'a' as int + 10
    else 0
  }

  function Pow16(k: nat): (r: nat)
    ensures r >= 1
  {
    if k == 0 then 1 else 16 * Pow16(k - 1)
  }

  /** Lower-case hexadecimal without leading zeros, as `u32::to_str_radix(_, 16)`. */
  function HexString(n: nat): (s: string)
    ensures |s| >= 1
    decreases n
  {
    if n < 16 then [HexDigit(n)] else HexString(n / 16) + [HexDigit(n % 16)]
  }

  /** `HexString` writes only lower-case digits. */
  lemma {:induction false} HexStringLowerHex(n: nat)
    ensures LowerHex(HexString(n))
    decreases n
  {
    HexDigitValue(n % 16);
    if n >= 16 {
      HexStringLowerHex(n / 16);
    } else {
      HexDigitValue(n);
    }
  }

  /** Reads a string of hexadecimal digits, most significant first. */
  function ParseHex(s: string): nat
  {
    if |s| == 0 then 0 else 16 * ParseHex(s[..|s| - 1]) + HexValue(s[|s| - 1])
  }

  lemma {:induction false} ParseHexString(n: nat)
    ensures ParseHex(HexString(n)) == n
    decreases n
  {
    if n >= 16 {
      ParseHexString(n / 16);
      var s := HexString(n);
      assert s[..|s| - 1] == HexString(n / 16);
    }
  }

  lemma {:induction false} HexStringLength(n: nat, k: nat)
    requires k >= 1 && n < Pow16(k)
    ensures |HexString(n)| <= k
    decreases n
  {
    if n >= 16 {
      assert n / 16 < Pow16(k - 1);
      HexStringLength(n / 16, k - 1);
    }
  }

  /** Leading zeros do not change the value read. */
  lemma {:induction false} ParseHexZeros(z: nat, s: string)
    ensures ParseHex(Repeat('0', z) + s) == ParseHex(s) + ParseHex(Repeat('0', z)) * Pow16(|s|)
    ensures ParseHex(Repeat('0', z)) == 0
    decreases |s|, z
  {
    if z > 0 {
      ParseHexZeros(z - 1, []);
      var zs := Repeat('0', z);
      assert zs[..|zs| - 1] == Repeat('0', z - 1);
    }
    if |s| > 0 {
      ParseHexZeros(z, s[..|s| - 1]);
      var t := Repeat('0', z) + s;
      assert t[..|t| - 1] == Repeat('0', z) + s[..|s| - 1];
    } else {
      assert Repeat('0', z) + s == Repeat('0', z);
    }
  }

  /** The escape letter and the zero-padded width `escape_unicode` uses. */
  function EscapeClass(c: char): (char, nat)
  {
    if c as int <= 0xff then ('x', 2)
    else if c as int <= 0xffff then ('u', 4)
    else ('U', 8)
  }

  /** `escape_unicode(c)`: a backslash, `x`/`u`/`U`, then the code point in
      lower-case hexadecimal zero-padded to 2, 4 or 8 digits. */
  function EscapeUnicode(c: char): (r: string)
    ensures |r| == 2 + EscapeClass(c).1
    ensures r[0] == '\\' && r[1] == EscapeClass(c).0
    ensures LowerHex(r[2..]) && ParseHex(r[2..]) == c as int
  {
    var s := HexString(c as int);
    var (letter, pad) := EscapeClass(c);
    HexStringFits(c);
    var digits := Repeat('0', pad - |s|) + s;
    ParseHexString(c as int);
    ParseHexZeros(pad - |s|, s);
    HexStringLowerHex(c as int);
    assert LowerHex(digits) by {
      forall k | 0 <= k < |digits|
        ensures IsLowerHex(digits[k])
      {
        if k >= pad - |s| {
          assert digits[k] == s[k - (pad - |s|)];
        }
      }
    }
    var r := ['\\', letter] + digits;
    assert r[2..] == digits;
    r
  }

  /** Equal-length strings of lower-case digits that read the same are the
      same string. */
  lemma {:induction false} ParseHexInjective(s: string, t: string)
    requires |s| == |t| && LowerHex(s) && LowerHex(t) && ParseHex(s) == ParseHex(t)
    ensures s == t
    decreases |s|
  {
    if |s| > 0 {
      var n := |s| - 1;
      HexValueDigit(s[n]);
      HexValueDigit(t[n]);
      LastDigitSplit(ParseHex(s[..n]), HexValue(s[n]), ParseHex(t[..n]), HexValue(t[n]));
      assert LowerHex(s[..n]) && LowerHex(t[..n]);
      ParseHexInjective(s[..n], t[..n]);
      assert s == s[..n] + [s[n]];
      assert t == t[..n] + [t[n]];
    }
  }

  /** A number written as a base-16 prefix and a last digit splits one
      way only. */
  lemma LastDigitSplit(a: nat, x: nat, b: nat, y: nat)
    requires x < 16 && y < 16 && 16 * a + x == 16 * b + y
    ensures a == b && x == y
  {
  }

  /** `escape_unicode`'s contract leaves no choice: any string of that
      length, with that prefix and lower-case digits reading back as the
      code point, is the escape. */
  lemma EscapeUnicodeUnique(c: char, s: string)
    requires |s| == 2 + EscapeClass(c).1 && s[0] == '\\' && s[1] == EscapeClass(c).0
    requires LowerHex(s[2..]) && ParseHex(s[2..]) == c as int
    ensures s == EscapeUnicode(c)
  {
    var r := EscapeUnicode(c);
    ParseHexInjective(s[2..], r[2..]);
    assert s == s[..2] + s[2..];
    assert r == r[..2] + r[2..];
  }

  lemma HexStringFits(c: char)
    ensures |HexString(c as int)| <= EscapeClass(c).1
  {
    var n := c as int;
    if n <= 0xff {
      assert Pow16(2) == 256;
      HexStringLength(n, 2);
    } else if n <= 0xffff {
      assert Pow16(4) == 65536;
      HexStringLength(n, 4);
    } else {
      assert Pow16(8) == 0x1_0000_0000;
      HexStringLength(n, 8);
    }
  }

  /** `escape_default(c)`: the two-character escapes for tab, CR, LF,
      backslash and both quotes; printable ASCII as itself; everything else
      through `escape_unicode`. */
  function EscapeDefault(c: char): (r: string)
    ensures c == '\t' ==> r == "\\t"
    ensures c == '\r' ==> r == "\\r"
    ensures c == '\n' ==> r == "\\n"
    ensures c == '\\' ==> r == "\\\\"
    ensures c == '\'' ==> r == "\\'"
    ensures c == '"' ==> r == "\\\""
    ensures c !in "\t\r\n\\'\"" && 0x20 <= c as int <= 0x7e ==> r == [c]
    ensures c !in "\t\r\n\\'\"" && !(0x20 <= c as int <= 0x7e) ==> r == EscapeUnicode(c)
  {
    match c
    case '\t' => "\\t"
    case '\r' => "\\r"
    case '\n' => "\\n"
    case '\\' => "\\\\"
    case '\'' => "\\'"
    case '"' => "\\\""
    case _ => if 0x20 <= c as int <= 0x7e then [c] else EscapeUnicode(c)
  }

  /** The output of `escape_default` always begins with a backslash unless
      the character is printable ASCII other than a quote or backslash, which
      it leaves alone; the unescaped form is therefore recoverable. */
  lemma EscapeDefaultShape(c: char)
    ensures |EscapeDefault(c)| == 1 <==> (0x20 <= c as int <= 0x7e && c !in "\\'\"")
    ensures |EscapeDefault(c)| != 1 ==> EscapeDefault(c)[0] == '\\'
  {
    if c !in "\t\r\n\\'\"" && !(0x20 <= c as int <= 0x7e) {
      var r := EscapeUnicode(c);
      assert EscapeDefault(c) == r && |r| >= 4 && r[0] == '\\';
    }
  }

  /** The unit tests of `escape_default`. */
  lemma EscapeDefaultExamples()
    ensures EscapeDefault('\n') == "\\n"
    ensures EscapeDefault('\r') == "\\r"
    ensures EscapeDefault('\'') == "\\'"
    ensures EscapeDefault('"') == "\\\""
    ensures EscapeDefault(' ') == " "
    ensures EscapeDefault('a') == "a"
    ensures EscapeDefault('~') == "~"
  {
  }

  /** The unpadded digits always fit the padded width, so the source's
      `assert!` on the width never fails. */
  lemma EscapeUnicodeParts(c: char)
    ensures |HexString(c as int)| <= EscapeClass(c).1
  {
    HexStringFits(c);
  }

  /** A one-byte code point escapes as `\x` and exactly two digits. */
  lemma EscapeUnicodeByte(c: char)
    requires c as int <= 0xff
    ensures EscapeUnicode(c) == ['\\', 'x', HexDigit(c as int / 16), HexDigit(c as int % 16)]
  {
    EscapeUnicodeParts(c);
    var n := c as int;
    if n >= 16 {
      assert HexString(n) == [HexDigit(n / 16), HexDigit(n % 16)];
    } else {
      assert Repeat('0', 1) == ['0'];
    }
  }

  /** The unit tests of `escape_unicode` for one-byte code points. */
  lemma EscapeUnicodeByteExamples()
    ensures EscapeUnicode('\0') == "\\x00"
    ensures EscapeUnicode('\n') == "\\x0a"
    ensures EscapeUnicode(' ') == "\\x20"
    ensures EscapeUnicode('a') == "\\x61"
  {
    EscapeUnicodeByte('\0');
    EscapeUnicodeByte('\n');
    EscapeUnicodeByte(' ');
    EscapeUnicodeByte('a');
  }

  /** `escape_unicode` of a code point needing four hexadecimal digits. */
  lemma EscapeUnicodeWideExample()
    ensures EscapeUnicode('\U{11b}') == "\\u011b"
  {
    EscapeUnicodeParts('\U{11b}');
    HexStringWide();
    assert Repeat('0', 1) == "0";
  }

  lemma HexStringWide()
    ensures HexString(0x11b) == "11b"
  {
    assert HexString(0x11) == "11";
  }

  /** `escape_unicode` of a code point beyond the basic multilingual plane. */
  lemma EscapeUnicodeAstralExample()
    ensures EscapeUnicode('\U{1d4b6}') == "\\U0001d4b6"
  {
    EscapeUnicodeParts('\U{1d4b6}');
    HexStringAstral();
    var z := Repeat('0', 3);
    assert z == "000";
  }

  lemma HexStringAstral()
    ensures HexString(0x1d4b6) == "1d4b6"
  {
    assert HexString(0x1d) == "1d";
    assert HexString(0x1d4) == "1d4";
    assert HexString(0x1d4b) == "1d4b";
  }

  /** Outside the printable ASCII range, and away from tab, CR and LF,
      `escape_default` is `escape_unicode`. */
  lemma EscapeDefaultDefers(c: char)
    requires !(0x20 <= c as int <= 0x7e) && c != '\t' && c != '\r' && c != '\n'
    ensures EscapeDefault(c) == EscapeUnicode(c)
  {
  }

  /** The unit tests of `escape_default` for one-byte characters it hands on
      to `escape_unicode`. */
  lemma EscapeDefaultByteExamples()
    ensures EscapeDefault('\0') == "\\x00"
    ensures EscapeDefault('\U{1f}') == "\\x1f"
    ensures EscapeDefault('\U{7f}') == "\\x7f"
    ensures EscapeDefault('\U{ff}') == "\\xff"
  {
    EscapeDefaultDefers('\0');
    EscapeUnicodeByte('\0');
    EscapeDefaultDefers('\U{1f}');
    EscapeUnicodeByte('\U{1f}');
    EscapeDefaultDefers('\U{7f}');
    EscapeUnicodeByte('\U{7f}');
    EscapeDefaultDefers('\U{ff}');
    EscapeUnicodeByte('\U{ff}');
  }

  /** The unit tests of `escape_default` for wider characters. */
  lemma EscapeDefaultWideExamples()
    ensures EscapeDefault('\U{11b}') == "\\u011b"
    ensures EscapeDefault('\U{1d4b6}') == "\\U0001d4b6"
  {
    EscapeDefaultDefers('\U{11b}');
    EscapeUnicodeWideExample();
    EscapeDefaultDefers('\U{1d4b6}');
    EscapeUnicodeAstralExample();
  }

  // ---------------------------------------------------------------------------
  // len_utf8_bytes

  /** `len_utf8_bytes(c)` on the code point `code = c as uint`: 1, 2, 3 or 4
      by the thresholds 128, 2048, 65536 and 2097152; a larger code fails
      ("invalid character!"). */
  function LenUtf8Bytes(code: nat): (r: Outcome<nat>)
    ensures r.Done? <==> code < 2097152
    ensures r.Done? ==> 1 <= r.value <= 4
  {
    if code < 128 then Done(1)
    else if code < 2048 then Done(2)
    else if code < 65536 then Done(3)
    else if code < 2097152 then Done(4)
    else Panic("invalid character!")
  }

  /** Payload bits carried by a UTF-8 sequence of `n` bytes (RFC 3629
      section 3): 7, 11, 16 and 21. */
  function Utf8PayloadBits(n: nat): nat
    requires 1 <= n <= 4
  {
    if n == 1 then 7 else 5 * n + 1
  }

  function Pow2(k: nat): (r: nat)
    ensures r >= 1
  {
    if k == 0 then 1 else 2 * Pow2(k - 1)
  }

  /** `len_utf8_bytes` is the shortest UTF-8 sequence whose payload holds the
      code point: the code fits in the chosen length and not in one less.
      Every Unicode scalar value is below the failure threshold. */
  lemma LenUtf8IsShortestEncoding(c: char)
    ensures LenUtf8Bytes(c as nat).Done?
    ensures var n := LenUtf8Bytes(c as nat).value;
            (c as int) < Pow2(Utf8PayloadBits(n)) &&
            (n == 1 || (c as int) >= Pow2(Utf8PayloadBits(n - 1)))
  {
    assert Pow2(7) == 128;
    assert Pow2(11) == 2048;
    assert Pow2(16) == 65536;
    assert Pow2(21) == 2097152;
  }
}
