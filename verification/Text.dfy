/** Printing and reading numbers, hexadecimal bytes and delimited lists. */
module Text {
  import opened Wrappers
  import opened Bytes

  // ----- digits -----

  /** The digits that numbers are printed with. */
  predicate IsDigit(c: char) {
    '0' <= c <= '9' || 'a' <= c <= 'f'
  }

  predicate AllDigits(s: string) {
    forall i | 0 <= i < |s| :: IsDigit(s[i])
  }

  function Digit(n: nat): (c: char)
    requires n < 16
    ensures DigitValue(c) == Some(n) && IsDigit(c)
  {
    if n < 10 then ('0' as int + n) as char else ('a' as int + n - 10) as char
  }

  /** The value of a digit in any radix up to 16; both cases of letters are read. */
  function DigitValue(c: char): (r: Option<nat>)
    ensures r.Some? ==> r.value < 16
  {
    if '0' <= c <= '9' then Some(c as int - '0' as int)
    else if 'a' <= c <= 'f' then Some(c as int - 'a' as int + 10)
    else if 'A' <= c <= 'F' then Some(c as int - 'A' as int + 10)
    else None
  }

  const LOWER_DIGITS: string := "0123456789abcdef"
  const UPPER_DIGITS: string := "0123456789ABCDEF"

  /** The character is the hexadecimal digit of value `n`, in one case or the other. */
  predicate IsHexDigit(c: char, n: nat) {
    n < 16 && (c == LOWER_DIGITS[n] || c == UPPER_DIGITS[n])
  }

  /** Digits have the values that the digit table gives them, and nothing else is a digit. */
  lemma DigitTable(c: char, n: nat)
    ensures DigitValue(c) == Some(n) <==> IsHexDigit(c, n)
  {
    if n < 10 {
      assert LOWER_DIGITS[n] == UPPER_DIGITS[n] == ('0' as int + n) as char;
    } else if n < 16 {
      assert LOWER_DIGITS[n] == ('a' as int + n - 10) as char && UPPER_DIGITS[n] == ('A' as int + n - 10) as char;
    }
  }

  /** Numbers are printed with the lower-case digits of the table. */
  lemma PrintedDigitTable(n: nat)
    requires n < 16
    ensures Digit(n) == LOWER_DIGITS[n]
  {
    DigitTable(Digit(n), n);
  }

  function ParseDigits(s: string, radix: nat): Option<nat> {
    if s == [] then Some(0)
    else
      var high, low := ParseDigits(s[..|s| - 1], radix), DigitValue(s[|s| - 1]);
      if high.None? || low.None? || low.value >= radix then None else Some(radix * high.value + low.value)
  }

  /** Reads an unsigned integer below `limit`: at least one digit, after an optional plus sign. */
  function ParseUnsigned(s: string, radix: nat, limit: nat): Option<nat> {
    var digits := if s != [] && s[0] == '+' then s[1..] else s;
    if digits == [] then None
    else
      match ParseDigits(digits, radix)
      case None => None
      case Some(n) => if n < limit then Some(n) else None
  }

  function Power(radix: nat, k: nat): nat {
    if k == 0 then 1 else radix * Power(radix, k - 1)
  }

  /** One digit reads as its value, if that is below the radix. */
  lemma OneDigit(c: char, radix: nat, n: nat)
    ensures ParseDigits([c], radix) == Some(n) <==> n < radix && IsHexDigit(c, n)
  {
    DigitTable(c, n);
    assert [c][..0] == [];
    assert ParseDigits([], radix) == Some(0);
  }

  /** Digits have the weight of the digits behind them. */
  lemma {:induction false} DigitsJoin(a: string, b: string, radix: nat)
    ensures ParseDigits(a + b, radix)
            == if ParseDigits(a, radix).None? || ParseDigits(b, radix).None? then None
               else Some(ParseDigits(a, radix).value * Power(radix, |b|) + ParseDigits(b, radix).value)
  {
    if b == [] {
      assert a + b == a;
    } else {
      var front, last := b[..|b| - 1], DigitValue(b[|b| - 1]);
      DigitsJoin(a, front, radix);
      assert (a + b)[..|a + b| - 1] == a + front;
      if ParseDigits(a, radix).Some? && ParseDigits(front, radix).Some? {
        Weighted(ParseDigits(a, radix).value, ParseDigits(front, radix).value, radix, Power(radix, |front|));
      }
    }
  }

  lemma Weighted(a: nat, b: nat, radix: nat, power: nat)
    ensures radix * (a * power + b) == a * (radix * power) + radix * b
  {
  }

  /** A plus sign before a number is passed over, once. */
  lemma PlusSign(s: string, radix: nat, limit: nat)
    requires s == [] || s[0] != '+'
    ensures ParseUnsigned("+" + s, radix, limit) == ParseUnsigned(s, radix, limit)
    ensures ParseUnsigned("++" + s, radix, limit) == None
    ensures ParseUnsigned(s, radix, limit)
            == if s != [] && ParseDigits(s, radix).Some? && ParseDigits(s, radix).value < limit
               then ParseDigits(s, radix) else None
  {
    assert ("+" + s)[1..] == s;
    assert ("++" + s)[1..] == "+" + s;
    DigitsJoin("+", s, radix);
    assert ParseDigits("+", radix) == None by {
      if ParseDigits("+", radix).Some? {
        OneDigit('+', radix, ParseDigits("+", radix).value);
      }
    }
  }

  /** The decimal digits of `n`, without leading zeros. */
  function PrintDecimal(n: nat): (s: string)
    ensures s != [] && AllDigits(s)
  {
    if n < 10 then [Digit(n)] else PrintDecimal(n / 10) + [Digit(n % 10)]
  }

  /** The `width` low-order hexadecimal digits of `n`. */
  function PrintPadded(n: nat, width: nat): (s: string)
    ensures |s| == width && AllDigits(s)
  {
    if width == 0 then [] else PrintPadded(n / 16, width - 1) + [Digit(n % 16)]
  }

  lemma {:induction false} PrintDecimalRead(n: nat)
    ensures ParseDigits(PrintDecimal(n), 10) == Some(n)
  {
    var s := PrintDecimal(n);
    if n < 10 {
      assert s[..0] == [];
      assert ParseDigits([], 10) == Some(0);
    } else {
      PrintDecimalRead(n / 10);
      assert s[..|s| - 1] == PrintDecimal(n / 10);
      assert n == 10 * (n / 10) + n % 10;
    }
  }

  /** Only zero is printed with a zero in front. */
  lemma {:induction false} NoLeadingZero(n: nat)
    ensures PrintDecimal(n)[0] == '0' <==> n == 0
    ensures PrintDecimal(0) == "0"
    decreases n
  {
    if n >= 10 {
      NoLeadingZero(n / 10);
    } else {
      PrintedDigitTable(n);
    }
  }

  /** Reading a printed number gives it back. */
  lemma DecimalRoundTrip(n: nat, limit: nat)
    requires n < limit
    ensures ParseUnsigned(PrintDecimal(n), 10, limit) == Some(n)
  {
    PrintDecimalRead(n);
    assert IsDigit(PrintDecimal(n)[0]);
  }

  function Pow16(width: nat): nat {
    if width == 0 then 1 else 16 * Pow16(width - 1)
  }

  lemma {:induction false} PrintPaddedRead(n: nat, width: nat)
    requires n < Pow16(width)
    ensures ParseDigits(PrintPadded(n, width), 16) == Some(n)
  {
    if width > 0 {
      var s := PrintPadded(n, width);
      PrintPaddedRead(n / 16, width - 1);
      assert s[..|s| - 1] == PrintPadded(n / 16, width - 1);
    }
  }

  lemma Pow16Values()
    ensures Pow16(8) == U32_COUNT
  {
    assert Pow16(1) == 16 && Pow16(2) == 256 && Pow16(3) == 4096 && Pow16(4) == 0x1_0000;
    assert Pow16(5) == 0x10_0000 && Pow16(6) == 0x100_0000 && Pow16(7) == 0x1000_0000;
  }

  /** Eight printed hexadecimal digits read back as the same number. */
  lemma PaddedRoundTrip(n: nat)
    requires n < U32_COUNT
    ensures ParseUnsigned(PrintPadded(n, 8), 16, U32_COUNT) == Some(n)
  {
    Pow16Values();
    PrintPaddedRead(n, 8);
    assert IsDigit(PrintPadded(n, 8)[0]);
  }

  // ----- hexadecimal bytes -----

  function HexEncode(bytes: seq<byte>): (s: string)
    ensures AllDigits(s)
  {
    if bytes == [] then [] else [Digit(bytes[0] / 16), Digit(bytes[0] % 16)] + HexEncode(bytes[1..])
  }

  function HexDecode(s: string): Option<seq<byte>> {
    if s == [] then Some([])
    else if |s| == 1 then None
    else
      var high, low, rest := DigitValue(s[0]), DigitValue(s[1]), HexDecode(s[2..]);
      if high.None? || low.None? || rest.None? then None else Some([16 * high.value + low.value] + rest.value)
  }

  /** Two digits are a byte, the first one its high half. */
  lemma HexPair(c: char, d: char, b: byte)
    ensures HexDecode([c, d]) == Some([b]) <==> IsHexDigit(c, b / 16) && IsHexDigit(d, b % 16)
  {
    DigitTable(c, b / 16);
    DigitTable(d, b % 16);
    TwoDigits(c, d);
    if DigitValue(c).Some? && DigitValue(d).Some? {
      var n := 16 * DigitValue(c).value + DigitValue(d).value;
      assert n / 16 == DigitValue(c).value && n % 16 == DigitValue(d).value;
      assert [n] == [b] <==> n == b;
    }
  }

  lemma TwoDigits(c: char, d: char)
    ensures HexDecode([c, d])
            == if DigitValue(c).None? || DigitValue(d).None? then None
               else Some([16 * DigitValue(c).value + DigitValue(d).value])
  {
    assert [c, d][2..] == [] && HexDecode([]) == Some([]);
    if DigitValue(c).Some? && DigitValue(d).Some? {
      var n := 16 * DigitValue(c).value + DigitValue(d).value;
      assert [n] + [] == [n];
    }
  }

  /** Pairs of digits are decoded one after the other. */
  lemma {:induction false} HexJoin(a: string, b: string)
    requires |a| % 2 == 0
    ensures HexDecode(a + b)
            == if HexDecode(a).None? || HexDecode(b).None? then None else Some(HexDecode(a).value + HexDecode(b).value)
    decreases |a|
  {
    if a == [] {
      assert a + b == b;
      if HexDecode(b).Some? {
        assert [] + HexDecode(b).value == HexDecode(b).value;
      }
    } else {
      assert (a + b)[0] == a[0] && (a + b)[1] == a[1] && (a + b)[2..] == a[2..] + b;
      HexJoin(a[2..], b);
      var high, low := DigitValue(a[0]), DigitValue(a[1]);
      if high.Some? && low.Some? && HexDecode(a[2..]).Some? && HexDecode(b).Some? {
        var first, rest, last := [16 * high.value + low.value], HexDecode(a[2..]).value, HexDecode(b).value;
        assert first + (rest + last) == first + rest + last;
      }
    }
  }

  lemma {:induction false} HexRoundTrip(bytes: seq<byte>)
    ensures HexDecode(HexEncode(bytes)) == Some(bytes)
  {
    if bytes != [] {
      var high, low := bytes[0] / 16, bytes[0] % 16;
      HexRoundTrip(bytes[1..]);
      DigitTable(Digit(high), high);
      DigitTable(Digit(low), low);
      HexPair(Digit(high), Digit(low), bytes[0]);
      HexJoin([Digit(high), Digit(low)], HexEncode(bytes[1..]));
      assert bytes == [bytes[0]] + bytes[1..];
    }
  }

  // ----- delimited lists -----

  /** The pieces between occurrences of `c`; there is always at least one. */
  function Split(s: string, c: char): (r: seq<string>)
    ensures r != []
  {
    if s == [] then [[]]
    else
      var rest := Split(s[1..], c);
      if s[0] == c then [[]] + rest else [[s[0]] + rest[0]] + rest[1..]
  }

  function Join(pieces: seq<string>, c: char): string {
    if pieces == [] then []
    else if |pieces| == 1 then pieces[0]
    else pieces[0] + [c] + Join(pieces[1..], c)
  }

  lemma {:induction false} SplitNone(s: string, c: char)
    requires c !in s
    ensures Split(s, c) == [s]
  {
    if s != [] {
      SplitNone(s[1..], c);
      assert s == [s[0]] + s[1..];
    }
  }

  lemma {:induction false} SplitPrefix(a: string, b: string, c: char)
    requires c !in a
    ensures Split(a + [c] + b, c) == [a] + Split(b, c)
  {
    var s := a + [c] + b;
    if a == [] {
      assert s[1..] == b;
    } else {
      SplitPrefix(a[1..], b, c);
      assert s[1..] == a[1..] + [c] + b;
      assert [a[0]] + a[1..] == a;
    }
  }

  /** Splitting a joined list gives the list, if no piece holds the delimiter. */
  lemma {:induction false} SplitJoin(pieces: seq<string>, c: char)
    requires pieces != [] && forall p <- pieces :: c !in p
    ensures Split(Join(pieces, c), c) == pieces
  {
    if |pieces| == 1 {
      SplitNone(pieces[0], c);
    } else {
      SplitPrefix(pieces[0], Join(pieces[1..], c), c);
      SplitJoin(pieces[1..], c);
    }
  }

  /** The text before and after the first `c`. */
  function SplitOnce(s: string, c: char): (r: Option<(string, string)>)
    ensures r.None? <==> c !in s
    ensures r.Some? ==> s == r.value.0 + [c] + r.value.1 && c !in r.value.0
  {
    if s == [] then None
    else if s[0] == c then Some(([], s[1..]))
    else
      match SplitOnce(s[1..], c)
      case None => None
      case Some(p) => Some(([s[0]] + p.0, p.1))
  }

  /** The text before and after the last `c`. */
  function RSplitOnce(s: string, c: char): (r: Option<(string, string)>)
    ensures r.None? <==> c !in s
    ensures r.Some? ==> s == r.value.0 + [c] + r.value.1 && c !in r.value.1
  {
    if s == [] then None
    else
      var n := |s| - 1;
      if s[n] == c then Some((s[..n], []))
      else
        match RSplitOnce(s[..n], c)
        case None => None
        case Some(p) => Some((p.0, p.1 + [s[n]]))
  }

  lemma {:induction false} SplitOnceAt(a: string, b: string, c: char)
    requires c !in a
    ensures SplitOnce(a + [c] + b, c) == Some((a, b))
  {
    var s := a + [c] + b;
    if a == [] {
      assert s[1..] == b;
    } else {
      SplitOnceAt(a[1..], b, c);
      assert s[1..] == a[1..] + [c] + b && [a[0]] + a[1..] == a;
    }
  }

  lemma {:induction false} RSplitOnceAt(a: string, b: string, c: char)
    requires c !in b
    ensures RSplitOnce(a + [c] + b, c) == Some((a, b))
  {
    var s, n := a + [c] + b, |b| - 1;
    if b == [] {
      assert s[..|s| - 1] == a;
    } else {
      RSplitOnceAt(a, b[..n], c);
      assert s[..|s| - 1] == a + [c] + b[..n] && b[..n] + [b[n]] == b;
    }
  }
}
