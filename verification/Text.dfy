// ASCII text: words, numerals and hexadecimal bytes, as the standard library
// reads them, and the printers that write them.
module Text {
  import opened Model
  import opened Bytes

  // ---- words ----

  predicate Space(c: char): (b: bool)
    ensures b <==> c as int in {9, 10, 11, 12, 13, 32}
  {
    c == ' ' || '\t' <= c <= '\r'
  }

  predicate Blank(s: string) {
    forall i :: 0 <= i < |s| ==> Space(s[i])
  }

  predicate Solid(s: string) {
    forall i :: 0 <= i < |s| ==> !Space(s[i])
  }

  predicate Word(s: string) {
    s != "" && Solid(s)
  }

  // The length of the word that s starts with.
  function WordLength(s: string): (n: nat)
    ensures n <= |s| && Solid(s[..n]) && (n < |s| ==> Space(s[n]))
  {
    if s == "" || Space(s[0]) then 0 else
      assert forall i :: 0 < i < 1 + WordLength(s[1..]) ==> s[i] == s[1..][i - 1];
      1 + WordLength(s[1..])
  }

  // The words of s, whatever spaces separate them.
  function Fields(s: string): seq<string>
    decreases |s|
  {
    if s == "" then []
    else if Space(s[0]) then Fields(s[1..])
    else [s[..WordLength(s)]] + Fields(s[WordLength(s)..])
  }

  // Words laid out with a gap before each and an end after the last.
  function Layout(gaps: seq<string>, words: seq<string>, end: string): string
    requires |gaps| == |words|
  {
    if words == [] then end else gaps[0] + words[0] + Layout(gaps[1..], words[1..], end)
  }

  // Only the first gap may be empty.
  predicate Spaced(gaps: seq<string>, words: seq<string>, end: string) {
    && |gaps| == |words| && Blank(end)
    && (forall i :: 0 <= i < |words| ==> Word(words[i]) && Blank(gaps[i]))
    && (forall i :: 0 < i < |words| ==> gaps[i] != "")
  }

  lemma {:induction false} FieldsSkipBlank(gap: string, s: string)
    requires Blank(gap)
    ensures Fields(gap + s) == Fields(s)
  {
    if gap == "" {
      assert gap + s == s;
    } else {
      FieldsSkipBlank(gap[1..], s);
      assert (gap + s)[1..] == gap[1..] + s;
    }
  }

  lemma FieldsTakeWord(word: string, s: string)
    requires Word(word) && (s == "" || Space(s[0]))
    ensures Fields(word + s) == [word] + Fields(s)
  {
    assert (word + s)[..|word|] == word && (word + s)[|word|..] == s;
  }

  // Reading the words back.
  lemma {:induction false} FieldsInvertLayout(gaps: seq<string>, words: seq<string>, end: string)
    requires Spaced(gaps, words, end)
    ensures Fields(Layout(gaps, words, end)) == words
    decreases |words|
  {
    if words == [] {
      FieldsSkipBlank(end, "");
      assert end + "" == end;
    } else {
      var rest := Layout(gaps[1..], words[1..], end);
      FieldsInvertLayout(gaps[1..], words[1..], end);
      assert rest == "" || Space(rest[0]) by {
        if |words| > 1 {
          assert rest[0] == gaps[1..][0][0];
        }
      }
      FieldsTakeWord(words[0], rest);
      FieldsSkipBlank(gaps[0], words[0] + rest);
      assert gaps[0] + words[0] + rest == gaps[0] + (words[0] + rest);
    }
  }

  function IndexByte(s: string, c: char): (r: int)
    ensures -1 <= r < |s|
    ensures r >= 0 ==> s[r] == c && c !in s[..r]
    ensures r < 0 ==> c !in s
  {
    if s == "" then -1
    else if s[0] == c then 0
    else
      var r := IndexByte(s[1..], c);
      assert s == [s[0]] + s[1..];
      if r < 0 then -1 else
        assert s[..r + 1] == [s[0]] + s[1..][..r];
        r + 1
  }

  // ---- numerals ----

  const NO_DIGIT: nat := 36

  // The value of a digit, in either case.
  function Digit(c: char): nat {
    if '0' <= c <= '9' then c as int - '0' as int
    else if 'a' <= c <= 'z' then c as int - 'a' as int + 10
    else if 'A' <= c <= 'Z' then c as int - 'A' as int + 10
    else NO_DIGIT
  }

  predicate Numeral(s: string, base: nat) {
    s != "" && forall i :: 0 <= i < |s| ==> Digit(s[i]) < base
  }

  function Value(s: string, base: nat): nat {
    if s == "" then 0 else Value(s[..|s| - 1], base) * base + Digit(s[|s| - 1])
  }

  // None for an empty string, a foreign digit, or a value that does not fit.
  function ParseUint(s: string, base: nat, limit: nat): Option<nat> {
    if Numeral(s, base) && Value(s, base) < limit then Some(Value(s, base)) else None
  }

  // None for a foreign digit or half a byte.
  function HexDecode(s: string): (r: Option<seq<byte>>)
    ensures r.Some? ==> 2 * |r.value| == |s|
  {
    if s == "" then Some([])
    else if |s| == 1 || Digit(s[0]) >= 16 || Digit(s[1]) >= 16 then None
    else
      match HexDecode(s[2..])
      case None => None
      case Some(rest) => Some([16 * Digit(s[0]) + Digit(s[1])] + rest)
  }

  // The digits of hexadecimal numbers, in either case.
  predicate HexChar(c: char) {
    '0' <= c <= '9' || 'a' <= c <= 'f' || 'A' <= c <= 'F'
  }

  lemma DigitsOfBases(c: char)
    ensures Digit(c) < 16 <==> HexChar(c)
    ensures Digit(c) < 10 <==> '0' <= c <= '9'
  {
  }

  // The case of a letter does not matter.
  lemma CaseDoesNotMatter(d: nat)
    requires d < 6
    ensures Digit('a' + d as char) == Digit('A' + d as char) == 10 + d
  {
  }

  lemma {:induction false} HexDecodesIff(s: string)
    ensures HexDecode(s).Some? <==> |s| % 2 == 0 && forall i :: 0 <= i < |s| ==> HexChar(s[i])
    decreases |s|
  {
    if |s| > 1 {
      HexDecodesIff(s[2..]);
      assert s == [s[0], s[1]] + s[2..];
    }
  }

  // ---- printers ----

  function DigitChar(d: nat): (c: char)
    requires d < 16
    ensures Digit(c) == d && !Space(c) && c != ':'
  {
    if d < 10 then '0' + d as char else 'A' + (d - 10) as char
  }

  // What width hexadecimal digits can hold.
  function Room(width: nat): nat {
    if width == 0 then 1 else 16 * Room(width - 1)
  }

  // Zero-padded upper-case hexadecimal.
  function Hex(n: nat, width: nat): (s: string)
    ensures |s| == width
  {
    if width == 0 then "" else Hex(n / 16, width - 1) + [DigitChar(n % 16)]
  }

  function Decimal(n: nat): (s: string)
    ensures Word(s) && Numeral(s, 10)
  {
    if n < 10 then [DigitChar(n)] else Decimal(n / 10) + [DigitChar(n % 10)]
  }

  predicate Plain(s: string) {
    forall i :: 0 <= i < |s| ==> Digit(s[i]) < 16 && s[i] != ':' && !Space(s[i])
  }

  lemma {:induction false} HexIsPlain(n: nat, width: nat)
    ensures Plain(Hex(n, width))
  {
    if width > 0 {
      HexIsPlain(n / 16, width - 1);
      var t, c := Hex(n / 16, width - 1), DigitChar(n % 16);
      assert Hex(n, width) == t + [c];
    }
  }

  lemma {:induction false} HexValue(n: nat, width: nat)
    requires n < Room(width)
    ensures Value(Hex(n, width), 16) == n
  {
    if width > 0 {
      HexValue(n / 16, width - 1);
      var s := Hex(n, width);
      assert s[..|s| - 1] == Hex(n / 16, width - 1);
    }
  }

  lemma {:induction false} ParseInvertsHex(n: nat, width: nat, limit: nat)
    requires n < Room(width) && n < limit && width > 0
    ensures ParseUint(Hex(n, width), 16, limit) == Some(n)
  {
    HexValue(n, width);
    HexIsPlain(n, width);
  }

  lemma {:induction false} DecimalValue(n: nat)
    ensures Value(Decimal(n), 10) == n
  {
    var s := Decimal(n);
    if n < 10 {
      assert s[..|s| - 1] == "";
    } else {
      DecimalValue(n / 10);
      assert s[..|s| - 1] == Decimal(n / 10);
    }
  }

  lemma {:induction false} ParseInvertsDecimal(n: nat, limit: nat)
    requires n < limit
    ensures ParseUint(Decimal(n), 10, limit) == Some(n)
  {
    DecimalValue(n);
  }

  lemma {:induction false} HexDecodeAppend(s: string, t: string)
    requires HexDecode(s).Some?
    ensures HexDecode(s + t) == match HexDecode(t) case None => None case Some(b) => Some(HexDecode(s).value + b)
    decreases |s|
  {
    if s == "" {
      assert s + t == t;
      assert HexDecode(t).Some? ==> HexDecode(s).value + HexDecode(t).value == HexDecode(t).value;
    } else {
      HexDecodeAppend(s[2..], t);
      assert (s + t)[2..] == s[2..] + t;
      assert (s + t)[0] == s[0] && (s + t)[1] == s[1];
      if HexDecode(t).Some? {
        var b, first := HexDecode(t).value, [16 * Digit(s[0]) + Digit(s[1])];
        assert first + HexDecode(s[2..]).value + b == first + (HexDecode(s[2..]).value + b);
      }
    }
  }

  lemma HexOfByte(b: byte)
    ensures Hex(b, 2) == [DigitChar(b / 16), DigitChar(b % 16)]
  {
    assert Hex(b / 16, 1) == Hex(b / 16 / 16, 0) + [DigitChar(b / 16 % 16)];
    assert b / 16 % 16 == b / 16;
  }

  lemma HexDecodeByte(b: byte)
    ensures HexDecode(Hex(b, 2)) == Some([b])
  {
    HexOfByte(b);
    var s := [DigitChar(b / 16), DigitChar(b % 16)];
    assert HexDecode(s[2..]) == Some([]);
    assert HexDecode(s).value == [b];
  }

  lemma HexSplit(n: nat, b: byte, width: nat)
    ensures Hex(0x100 * n + b, width + 2) == Hex(n, width) + Hex(b, 2)
  {
    var m := 0x100 * n + b;
    assert m / 16 / 16 == n && m / 16 % 16 == b / 16 && m % 16 == b % 16;
    HexOfByte(b);
    assert Hex(m / 16, width + 1) == Hex(m / 16 / 16, width) + [DigitChar(m / 16 % 16)];
  }

  function BigEndian(bytes: seq<byte>): nat {
    if bytes == [] then 0 else 0x100 * BigEndian(bytes[..|bytes| - 1]) + bytes[|bytes| - 1]
  }

  lemma HexDecodeNext(n: nat, width: nat, init: seq<byte>, last: byte)
    requires HexDecode(Hex(n, width)) == Some(init)
    ensures HexDecode(Hex(0x100 * n + last, width + 2)) == Some(init + [last])
  {
    HexSplit(n, last, width);
    HexDecodeByte(last);
    HexDecodeAppend(Hex(n, width), Hex(last, 2));
  }

  lemma {:induction false} HexDecodeBytes(bytes: seq<byte>)
    ensures HexDecode(Hex(BigEndian(bytes), 2 * |bytes|)) == Some(bytes)
  {
    if bytes != [] {
      var init, last := bytes[..|bytes| - 1], bytes[|bytes| - 1];
      HexDecodeBytes(init);
      HexDecodeNext(BigEndian(init), 2 * |init|, init, last);
      assert bytes == init + [last];
    }
  }

  lemma BigEndianOfFour(a: byte, b: byte, c: byte, d: byte)
    ensures BigEndian([a, b, c, d]) == 0x100_0000 * a as int + 0x1_0000 * b as int + 0x100 * c as int + d as int
  {
    assert [a, b, c, d][..3] == [a, b, c] && [a, b, c][..2] == [a, b] && [a, b][..1] == [a];
    assert BigEndian([a, b]) == 0x100 * BigEndian([a]) + b;
  }

  // A little-endian word printed as one number comes out byte-reversed.
  lemma HexDecodeWord(g: seq<byte>)
    requires |g| == 4
    ensures HexDecode(Hex(LE32(g), 8)) == Some([g[3], g[2], g[1], g[0]])
  {
    BigEndianOfFour(g[3], g[2], g[1], g[0]);
    HexDecodeBytes([g[3], g[2], g[1], g[0]]);
  }
}
