/**
 * Go's `%q` on a string (strconv.Quote), byte for byte, and what a JSON reader makes of it.
 */
module GoQuote {
  import opened Json
  import opened Options
  import opened Runes
  import opened Text

  // ---- Quoting ----------------------------------------------------------------------------

  /** strconv.IsPrint beyond ASCII: a fixed table, left unspecified here. */
  const PRINTABLE: nat -> bool

  function HexDigit(d: nat): char
    requires d < 16
  {
    if d < 10 then '0' + d as char else 'a' + (d - 10) as char
  }

  function HexText(n: nat, digits: nat): (text: string)
    ensures |text| == digits
    ensures forall k :: 0 <= k < digits ==> IsHex(text[k])
  {
    if digits == 0 then "" else HexText(n / 16, digits - 1) + [HexDigit(n % 16)]
  }

  /** A single byte; from 0x80 on it is ill-formed UTF-8. */
  function QuoteByte(c: char): string {
    if c == '"' || c == '\\' then ['\\', c]
    else if c == '\U{7}' then "\\a"
    else if c == '\U{8}' then "\\b"
    else if c == '\U{C}' then "\\f"
    else if c == '\n' then "\\n"
    else if c == '\r' then "\\r"
    else if c == '\t' then "\\t"
    else if c == '\U{B}' then "\\v"
    else if c < ' ' || c >= '\U{7F}' then "\\x" + HexText(c as int, 2)
    else [c]
  }

  function QuoteRune(rune: string): string
    requires IsRune(rune)
  {
    if PRINTABLE(Code(rune)) then rune
    else if Code(rune) < 0x10000 then "\\u" + HexText(Code(rune), 4)
    else "\\U" + HexText(Code(rune), 8)
  }

  function QuoteHead(text: string): string
    requires text != ""
  {
    if Width(text) == 1 then QuoteByte(text[0]) else QuoteRune(text[..Width(text)])
  }

  function QuoteBody(text: string): string
    decreases text
  {
    if text == "" then "" else QuoteHead(text) + QuoteBody(text[Width(text)..])
  }

  // ---- Which texts a JSON reader gets back ---------------------------------------------------

  /** Section 7 of RFC 8259 knows no \a, \v and \x, and no \U. */
  predicate SafeHead(text: string)
    requires text != ""
  {
    var n := Width(text);
    if n == 1 then text[0] < '\U{7F}' && (text[0] < ' ' ==> text[0] in "\U{8}\U{C}\n\r\t")
    else PRINTABLE(Code(text[..n])) || Code(text[..n]) < 0x10000
  }

  /**
   * Well-formed UTF-8 without U+007F, without control characters other than \b \f \n \r \t, and
   * without unprintable characters above U+FFFF.
   */
  predicate SafeText(text: string)
    decreases text
  {
    text != "" ==> SafeHead(text) && SafeText(text[Width(text)..])
  }

  lemma HexDigitValue(d: nat)
    requires d < 16
    ensures IsHex(HexDigit(d)) && HexValue(HexDigit(d)) == d
  {}

  /** The four digits from the right: the remainders of n and of its quotients. */
  lemma FourDigits(n: nat, a: nat, b: nat, c: nat)
    requires a == n / 16 && b == a / 16 && c == b / 16
    ensures HexText(n, 4) == [HexDigit(c % 16), HexDigit(b % 16), HexDigit(a % 16), HexDigit(n % 16)]
  {
    assert HexText(c, 1) == [HexDigit(c % 16)];
    assert HexText(b, 2) == HexText(c, 1) + [HexDigit(b % 16)];
    assert HexText(a, 3) == HexText(b, 2) + [HexDigit(a % 16)];
  }

  lemma HexTextValue(n: nat)
    requires n < 0x10000
    ensures Hex4(HexText(n, 4)) == n
  {
    hide HexDigit, HexValue, HexText;
    var a := n / 16;
    var b := a / 16;
    var c := b / 16;
    FourDigits(n, a, b, c);
    HexDigitValue(c);
    HexDigitValue(b % 16);
    HexDigitValue(a % 16);
    HexDigitValue(n % 16);
  }

  lemma Decoded4(a: int, b: int, d: int, e: int)
    requires 0xF0 <= a < 0xF8 && 0x80 <= b < 0xC0 && 0x80 <= d < 0xC0 && 0x80 <= e < 0xC0
    ensures var c := (((a - 0xF0) * 0x40 + (b - 0x80)) * 0x40 + (d - 0x80)) * 0x40 + (e - 0x80);
            0 <= c && 0xF0 + c / 0x40000 == a && 0x80 + c / 4096 % 64 == b && 0x80 + c / 64 % 64 == d && 0x80 + c % 64 == e
  {
    var x := (a - 0xF0) * 0x40 + (b - 0x80);
    var y := x * 0x40 + (d - 0x80);
    var c := y * 0x40 + (e - 0x80);
    assert c / 64 == y && y / 64 == x && x / 64 == a - 0xF0;
    assert c / 4096 == x && c / 0x40000 == a - 0xF0;
  }

  lemma Decoded2(a: int, b: int)
    requires 0xC2 <= a < 0xE0 && 0x80 <= b < 0xC0
    ensures var c := (a - 0xC0) * 0x40 + (b - 0x80); 0x80 <= c < 0x800 && 0xC0 + c / 64 == a && 0x80 + c % 64 == b
  {}

  lemma Decoded3(a: int, b: int, d: int)
    requires 0xE0 <= a < 0xF0 && 0x80 <= b < 0xC0 && 0x80 <= d < 0xC0
    ensures var c := ((a - 0xE0) * 0x40 + (b - 0x80)) * 0x40 + (d - 0x80);
            0 <= c < 0x10000 && 0xE0 + c / 4096 == a && 0x80 + c / 64 % 64 == b && 0x80 + c % 64 == d
  {
    var c := ((a - 0xE0) * 0x40 + (b - 0x80)) * 0x40 + (d - 0x80);
    assert c / 64 == (a - 0xE0) * 0x40 + (b - 0x80);
  }

  lemma CodeRoundTrip4(rune: string)
    requires IsRune(rune) && |rune| == 4
    ensures 0 <= Code(rune) < 0x110000 && Utf8(Code(rune)) == rune
  {
    Decoded4(rune[0] as int, rune[1] as int, rune[2] as int, rune[3] as int);
  }

  lemma CodeRoundTrip3(rune: string)
    requires IsRune(rune) && |rune| == 3
    ensures 0 <= Code(rune) < 0x10000 && Utf8(Code(rune)) == rune
  {
    Decoded3(rune[0] as int, rune[1] as int, rune[2] as int);
  }

  lemma CodeRoundTrip2(rune: string)
    requires IsRune(rune) && |rune| == 2
    ensures 0 <= Code(rune) < 0x800 && Utf8(Code(rune)) == rune
  {
    Decoded2(rune[0] as int, rune[1] as int);
  }

  /** The code point of a UTF-8 sequence, encoded again, is the sequence. */
  lemma CodeRoundTrip(rune: string)
    requires IsRune(rune)
    ensures 0 <= Code(rune) < 0x110000 && Utf8(Code(rune)) == rune
  {
    hide Code, Utf8;
    if |rune| == 2 {
      CodeRoundTrip2(rune);
    } else if |rune| == 3 {
      CodeRoundTrip3(rune);
    } else {
      CodeRoundTrip4(rune);
    }
  }

  /** Every code point beyond ASCII that is no surrogate has a UTF-8 sequence, which spells it. */
  lemma EncodedIsRune(code: nat)
    requires 0x80 <= code < 0x110000 && !(0xD800 <= code < 0xE000)
    ensures IsRune(Utf8(code)) && Code(Utf8(code)) == code
  {
    var rune := Utf8(code);
    if code < 0x800 {
      assert rune[0] as int == 0xC0 + code / 64;
    } else if code < 0x10000 {
      assert rune[0] as int == 0xE0 + code / 4096;
      Digits64(code);
    } else {
      assert rune[0] as int == 0xF0 + code / 0x40000;
      Digits64(code);
      Digits64(code / 64);
    }
  }

  lemma Digits64(n: nat)
    ensures n / 4096 == n / 64 / 64 && n == (n / 4096 * 64 + n / 64 % 64) * 64 + n % 64
    ensures n / 0x40000 == n / 64 / 4096 && n / 4096 % 64 == n / 64 / 64 % 64
  {}

  /** U+FFFD is what a reader puts for ill-formed bytes. */
  lemma ReplacementIsFffd()
    ensures IsRune(REPLACEMENT) && Code(REPLACEMENT) == 0xFFFD
  {}

  lemma ShortEscape(s: string, i: nat)
    requires i + 1 < |s| && s[i] == '\\' && s[i + 1] != 'u'
    ensures EscapeAt(s, i) == if SimpleEscape(s[i + 1]).Some? then Some(Piece([SimpleEscape(s[i + 1]).value], 2)) else None
  {}

  lemma QuotedByte(s: string, i: nat, text: string)
    requires text != "" && Width(text) == 1 && At(s, i, QuoteByte(text[0]))
    ensures s[i] != '"'
    ensures PieceAt(s, i) == if SafeHead(text) then Some(Piece(text[..1], |QuoteByte(text[0])|)) else None
  {
    hide HexText, IsRune;
    var q := QuoteByte(text[0]);
    AtIndex(s, i, q, 0);
    if |q| > 1 {
      AtIndex(s, i, q, 1);
      ShortEscape(s, i);
      hide EscapeAt;
    }
    assert text[..1] == [text[0]];
  }

  /** Four hexadecimal digits after a backslash and a u. */
  lemma StandingEscape(s: string, i: nat, h: string)
    requires |h| == 4 && (forall k :: 0 <= k < 4 ==> IsHex(h[k])) && At(s, i, "\\u" + h)
    ensures IsHexEscape(s, i) && HexEscape(s, i) == Hex4(h)
  {
    AtSlice(s, i, "\\u" + h);
    var q := s[i..i + 6];
    assert s[i] == q[0] && s[i + 1] == q[1];
    assert s[i + 2..i + 6] == q[2..] == h;
    forall k | i + 2 <= k < i + 6 ensures IsHex(s[k]) {
      assert s[k] == s[i + 2..i + 6][k - i - 2];
    }
  }

  /** A surrogate pair of escapes is read as the one character it stands for. */
  lemma PairReadsAsOne(s: string, i: nat, code: nat)
    requires 0x10000 <= code < 0x110000
    requires var high, low := 0xD800 + (code - 0x10000) / 0x400, 0xDC00 + (code - 0x10000) % 0x400;
             At(s, i, ("\\u" + HexText(high, 4)) + ("\\u" + HexText(low, 4)))
    ensures s[i] != '"' && PieceAt(s, i) == Some(Piece(Utf8(code), 12))
  {
    hide Utf8, HexText, Hex4, IsHexEscape;
    var high, low := 0xD800 + (code - 0x10000) / 0x400, 0xDC00 + (code - 0x10000) % 0x400;
    AtSplit(s, i, "\\u" + HexText(high, 4), "\\u" + HexText(low, 4));
    StandingEscape(s, i, HexText(high, 4));
    StandingEscape(s, i + 6, HexText(low, 4));
    HexTextValue(high);
    HexTextValue(low);
  }

  /** The control characters that JSON does not know are quoted as Go quotes them. */
  lemma UnsafeControls()
    ensures QuoteByte('\U{7}') == "\\a" && QuoteByte('\U{B}') == "\\v"
    ensures QuoteByte('\U{1F}') == "\\x1f" && QuoteByte('\U{7F}') == "\\x7f" && QuoteByte('\U{FF}') == "\\xff"
  {
    assert HexText(1, 1) == "1" && HexText(7, 1) == "7" && HexText(15, 1) == "f";
  }

  lemma QuotedEscape(s: string, i: nat, code: nat)
    requires code < 0x10000 && !(0xD800 <= code < 0xE000) && At(s, i, "\\u" + HexText(code, 4))
    ensures s[i] != '"' && PieceAt(s, i) == Some(Piece(Utf8(code), 6))
  {
    StandingEscape(s, i, HexText(code, 4));
    HexTextValue(code);
  }

  lemma QuotedRune(s: string, i: nat, rune: string)
    requires IsRune(rune) && At(s, i, QuoteRune(rune))
    ensures i < |s| && s[i] != '"'
    ensures PieceAt(s, i) ==
            if PRINTABLE(Code(rune)) || Code(rune) < 0x10000 then Some(Piece(rune, |QuoteRune(rune)|)) else None
  {
    hide HexText, EscapeAt, Utf8;
    var q := QuoteRune(rune);
    if PRINTABLE(Code(rune)) {
      AtSlice(s, i, rune);
      WidthOfRune(s, i, |rune|);
      assert s[i] == s[i..i + |rune|][0];
    } else if Code(rune) < 0x10000 {
      CodeRoundTrip(rune);
      QuotedEscape(s, i, Code(rune));
    } else {
      AtIndex(s, i, q, 0);
      AtIndex(s, i, q, 1);
      ShortEscape(s, i);
    }
  }

  /** A character beyond ASCII is quoted as itself exactly when it is printable, and otherwise in ASCII. */
  lemma QuotedAsIs(rune: string)
    requires IsRune(rune)
    ensures QuoteRune(rune) == rune <==> PRINTABLE(Code(rune))
    ensures !PRINTABLE(Code(rune)) ==> forall k :: 0 <= k < |QuoteRune(rune)| ==> QuoteRune(rune)[k] as int < 0x80
  {
    if !PRINTABLE(Code(rune)) {
      assert QuoteRune(rune)[0] == '\\' && rune[0] != '\\';
    }
  }

  lemma QuotedHead(s: string, i: nat, text: string)
    requires text != "" && At(s, i, QuoteHead(text))
    ensures ParseString(s, i) ==
            if SafeHead(text) then Prepend(text[..Width(text)], ParseString(s, i + |QuoteHead(text)|)) else Bad
  {
    hide PieceAt, QuoteByte, QuoteRune;
    if Width(text) == 1 {
      QuotedByte(s, i, text);
    } else {
      QuotedRune(s, i, text[..Width(text)]);
    }
  }

  /** The parts of a quoted text, and the recursion of its safety, at its first character. */
  lemma QuotedParts(s: string, i: nat, text: string) returns (n: nat, q: string, body: string)
    requires text != "" && At(s, i, QuoteBody(text) + "\"")
    ensures n == Width(text) && q == QuoteHead(text) && body == QuoteBody(text[n..])
    ensures At(s, i, q) && At(s, i + |q|, body + "\"") && |QuoteBody(text)| == |q| + |body|
    ensures SafeText(text) == (SafeHead(text) && SafeText(text[n..]))
  {
    n, q, body := Width(text), QuoteHead(text), QuoteBody(text[Width(text)..]);
    assert QuoteBody(text) + "\"" == q + (body + "\"");
    AtSplit(s, i, q, body + "\"");
  }

  /** A `%q` string parses exactly when its text is safe, and then to the original text. */
  lemma {:induction false} QuotedString(s: string, i: nat, text: string)
    requires At(s, i, QuoteBody(text) + "\"")
    ensures ParseString(s, i) == if SafeText(text) then Good(text, i + |QuoteBody(text)| + 1) else Bad
    decreases text
  {
    hide ParseString, QuoteBody, SafeText;
    if text == "" {
      EmptyString(s, i);
    } else {
      var n, q, body := QuotedParts(s, i, text);
      QuotedHead(s, i, text);
      QuotedString(s, i + |q|, text[n..]);
      PrependHead(text, n, i + |q| + |body| + 1);
    }
  }

  lemma EmptyString(s: string, i: nat)
    requires At(s, i, QuoteBody("") + "\"")
    ensures ParseString(s, i) == Good("", i + 1) && QuoteBody("") == "" && SafeText("")
  {
    assert QuoteBody("") + "\"" == "\"";
    AtIndex(s, i, "\"", 0);
  }

  lemma PrependHead(text: string, n: nat, next: nat)
    requires n <= |text|
    ensures Prepend(text[..n], Good(text[n..], next)) == Good(text, next)
  {
    assert text[..n] + text[n..] == text;
  }
}
