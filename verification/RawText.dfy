/** Bytes put between quotes as they are, and what a JSON reader makes of them. */
module RawText {
  import opened Json
  import opened Options
  import opened Runes

  /** Neither ends the string nor starts an escape, and is no control character. */
  predicate RawChar(c: char) {
    c >= ' ' && c != '"' && c != '\\'
  }

  predicate Plain(text: string) {
    forall k :: 0 <= k < |text| ==> RawChar(text[k])
  }

  /** The text is UTF-8 throughout. */
  predicate WellFormed(text: string)
    decreases text
  {
    text != "" ==> (Width(text) > 1 || text[0] as int < 0x80) && WellFormed(text[Width(text)..])
  }

  /** Every ill-formed byte replaced by U+FFFD. */
  function Repair(text: string): string
    decreases text
  {
    if text == "" then "" else RepairHead(text) + Repair(text[Width(text)..])
  }

  function RepairHead(text: string): string
    requires text != ""
  {
    if Width(text) == 1 && text[0] as int >= 0x80 then REPLACEMENT else text[..Width(text)]
  }

  /** What stands for itself inside a JSON string. */
  predicate SafeId(id: string) {
    Plain(id) && WellFormed(id)
  }

  lemma {:induction false} AsciiIsWellFormed(text: string)
    requires forall k :: 0 <= k < |text| ==> text[k] as int < 0x80
    ensures WellFormed(text)
    decreases text
  {
    if text != "" {
      AsciiIsWellFormed(text[Width(text)..]);
    }
  }

  lemma QuoteFollows(s: string, i: nat, text: string)
    requires At(s, i, text + "\"")
    ensures i + |text| < |s| && s[i..i + |text|] == text && s[i + |text|] == '"'
  {
    AtSlice(s, i, text + "\"");
    assert s[i..i + |text| + 1][..|text|] == text && s[i..i + |text| + 1][|text|] == '"';
    assert s[i..i + |text|] == s[i..i + |text| + 1][..|text|];
  }

  lemma RestFollows(s: string, i: nat, text: string, n: nat)
    requires At(s, i, text + "\"") && n <= |text|
    ensures At(s, i + n, text[n..] + "\"")
  {
    assert text + "\"" == text[..n] + (text[n..] + "\"");
    AtSplit(s, i, text[..n], text[n..] + "\"");
  }

  /** The closing quote continues no UTF-8 sequence. */
  lemma WidthBeforeQuote(s: string, i: nat, text: string)
    requires At(s, i, text + "\"") && text != ""
    ensures i + |text| < |s| && s[i] == text[0] && WidthAt(s, i) == Width(text)
    ensures s[i..i + Width(text)] == text[..Width(text)]
  {
    QuoteFollows(s, i, text);
    var k := LeadWidth(text[0]);
    assert s[i] == s[i..i + |text|][0];
    assert s[i..i + Width(text)] == s[i..i + |text|][..Width(text)];
    if k <= |text| {
      assert s[i..i + k] == s[i..i + |text|][..k] == text[0..k];
    } else if i + k <= |s| {
      assert s[i..i + k][|text|] == '"';
    }
  }

  lemma PlainPiece(s: string, i: nat, text: string)
    requires text != "" && Plain(text) && At(s, i, text + "\"")
    ensures i < |s| && s[i] != '"' && PieceAt(s, i) == Some(Piece(RepairHead(text), Width(text)))
  {
    WidthBeforeQuote(s, i, text);
    assert RawChar(text[0]);
    if text[0] as int < 0x80 {
      assert text[..1] == [s[i]];
    }
  }

  /** A plain text is read as its repair, up to its closing quote. */
  lemma {:induction false} PlainString(s: string, i: nat, text: string)
    requires Plain(text) && At(s, i, text + "\"")
    ensures ParseString(s, i) == Good(Repair(text), i + |text| + 1)
    decreases text
  {
    hide PieceAt, At, RepairHead;
    QuoteFollows(s, i, text);
    if text != "" {
      PlainPiece(s, i, text);
      RestFollows(s, i, text, Width(text));
      PlainString(s, i + Width(text), text[Width(text)..]);
    }
  }

  lemma {:induction false} RepairIdle(text: string)
    requires WellFormed(text)
    ensures Repair(text) == text
    decreases text
  {
    if text != "" {
      RepairIdle(text[Width(text)..]);
    }
  }

  // ---- Nothing else reads back as itself --------------------------------------------------

  predicate AsciiNoQuote(w: string) {
    forall k :: 0 <= k < |w| ==> w[k] as int < 0x80 && w[k] != '"'
  }

  /** An escape is ASCII, and holds a quote only when it stands for one. */
  lemma EscapeIsAscii(s: string, i: nat)
    requires i < |s| && s[i] == '\\' && EscapeAt(s, i).Some? && EscapeAt(s, i).value.bytes != ['"']
    ensures AsciiNoQuote(s[i..i + EscapeAt(s, i).value.len])
    ensures |EscapeAt(s, i).value.bytes| > 1 ==> EscapeAt(s, i).value.bytes[0] as int >= 0x80
  {}

  /** The escape before a closing quote lies within the text, unless it is an escaped quote. */
  lemma EscapeWithin(s: string, i: nat, text: string)
    requires At(s, i, text + "\"") && text != "" && s[i] == '\\'
    requires EscapeAt(s, i).Some? && EscapeAt(s, i).value.bytes != ['"']
    ensures var n := EscapeAt(s, i).value.len; n <= |text| && AsciiNoQuote(text[..n])
  {
    hide At, EscapeAt;
    var n := EscapeAt(s, i).value.len;
    QuoteFollows(s, i, text);
    EscapeIsAscii(s, i);
    var e := s[i..i + n];
    assert n <= |text| ==> e == s[i..i + |text|][..n] == text[..n];
  }

  /** One round of reading a string that goes on. */
  lemma StringStep(s: string, i: nat) returns (p: Piece, rest: string)
    requires i < |s| && s[i] != '"' && ParseString(s, i).Good?
    ensures PieceAt(s, i) == Some(p) && i + p.len <= |s| && ParseString(s, i + p.len).Good?
    ensures rest == ParseString(s, i + p.len).value && ParseString(s, i).value == p.bytes + rest && p.bytes != ""
  {
    p := PieceAt(s, i).value;
    rest := ParseString(s, i + p.len).value;
  }

  lemma EndsAtQuote(s: string, i: nat)
    requires i < |s| && s[i] == '"'
    ensures ParseString(s, i) == Good("", i + 1)
  {}

  /**
   * Once the reader lags behind, with ASCII bytes `w` still owed, it never catches up: an escape
   * makes it owe more, and what could make up for it, the repair of an ill-formed byte, is not ASCII.
   */
  lemma {:induction false} NeverCatchesUp(s: string, i: nat, w: string, text: string)
    requires At(s, i, text + "\"") && ParseString(s, i).Good? && w != "" && AsciiNoQuote(w)
    ensures ParseString(s, i).value != w + text
    decreases text
  {
    hide ParseString, PieceAt, At;
    QuoteFollows(s, i, text);
    if s[i] == '"' {
      EndsAtQuote(s, i);
    } else if ParseString(s, i).value == w + text {
      var p, rest := StringStep(s, i);
      FirstOwed(s, i, w, text, p, rest);
      var owed := StillOwed(w, text, p.bytes, p.len, rest);
      RestFollows(s, i, text, p.len);
      NeverCatchesUp(s, i + p.len, owed, text[p.len..]);
    }
  }

  lemma StillOwed(w: string, text: string, given: string, n: nat, rest: string) returns (owed: string)
    requires w != "" && |given| == 1 && 1 <= n <= |text| && given + rest == w + text
    requires AsciiNoQuote(w) && AsciiNoQuote(text[..n])
    ensures owed != "" && AsciiNoQuote(owed) && rest == owed + text[n..]
  {
    owed := w[1..] + text[..n];
    assert rest == (given + rest)[1..] == (w + text)[1..];
    assert (w + text)[1..] == w[1..] + text && text == text[..n] + text[n..];
  }

  /** The first owed byte is one ASCII byte, which the piece at i has given. */
  lemma FirstOwed(s: string, i: nat, w: string, text: string, p: Piece, rest: string)
    requires At(s, i, text + "\"") && text != "" && i < |s| && s[i] != '"' && PieceAt(s, i) == Some(p)
    requires w != "" && AsciiNoQuote(w) && p.bytes + rest == w + text && p.bytes != ""
    ensures |p.bytes| == 1 && 1 <= p.len <= |text| && AsciiNoQuote(text[..p.len])
  {
    WidthBeforeQuote(s, i, text);
    assert p.bytes[0] == (p.bytes + rest)[0] == (w + text)[0] == w[0];
    if s[i] == '\\' {
      EscapeWithin(s, i, text);
      EscapeIsAscii(s, i);
    }
  }

  lemma EscapeReadsOther(s: string, i: nat, text: string)
    requires At(s, i, text + "\"") && ParseString(s, i).Good? && text != "" && s[i] == '\\'
    ensures ParseString(s, i).value != text
  {
    hide ParseString, At;
    if ParseString(s, i).value == text {
      WidthBeforeQuote(s, i, text);
      var p, rest := StringStep(s, i);
      assert p.bytes[0] == (p.bytes + rest)[0] == text[0];
      EscapeWithin(s, i, text);
      EscapeIsAscii(s, i);
      var owed := text[1..p.len];
      assert rest == (p.bytes + rest)[1..] == text[1..] == owed + text[p.len..];
      assert forall k :: 0 <= k < |owed| ==> owed[k] == text[..p.len][k + 1];
      RestFollows(s, i, text, p.len);
      NeverCatchesUp(s, i + p.len, owed, text[p.len..]);
    }
  }

  lemma StartsReplaced(text: string, rest: string)
    requires text == REPLACEMENT + rest
    ensures Width(text) == 3
  {
    assert text[0..3] == REPLACEMENT && IsRune(REPLACEMENT);
  }

  lemma IllFormedReadsOther(s: string, i: nat, text: string)
    requires At(s, i, text + "\"") && ParseString(s, i).Good? && text != "" && s[i] as int >= 0x80 && Width(text) == 1
    ensures ParseString(s, i).value != text
  {
    hide ParseString, At;
    WidthBeforeQuote(s, i, text);
    if ParseString(s, i).value == text {
      var p, rest := StringStep(s, i);
      StartsReplaced(text, rest);
    }
  }

  /** A text that reads back as itself holds no quote, escape, control character or ill-formed byte. */
  lemma {:induction false} OnlySafeReadsBack(s: string, i: nat, text: string)
    requires At(s, i, text + "\"") && ParseString(s, i).Good? && ParseString(s, i).value == text
    ensures SafeId(text)
    decreases text
  {
    if text != "" {
      WidthBeforeQuote(s, i, text);
      if s[i] == '\\' {
        EscapeReadsOther(s, i, text);
      } else if s[i] as int >= 0x80 && Width(text) == 1 {
        IllFormedReadsOther(s, i, text);
      } else {
        HeadReadsBack(s, i, text);
        var n := Width(text);
        RestFollows(s, i, text, n);
        OnlySafeReadsBack(s, i + n, text[n..]);
        SafeHeadAndRest(text, n);
      }
    }
  }

  lemma HeadReadsBack(s: string, i: nat, text: string)
    requires At(s, i, text + "\"") && text != "" && ParseString(s, i).Good? && ParseString(s, i).value == text
    requires s[i] != '\\' && (s[i] as int < 0x80 || Width(text) > 1)
    ensures var n := Width(text);
            && ParseString(s, i + n).Good? && ParseString(s, i + n).value == text[n..]
            && Plain(text[..n]) && (n > 1 || text[0] as int < 0x80)
  {
    hide ParseString, At;
    WidthBeforeQuote(s, i, text);
    if s[i] == '"' {
      EndsAtQuote(s, i);
    } else {
      var p, rest := StringStep(s, i);
      var n := Width(text);
      assert p.len == n && p.bytes == text[..n];
      assert rest == (p.bytes + rest)[n..];
    }
  }

  lemma SafeHeadAndRest(text: string, n: nat)
    requires text != "" && n == Width(text) && Plain(text[..n]) && (n > 1 || text[0] as int < 0x80) && SafeId(text[n..])
    ensures SafeId(text)
  {
    forall k | 0 <= k < |text| ensures RawChar(text[k]) {
      assert text[k] == if k < n then text[..n][k] else text[n..][k - n];
    }
  }

  /** A raw text comes back as itself, up to its closing quote, exactly when it is safe. */
  lemma RawReadsBack(s: string, i: nat, text: string)
    requires At(s, i, text + "\"")
    ensures SafeId(text) ==> ParseString(s, i) == Good(text, i + |text| + 1)
    ensures ParseString(s, i).Good? && ParseString(s, i).value == text ==> SafeId(text)
  {
    if SafeId(text) {
      PlainString(s, i, text);
      RepairIdle(text);
    } else if ParseString(s, i).Good? && ParseString(s, i).value == text {
      OnlySafeReadsBack(s, i, text);
    }
  }
}
