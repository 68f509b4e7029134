/**
 * JSON texts (RFC 8259, sections 2 to 7), as encoding/json reads them.
 *
 * A text is a sequence of bytes, each held in a `char`; an ASCII character is its own byte.
 * The parsers return the value found at a position and the position after it.
 */
module Json {
  import opened Options
  import opened Runes
  import opened Text

  datatype Json =
    | Null
    | Bool(truth: bool)
    | Number(text: string)
    | Str(text: string)
    | Arr(items: seq<Json>)
    | Obj(members: seq<(string, Json)>)

  datatype Parsed<+T> = Bad | Good(value: T, next: nat)

  // ---- Tokens --------------------------------------------------------------------------

  function SkipSpace(s: string, i: nat): (j: nat)
    requires i <= |s|
    ensures i <= j <= |s|
    decreases |s| - i
  {
    if i < |s| && s[i] in " \t\n\r" then SkipSpace(s, i + 1) else i
  }

  predicate IsHex(c: char) {
    '0' <= c <= '9' || 'a' <= c <= 'f' || 'A' <= c <= 'F'
  }

  function HexValue(c: char): (v: nat)
    requires IsHex(c)
    ensures v < 16
  {
    if '0' <= c <= '9' then c as int - '0' as int
    else if 'a' <= c <= 'f' then c as int - 'a' as int + 10
    else c as int - 'A' as int + 10
  }

  function Hex4(s: string): (v: nat)
    requires |s| == 4 && forall k :: 0 <= k < 4 ==> IsHex(s[k])
    ensures v < 0x10000
  {
    ((HexValue(s[0]) * 16 + HexValue(s[1])) * 16 + HexValue(s[2])) * 16 + HexValue(s[3])
  }

  /** What a decoder puts for an ill-formed byte or half a surrogate pair: U+FFFD. */
  const REPLACEMENT: string := [0xEF as char, 0xBF as char, 0xBD as char]

  /** The UTF-8 bytes of a code point. */
  function Utf8(code: nat): (bytes: string)
    requires code < 0x110000
    ensures 1 <= |bytes| <= 4 && (code < 0x10000 ==> |bytes| <= 3) && (|bytes| > 1 ==> bytes[0] as int >= 0x80)
  {
    if code < 0x80 then [code as char]
    else if code < 0x800 then [(0xC0 + code / 64) as char, (0x80 + code % 64) as char]
    else if 0xD800 <= code < 0xE000 then REPLACEMENT
    else if code < 0x10000 then
      [(0xE0 + code / 4096) as char, (0x80 + code / 64 % 64) as char, (0x80 + code % 64) as char]
    else
      [(0xF0 + code / 0x40000) as char, (0x80 + code / 4096 % 64) as char, (0x80 + code / 64 % 64) as char,
       (0x80 + code % 64) as char]
  }

  function SimpleEscape(c: char): Option<char> {
    if c in "\"\\/" then Some(c)
    else if c == 'b' then Some('\U{8}')
    else if c == 'f' then Some('\U{C}')
    else if c == 'n' then Some('\n')
    else if c == 'r' then Some('\r')
    else if c == 't' then Some('\t')
    else None
  }

  function Prepend(bytes: string, r: Parsed<string>): Parsed<string> {
    match r
    case Bad => Bad
    case Good(rest, next) => Good(bytes + rest, next)
  }

  /** A `\u` escape stands at i. */
  predicate IsHexEscape(s: string, i: nat) {
    i + 6 <= |s| && s[i] == '\\' && s[i + 1] == 'u' && forall k :: i + 2 <= k < i + 6 ==> IsHex(s[k])
  }

  function HexEscape(s: string, i: nat): (code: nat)
    requires IsHexEscape(s, i)
    ensures code < 0x10000
  {
    Hex4(s[i + 2..i + 6])
  }

  /** Two escapes from i on are the halves of one surrogate pair. */
  predicate IsPair(s: string, i: nat) {
    && IsHexEscape(s, i) && 0xD800 <= HexEscape(s, i) < 0xDC00
    && IsHexEscape(s, i + 6) && 0xDC00 <= HexEscape(s, i + 6) < 0xE000
  }

  /** The bytes that the text of length `len` stands for. */
  datatype Piece = Piece(bytes: string, len: nat)

  function EscapeAt(s: string, i: nat): (p: Option<Piece>)
    requires i < |s| && s[i] == '\\'
    ensures p.Some? ==> 2 <= p.value.len <= |s| - i && 1 <= |p.value.bytes| < p.value.len
  {
    if IsPair(s, i) then
      Some(Piece(Utf8(0x10000 + (HexEscape(s, i) - 0xD800) * 0x400 + (HexEscape(s, i + 6) - 0xDC00)), 12))
    else if IsHexEscape(s, i) then Some(Piece(Utf8(HexEscape(s, i)), 6))
    else if i + 1 == |s| || SimpleEscape(s[i + 1]).None? then None
    else Some(Piece([SimpleEscape(s[i + 1]).value], 2))
  }

  /** The next piece of a string that has not ended; ill-formed bytes are replaced one by one. */
  function PieceAt(s: string, i: nat): (p: Option<Piece>)
    requires i < |s| && s[i] != '"'
    ensures p.Some? ==> 1 <= p.value.len <= |s| - i
  {
    if s[i] < ' ' then None
    else if s[i] == '\\' then EscapeAt(s, i)
    else if s[i] as int < 0x80 then Some(Piece([s[i]], 1))
    else
      var n := WidthAt(s, i);
      Some(Piece(if n > 1 then s[i..i + n] else REPLACEMENT, n))
  }

  /** The rest of a string whose opening quote is just before i. */
  function ParseString(s: string, i: nat): (r: Parsed<string>)
    requires i <= |s|
    ensures r.Good? ==> i < r.next <= |s| && s[r.next - 1] == '"'
    decreases |s| - i
  {
    if i == |s| then Bad
    else if s[i] == '"' then Good("", i + 1)
    else
      match PieceAt(s, i)
      case None => Bad
      case Some(p) => Prepend(p.bytes, ParseString(s, i + p.len))
  }

  predicate IsNumberChar(c: char) {
    IsDigit(c) || c in "+-.eE"
  }

  function NumberEnd(s: string, i: nat): (j: nat)
    requires i <= |s|
    ensures i <= j <= |s|
    decreases |s| - i
  {
    if i < |s| && IsNumberChar(s[i]) then NumberEnd(s, i + 1) else i
  }

  function DigitsEnd(t: string, i: nat): (j: nat)
    requires i <= |t|
    ensures i <= j <= |t|
    decreases |t| - i
  {
    if i < |t| && IsDigit(t[i]) then DigitsEnd(t, i + 1) else i
  }

  predicate IsExponent(t: string, i: nat)
    requires i <= |t|
  {
    i == |t| ||
    (t[i] in "eE" &&
     var k := if i + 1 < |t| && t[i + 1] in "+-" then i + 2 else i + 1;
     k < |t| && DigitsEnd(t, k) == |t|)
  }

  /** number = [ minus ] int [ frac ] [ exp ] */
  predicate IsNumber(t: string) {
    var i := if t != "" && t[0] == '-' then 1 else 0;
    var j := DigitsEnd(t, i);
    j > i && (t[i] == '0' ==> j == i + 1) &&
    if j < |t| && t[j] == '.' then
      DigitsEnd(t, j + 1) > j + 1 && IsExponent(t, DigitsEnd(t, j + 1))
    else IsExponent(t, j)
  }

  /** The bytes w stand at position i of s. */
  predicate At(s: string, i: nat, w: string)
    ensures At(s, i, w) ==> i + |w| <= |s|
    decreases w
  {
    if w == "" then i <= |s| else i < |s| && s[i] == w[0] && At(s, i + 1, w[1..])
  }

  lemma {:induction false} AtSplit(s: string, i: nat, a: string, b: string)
    ensures At(s, i, a + b) <==> At(s, i, a) && At(s, i + |a|, b)
    decreases a
  {
    if a == "" {
      assert a + b == b;
    } else {
      assert (a + b)[1..] == a[1..] + b;
      AtSplit(s, i + 1, a[1..], b);
    }
  }

  lemma {:induction false} AtIndex(s: string, i: nat, w: string, k: nat)
    requires At(s, i, w) && k < |w|
    ensures s[i + k] == w[k]
    decreases w
  {
    if k > 0 {
      AtIndex(s, i + 1, w[1..], k - 1);
    }
  }

  lemma {:induction false} AtSlice(s: string, i: nat, w: string)
    requires At(s, i, w)
    ensures s[i..i + |w|] == w
  {
    forall k | 0 <= k < |w| ensures s[i + k] == w[k] {
      AtIndex(s, i, w, k);
    }
  }

  lemma {:induction false} AtRest(s: string, i: nat)
    requires i <= |s|
    ensures At(s, i, s[i..])
    decreases |s| - i
  {
    if i < |s| {
      assert s[i..][1..] == s[i + 1..];
      AtRest(s, i + 1);
    }
  }

  lemma AtWhole(s: string)
    ensures At(s, 0, s)
  {
    AtRest(s, 0);
    assert s[0..] == s;
  }

  // ---- Values --------------------------------------------------------------------------

  function ParseValue(s: string, i: nat): (r: Parsed<Json>)
    requires i <= |s|
    ensures r.Good? ==> i < r.next <= |s|
    decreases |s| - i, 0
  {
    if i == |s| then Bad
    else if s[i] == '{' then
      var j := SkipSpace(s, i + 1);
      if j < |s| && s[j] == '}' then Good(Obj([]), j + 1)
      else
        match ParseMembers(s, j)
        case Bad => Bad
        case Good(members, next) => Good(Obj(members), next)
    else if s[i] == '[' then
      var j := SkipSpace(s, i + 1);
      if j < |s| && s[j] == ']' then Good(Arr([]), j + 1)
      else
        match ParseItems(s, j)
        case Bad => Bad
        case Good(items, next) => Good(Arr(items), next)
    else if s[i] == '"' then
      match ParseString(s, i + 1)
      case Bad => Bad
      case Good(text, next) => Good(Str(text), next)
    else if At(s, i, "true") then Good(Bool(true), i + 4)
    else if At(s, i, "false") then Good(Bool(false), i + 5)
    else if At(s, i, "null") then Good(Null, i + 4)
    else
      var j := NumberEnd(s, i);
      if IsNumber(s[i..j]) then Good(Number(s[i..j]), j) else Bad
  }

  function ParseItems(s: string, i: nat): (r: Parsed<seq<Json>>)
    requires i <= |s|
    ensures r.Good? ==> i < r.next <= |s|
    decreases |s| - i, 1
  {
    match ParseValue(s, i)
    case Bad => Bad
    case Good(item, j) =>
      var k := SkipSpace(s, j);
      if k == |s| then Bad
      else if s[k] == ']' then Good([item], k + 1)
      else if s[k] != ',' then Bad
      else
        match ParseItems(s, SkipSpace(s, k + 1))
        case Bad => Bad
        case Good(items, next) => Good([item] + items, next)
  }

  function ParseMembers(s: string, i: nat): (r: Parsed<seq<(string, Json)>>)
    requires i <= |s|
    ensures r.Good? ==> i < r.next <= |s|
    decreases |s| - i, 1
  {
    match ParseMember(s, i)
    case Bad => Bad
    case Good(member, j) =>
      var k := SkipSpace(s, j);
      if k == |s| then Bad
      else if s[k] == '}' then Good([member], k + 1)
      else if s[k] != ',' then Bad
      else
        match ParseMembers(s, SkipSpace(s, k + 1))
        case Bad => Bad
        case Good(members, next) => Good([member] + members, next)
  }

  /** "key" : up to where the value starts. */
  function ParseKey(s: string, i: nat): (r: Parsed<string>)
    requires i <= |s|
    ensures r.Good? ==> i < r.next <= |s|
  {
    if i == |s| || s[i] != '"' then Bad
    else
      match ParseString(s, i + 1)
      case Bad => Bad
      case Good(key, j) =>
        var k := SkipSpace(s, j);
        if k == |s| || s[k] != ':' then Bad else Good(key, SkipSpace(s, k + 1))
  }

  function ParseMember(s: string, i: nat): (r: Parsed<(string, Json)>)
    requires i <= |s|
    ensures r.Good? ==> i < r.next <= |s|
    decreases |s| - i, 0
  {
    match ParseKey(s, i)
    case Bad => Bad
    case Good(key, j) =>
      match ParseValue(s, j)
      case Bad => Bad
      case Good(value, next) => Good((key, value), next)
  }

  /** A whole text: one value with optional white space around it. */
  function Parse(s: string): Option<Json> {
    match ParseValue(s, SkipSpace(s, 0))
    case Bad => None
    case Good(value, next) => if SkipSpace(s, next) == |s| then Some(value) else None
  }

  // ---- A parser looks at most one byte past what it consumes ---------------------------

  predicate Agree(s: string, t: string, n: nat) {
    n <= |s| && n <= |t| && forall k :: 0 <= k < n ==> s[k] == t[k]
  }

  lemma {:induction false} SkipLocal(s: string, t: string, i: nat, n: nat)
    requires Agree(s, t, n) && i <= |s| && SkipSpace(s, i) < n
    ensures SkipSpace(t, i) == SkipSpace(s, i)
    decreases |s| - i
  {
    if s[i] in " \t\n\r" {
      SkipLocal(s, t, i + 1, n);
    }
  }

  /** A quote at q ends whatever reaches over it, so the piece before it is the same in both texts. */
  lemma PieceLocal(s: string, t: string, i: nat, n: nat, q: nat)
    requires Agree(s, t, n) && i < q < n && s[i] != '"' && s[q] == '"'
    requires PieceAt(s, i).Some? && i + PieceAt(s, i).value.len <= q
    ensures PieceAt(t, i) == PieceAt(s, i)
  {
    if s[i] == '\\' {
      EscapeLocal(s, t, i, n, q);
    } else if s[i] as int >= 0x80 {
      WidthLocal(s, t, i, n, q);
      assert s[i..i + WidthAt(s, i)] == t[i..i + WidthAt(s, i)];
    }
  }

  lemma WidthLocal(s: string, t: string, i: nat, n: nat, q: nat)
    requires Agree(s, t, n) && i < q < n && s[q] == '"'
    ensures WidthAt(t, i) == WidthAt(s, i) && i + WidthAt(s, i) <= q
  {
    var k := LeadWidth(s[i]);
    if i + k <= q {
      assert s[i..i + k] == t[i..i + k];
    } else {
      if i + k <= |s| { assert s[i..i + k][q - i] == '"'; }
      if i + k <= |t| { assert t[i..i + k][q - i] == '"'; }
    }
  }

  lemma HexEscapeLocal(s: string, t: string, i: nat, n: nat, q: nat)
    requires Agree(s, t, n) && i <= q < n && s[q] == '"'
    ensures IsHexEscape(t, i) <==> IsHexEscape(s, i)
    ensures IsHexEscape(s, i) ==> i + 6 <= q && HexEscape(t, i) == HexEscape(s, i)
  {
    if IsHexEscape(s, i) || IsHexEscape(t, i) {
      assert i + 6 <= q;
      assert s[i + 2..i + 6] == t[i + 2..i + 6];
    }
  }

  lemma EscapeLocal(s: string, t: string, i: nat, n: nat, q: nat)
    requires Agree(s, t, n) && i < q < n && s[i] == '\\' && s[q] == '"'
    requires EscapeAt(s, i).Some? && i + EscapeAt(s, i).value.len <= q
    ensures EscapeAt(t, i) == EscapeAt(s, i)
  {
    HexEscapeLocal(s, t, i, n, q);
    if IsHexEscape(s, i) {
      HexEscapeLocal(s, t, i + 6, n, q);
    }
  }

  lemma {:induction false} StringLocal(s: string, t: string, i: nat, n: nat)
    requires Agree(s, t, n) && i <= |s| && ParseString(s, i).Good? && ParseString(s, i).next <= n
    ensures ParseString(t, i) == ParseString(s, i)
    decreases |s| - i
  {
    hide PieceAt;
    if s[i] != '"' {
      PieceLocal(s, t, i, n, ParseString(s, i).next - 1);
      StringLocal(s, t, i + PieceAt(s, i).value.len, n);
    }
  }

  lemma {:induction false} NumberLocal(s: string, t: string, i: nat, n: nat)
    requires Agree(s, t, n) && i <= |s| && NumberEnd(s, i) < n
    ensures NumberEnd(t, i) == NumberEnd(s, i)
    decreases |s| - i
  {
    if IsNumberChar(s[i]) {
      NumberLocal(s, t, i + 1, n);
    }
  }

  lemma {:induction false} LiteralLocal(s: string, t: string, i: nat, n: nat, w: string)
    requires Agree(s, t, n) && i + |w| <= n
    ensures At(s, i, w) <==> At(t, i, w)
    decreases w
  {
    if w != "" {
      LiteralLocal(s, t, i + 1, n, w[1..]);
    }
  }

  /** An object needs no byte after its closing brace; other values may look at the next byte. */
  lemma {:induction false} ValueLocal(s: string, t: string, i: nat, n: nat)
    requires Agree(s, t, n) && i < |s| && ParseValue(s, i).Good?
    requires ParseValue(s, i).next < n || (ParseValue(s, i).next == n && s[i] == '{')
    ensures ParseValue(t, i) == ParseValue(s, i)
    decreases |s| - i, 0
  {
    if s[i] == '{' {
      SkipLocal(s, t, i + 1, n);
      var j := SkipSpace(s, i + 1);
      if s[j] != '}' {
        MembersLocal(s, t, j, n);
      }
    } else if s[i] == '[' {
      SkipLocal(s, t, i + 1, n);
      var j := SkipSpace(s, i + 1);
      if s[j] != ']' {
        ItemsLocal(s, t, j, n);
      }
    } else if s[i] == '"' {
      StringLocal(s, t, i + 1, n);
    } else {
      ScalarLocal(s, t, i, n);
    }
  }

  lemma ScalarLocal(s: string, t: string, i: nat, n: nat)
    requires Agree(s, t, n) && i < |s| && s[i] !in "{[\"" && ParseValue(s, i).Good? && ParseValue(s, i).next < n
    ensures ParseValue(t, i) == ParseValue(s, i)
  {
    var r := ParseValue(s, i);
    if s[i] == 't' && At(s, i, "true") {
      LiteralLocal(s, t, i, n, "true");
    } else if s[i] == 'f' && At(s, i, "false") {
      LiteralLocal(s, t, i, n, "false");
    } else if s[i] == 'n' && At(s, i, "null") {
      LiteralLocal(s, t, i, n, "null");
    } else {
      FirstOfLiteral(s, i);
      FirstOfLiteral(t, i);
      NumberFirst(s, i);
      NumberLocal(s, t, i, n);
      assert s[i..r.next] == t[i..r.next];
    }
  }

  lemma FirstOfLiteral(s: string, i: nat)
    requires i < |s|
    ensures At(s, i, "true") ==> s[i] == 't'
    ensures At(s, i, "false") ==> s[i] == 'f'
    ensures At(s, i, "null") ==> s[i] == 'n'
  {
    assert "true"[0] == 't' && "false"[0] == 'f' && "null"[0] == 'n';
  }

  lemma NumberFirst(s: string, i: nat)
    requires i < |s| && IsNumber(s[i..NumberEnd(s, i)])
    ensures s[i] == '-' || IsDigit(s[i])
  {
    var tok := s[i..NumberEnd(s, i)];
    assert tok != "" && tok[0] == s[i];
  }

  lemma {:induction false} ItemsLocal(s: string, t: string, i: nat, n: nat)
    requires Agree(s, t, n) && i <= |s| && ParseItems(s, i).Good? && ParseItems(s, i).next <= n
    ensures ParseItems(t, i) == ParseItems(s, i)
    decreases |s| - i, 1
  {
    ValueLocal(s, t, i, n);
    var j := ParseValue(s, i).next;
    SkipLocal(s, t, j, n);
    var k := SkipSpace(s, j);
    if s[k] == ',' {
      SkipLocal(s, t, k + 1, n);
      ItemsLocal(s, t, SkipSpace(s, k + 1), n);
    }
  }

  lemma {:induction false} MembersLocal(s: string, t: string, i: nat, n: nat)
    requires Agree(s, t, n) && i <= |s| && ParseMembers(s, i).Good? && ParseMembers(s, i).next <= n
    ensures ParseMembers(t, i) == ParseMembers(s, i)
    decreases |s| - i, 2
  {
    hide ParseMember;
    MemberLocal(s, t, i, n);
    var j := ParseMember(s, i).next;
    SkipLocal(s, t, j, n);
    var k := SkipSpace(s, j);
    if s[k] == ',' {
      SkipLocal(s, t, k + 1, n);
      MembersLocal(s, t, SkipSpace(s, k + 1), n);
    }
  }

  lemma {:induction false} MemberLocal(s: string, t: string, i: nat, n: nat)
    requires Agree(s, t, n) && i <= |s| && ParseMember(s, i).Good? && ParseMember(s, i).next < n
    ensures ParseMember(t, i) == ParseMember(s, i)
    decreases |s| - i, 1
  {
    KeyLocal(s, t, i, n);
    ValueLocal(s, t, ParseKey(s, i).next, n);
  }

  lemma KeyLocal(s: string, t: string, i: nat, n: nat)
    requires Agree(s, t, n) && i <= |s| && ParseKey(s, i).Good? && ParseKey(s, i).next < n
    ensures ParseKey(t, i) == ParseKey(s, i)
  {
    hide ParseString;
    var j := ParseString(s, i + 1).next;
    var k := SkipSpace(s, j);
    StringLocal(s, t, i + 1, n);
    SkipLocal(s, t, j, n);
    SkipLocal(s, t, k + 1, n);
  }

  /** A complete object, cut anywhere inside, is not a JSON text any more. */
  lemma TornObjectInvalid(s: string, n: nat)
    requires s != "" && s[0] == '{' && ParseValue(s, 0).Good? && ParseValue(s, 0).next == |s|
    requires 0 < n < |s|
    ensures Parse(s[..n]).None?
  {
    var t := s[..n];
    assert SkipSpace(t, 0) == 0;
    if ParseValue(t, 0).Good? {
      ValueLocal(t, s, 0, if ParseValue(t, 0).next < n then ParseValue(t, 0).next + 1 else n);
    }
  }

  /** A text that starts with a brace and with no object, cut anywhere, is no JSON text either. */
  lemma NoObjectWithin(s: string, n: nat)
    requires 0 < n <= |s| && s[0] == '{' && ParseValue(s, 0) == Bad
    ensures Parse(s[..n]).None?
  {
    var t := s[..n];
    assert SkipSpace(t, 0) == 0;
    if ParseValue(t, 0).Good? {
      ValueLocal(t, s, 0, ParseValue(t, 0).next);
    }
  }

  /** The literal names stand for their values. */
  lemma LiteralValues(s: string, i: nat)
    requires i <= |s|
    ensures At(s, i, "true") ==> ParseValue(s, i) == Good(Bool(true), i + 4)
    ensures At(s, i, "false") ==> ParseValue(s, i) == Good(Bool(false), i + 5)
    ensures At(s, i, "null") ==> ParseValue(s, i) == Good(Null, i + 4)
  {
    if i < |s| {
      FirstOfLiteral(s, i);
    }
  }
}
