/** UTF-8 sequences (section 4 of RFC 3629), as Go's utf8.DecodeRune tells them apart. */
module Runes {

  predicate IsTail(c: char) {
    0x80 <= c as int < 0xC0
  }

  /** The code point that two, three or four bytes of a UTF-8 sequence spell. */
  function Code(rune: string): int
    requires 2 <= |rune| <= 4
  {
    var tail := rune[|rune| - 1] as int - 0x80;
    if |rune| == 2 then (rune[0] as int - 0xC0) * 0x40 + tail
    else if |rune| == 3 then ((rune[0] as int - 0xE0) * 0x40 + (rune[1] as int - 0x80)) * 0x40 + tail
    else (((rune[0] as int - 0xF0) * 0x40 + (rune[1] as int - 0x80)) * 0x40 + (rune[2] as int - 0x80)) * 0x40 + tail
  }

  /** How many bytes the first one announces; 1 if it starts no longer sequence. */
  function LeadWidth(c: char): (n: nat)
    ensures 1 <= n <= 4
  {
    if 0xC2 <= c as int < 0xE0 then 2
    else if 0xE0 <= c as int < 0xF0 then 3
    else if 0xF0 <= c as int < 0xF8 then 4
    else 1
  }

  /** A shortest-form UTF-8 sequence of more than one byte, of a code point that is no surrogate. */
  predicate IsRune(rune: string) {
    && 2 <= |rune| <= 4 && LeadWidth(rune[0]) == |rune|
    && (forall k :: 1 <= k < |rune| ==> IsTail(rune[k]))
    && (|rune| == 3 ==> Code(rune) >= 0x800 && !(0xD800 <= Code(rune) < 0xE000))
    && (|rune| == 4 ==> 0x10000 <= Code(rune) <= 0x10FFFF)
  }

  /** How many bytes a decoder takes at i: a whole sequence, or one ASCII or ill-formed byte. */
  function WidthAt(s: string, i: nat): (n: nat)
    requires i < |s|
    ensures 1 <= n <= |s| - i && (n > 1 ==> IsRune(s[i..i + n]))
  {
    var n := LeadWidth(s[i]);
    if n > 1 && i + n <= |s| && IsRune(s[i..i + n]) then n else 1
  }

  function Width(text: string): (n: nat)
    requires text != ""
    ensures 1 <= n <= |text| && (n > 1 ==> IsRune(text[..n]))
  {
    var n := WidthAt(text, 0);
    assert text[..n] == text[0..0 + n];
    n
  }

  /** Where a sequence stands, the decoder takes it whole. */
  lemma WidthOfRune(s: string, i: nat, n: nat)
    requires i + n <= |s| && IsRune(s[i..i + n])
    ensures WidthAt(s, i) == n
  {
    assert s[i..i + n][0] == s[i];
  }
}
