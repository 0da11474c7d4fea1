/** Valid UTF-8 (RFC 3629): no overlong forms, no surrogates, nothing above U+10FFFF. */
module Utf8 {
  import opened Bytes

  /** The length of the UTF-8 sequence at the start of the text, or 0. */
  function RuneLength(text: bytes): nat
    requires text != []
    ensures RuneLength(text) <= |text|
  {
    var c := text[0];
    if c < 0x80 then 1
    else if 0xC2 <= c <= 0xDF && Continues(text, 1, 0x80, 0xBF) then 2
    else if c == 0xE0 && Continues(text, 1, 0xA0, 0xBF) && Continues(text, 2, 0x80, 0xBF) then 3
    else if c == 0xED && Continues(text, 1, 0x80, 0x9F) && Continues(text, 2, 0x80, 0xBF) then 3
    else if 0xE1 <= c <= 0xEF && c != 0xED && Continues(text, 1, 0x80, 0xBF) && Continues(text, 2, 0x80, 0xBF) then 3
    else if c == 0xF0 && Continues(text, 1, 0x90, 0xBF) && Continues(text, 2, 0x80, 0xBF) && Continues(text, 3, 0x80, 0xBF) then 4
    else if 0xF1 <= c <= 0xF3 && Continues(text, 1, 0x80, 0xBF) && Continues(text, 2, 0x80, 0xBF) && Continues(text, 3, 0x80, 0xBF) then 4
    else if c == 0xF4 && Continues(text, 1, 0x80, 0x8F) && Continues(text, 2, 0x80, 0xBF) && Continues(text, 3, 0x80, 0xBF) then 4
    else 0
  }

  predicate Continues(text: bytes, i: nat, low: int, high: int) {
    i < |text| && low <= text[i] <= high
  }

  predicate ValidUtf8(text: bytes)
    decreases |text|
  {
    text == [] || (RuneLength(text) > 0 && ValidUtf8(text[RuneLength(text)..]))
  }

  lemma {:induction false} AsciiIsUtf8(text: bytes)
    requires forall i :: 0 <= i < |text| ==> text[i] < 0x80
    ensures ValidUtf8(text)
    decreases |text|
  {
    if text != [] { AsciiIsUtf8(text[1..]); }
  }
}
