/** UTF-8 as section 4 of RFC 3629 defines it, the encoding Python's decode("utf-8") accepts. */
module Utf8 {
  import opened Ints
  import opened Bytes

  predicate InBytes(s: seq<Byte>, i: nat, low: int, high: int) { i < |s| && low <= s[i] <= high }

  predicate IsTail(s: seq<Byte>, i: nat) { InBytes(s, i, 0x80, 0xBF) }

  /** How many bytes the character at `i` takes; 0 if there is none. */
  function Width(s: seq<Byte>, i: nat): (w: nat)
    ensures w <= 4 && (w > 0 ==> i + w <= |s|)
  {
    if InBytes(s, i, 0x00, 0x7F) then 1
    else if InBytes(s, i, 0xC2, 0xDF) && IsTail(s, i + 1) then 2
    else if && (|| (InBytes(s, i, 0xE0, 0xE0) && InBytes(s, i + 1, 0xA0, 0xBF))
                || (InBytes(s, i, 0xE1, 0xEC) && IsTail(s, i + 1))
                || (InBytes(s, i, 0xED, 0xED) && InBytes(s, i + 1, 0x80, 0x9F))
                || (InBytes(s, i, 0xEE, 0xEF) && IsTail(s, i + 1)))
            && IsTail(s, i + 2) then 3
    else if && (|| (InBytes(s, i, 0xF0, 0xF0) && InBytes(s, i + 1, 0x90, 0xBF))
                || (InBytes(s, i, 0xF1, 0xF3) && IsTail(s, i + 1))
                || (InBytes(s, i, 0xF4, 0xF4) && InBytes(s, i + 1, 0x80, 0x8F)))
            && IsTail(s, i + 2) && IsTail(s, i + 3) then 4
    else 0
  }

  predicate ValidFrom(s: seq<Byte>, i: nat)
    requires i <= |s|
    decreases |s| - i
  {
    i == |s| || (Width(s, i) > 0 && ValidFrom(s, i + Width(s, i)))
  }

  predicate Valid(s: seq<Byte>) { ValidFrom(s, 0) }

  lemma {:induction false} ZerosAreValid(s: seq<Byte>, i: nat)
    requires i <= |s| && forall k :: i <= k < |s| ==> s[k] == 0
    ensures ValidFrom(s, i)
    decreases |s| - i
  {
    if i < |s| {
      ZerosAreValid(s, i + 1);
    }
  }

  // ---------------------------------------------------------------- against the code points

  /** The six bits of a byte 10xxxxxx. */
  function Bits(b: Byte): int { b - 0x80 }

  predicate HasTail(s: seq<Byte>) { forall k :: 1 <= k < |s| ==> 0x80 <= s[k] < 0xC0 }

  /** The bytes are the bits of the code point, laid out as in section 3 of RFC 3629, in as few bytes as
      will do; the surrogates have no bytes. */
  predicate Spells(s: seq<Byte>, c: int) {
    && HasTail(s)
    && match |s|
       case 1 => s[0] < 0x80 && c == s[0]
       case 2 => 0xC0 <= s[0] < 0xE0 && c == 0x40 * (s[0] - 0xC0) + Bits(s[1]) && 0x80 <= c
       case 3 => 0xE0 <= s[0] < 0xF0 && c == 0x1000 * (s[0] - 0xE0) + 0x40 * Bits(s[1]) + Bits(s[2])
                 && 0x800 <= c && !(0xD800 <= c < 0xE000)
       case 4 => 0xF0 <= s[0] < 0xF8
                 && c == 0x4_0000 * (s[0] - 0xF0) + 0x1000 * Bits(s[1]) + 0x40 * Bits(s[2]) + Bits(s[3])
                 && 0x1_0000 <= c < 0x11_0000
       case _ => false
  }

  /** The code point of well-formed bytes. */
  function Point(s: seq<Byte>): int {
    match |s|
    case 1 => s[0]
    case 2 => 0x40 * (s[0] - 0xC0) + Bits(s[1])
    case 3 => 0x1000 * (s[0] - 0xE0) + 0x40 * Bits(s[1]) + Bits(s[2])
    case 4 => 0x4_0000 * (s[0] - 0xF0) + 0x1000 * Bits(s[1]) + 0x40 * Bits(s[2]) + Bits(s[3])
    case _ => 0
  }

  /** There is a character of that width exactly if the bytes spell a code point. */
  lemma {:induction false} WidthExactly(s: seq<Byte>, i: nat, n: nat, c: int)
    requires 1 <= n && i + n <= |s|
    ensures Spells(s[i..i + n], c) <==> Width(s, i) == n && c == Point(s[i..i + n])
  {
    var t := s[i..i + n];
    assert forall k :: 0 <= k < n ==> t[k] == s[i + k];
    if n == 1 {
    } else if n == 2 {
    } else if n == 3 {
    } else if n == 4 {
    }
  }

  /** From position `i` on the bytes spell the text. */
  ghost predicate SpellsFrom(s: seq<Byte>, i: nat, text: seq<int>)
    requires i <= |s|
    decreases |text|
  {
    if text == [] then i == |s|
    else exists j :: i < j <= |s| && Spells(s[i..j], text[0]) && SpellsFrom(s, j, text[1..])
  }

  lemma {:induction false} ValidSpells(s: seq<Byte>, i: nat) returns (text: seq<int>)
    requires i <= |s| && ValidFrom(s, i)
    ensures SpellsFrom(s, i, text)
    decreases |s| - i
  {
    if i == |s| {
      text := [];
    } else {
      hide Spells, Point;
      var n := Width(s, i);
      var rest := ValidSpells(s, i + n);
      WidthExactly(s, i, n, Point(s[i..i + n]));
      text := [Point(s[i..i + n])] + rest;
      assert text[1..] == rest;
    }
  }

  lemma {:induction false} SpelledIsValid(s: seq<Byte>, i: nat, text: seq<int>)
    requires i <= |s| && SpellsFrom(s, i, text)
    ensures ValidFrom(s, i)
    decreases |text|
  {
    hide Spells, Point, Width;
    if text != [] {
      var j :| i < j <= |s| && Spells(s[i..j], text[0]) && SpellsFrom(s, j, text[1..]);
      WidthExactly(s, i, j - i, text[0]);
      SpelledIsValid(s, j, text[1..]);
    }
  }

  /** Bytes decode exactly if they spell some text. */
  lemma {:induction false} ValidExactly(s: seq<Byte>)
    ensures Valid(s) <==> exists text :: SpellsFrom(s, 0, text)
  {
    if Valid(s) {
      var text := ValidSpells(s, 0);
    }
    if text :| SpellsFrom(s, 0, text) {
      SpelledIsValid(s, 0, text);
    }
  }
}
