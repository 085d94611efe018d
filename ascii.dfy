/**
 * The character-class table of the parser library: one 16-bit flag word per
 * byte value, and the `ascii::isXXX` predicates that test a flag.
 */
module Ascii {

  const DIGIT: bv16 := 0x0001
  const XDIGIT: bv16 := 0x0002
  const ALPHA: bv16 := 0x0004
  const CTRL: bv16 := 0x0008
  const LOWER: bv16 := 0x0010
  const UPPER: bv16 := 0x0020
  const SPACE: bv16 := 0x0040
  const PUNCT: bv16 := 0x0080
  const INLINE_SPACE: bv16 := 0x0100
  const ODIGIT: bv16 := 0x0200

  /** `ascii_char_types[c]`, the 256-entry table written as runs of equal entries. */
  function CharTypes(c: int): bv16
    requires 0 <= c < 256
  {
    if c <= 8 then CTRL
    else if c == 9 || c == 11 || c == 12 then CTRL | SPACE | INLINE_SPACE
    else if c == 10 || c == 13 then CTRL | SPACE
    else if c <= 31 then CTRL
    else if c == 32 then SPACE | INLINE_SPACE
    else if c <= 47 then PUNCT
    else if c <= 55 then DIGIT | XDIGIT | ODIGIT
    else if c <= 57 then DIGIT | XDIGIT
    else if c <= 64 then PUNCT
    else if c <= 70 then ALPHA | XDIGIT | UPPER
    else if c <= 90 then ALPHA | UPPER
    else if c <= 96 then PUNCT
    else if c <= 102 then ALPHA | XDIGIT | LOWER
    else if c <= 122 then ALPHA | LOWER
    else if c <= 126 then PUNCT
    else if c == 127 then CTRL
    else 0
  }

  /** A value `0 == (ch & ~UCHAR_MAX)` admits: one byte. */
  predicate IsByte(ch: int) { 0 <= ch < 256 }

  predicate Has(ch: int, flag: bv16)
    requires IsByte(ch)
  {
    CharTypes(ch) & flag != 0
  }

  predicate IsAlnum(ch: int) requires IsByte(ch) { Has(ch, ALPHA) || Has(ch, DIGIT) }
  predicate IsAlpha(ch: int) requires IsByte(ch) { Has(ch, ALPHA) }
  predicate IsDigit(ch: int) requires IsByte(ch) { Has(ch, DIGIT) }
  predicate IsXDigit(ch: int) requires IsByte(ch) { Has(ch, XDIGIT) }
  predicate IsODigit(ch: int) requires IsByte(ch) { Has(ch, ODIGIT) }
  predicate IsCntrl(ch: int) requires IsByte(ch) { Has(ch, CTRL) }
  predicate IsLower(ch: int) requires IsByte(ch) { Has(ch, LOWER) }
  predicate IsUpper(ch: int) requires IsByte(ch) { Has(ch, UPPER) }
  predicate IsPunct(ch: int) requires IsByte(ch) { Has(ch, PUNCT) }
  predicate IsSpace(ch: int) requires IsByte(ch) { Has(ch, SPACE) }
  predicate IsInlSpace(ch: int) requires IsByte(ch) { Has(ch, INLINE_SPACE) }

  /** `isgraph`, `isprint` and `isblank` compare ranges instead of reading the table. */
  predicate IsGraph(ch: int) { 0x21 <= ch <= 0x7e }
  predicate IsPrint(ch: int) { 0x20 <= ch <= 0x7e }
  predicate IsBlank(ch: int) { ch == 0x09 || ch == 0x20 }

  /** A C `int`. */
  predicate IsInt32(ch: int) { -0x8000_0000 <= ch < 0x8000_0000 }

  /** The two's-complement bits of a C `int`. */
  function Bits(ch: int): bv32
    requires IsInt32(ch)
  {
    (if ch < 0 then ch + 0x1_0000_0000 else ch) as bv32
  }

  /** `isascii_` / `ischar`: no bit above the low seven is set. */
  predicate IsAsciiChar(ch: int)
    requires IsInt32(ch)
  {
    Bits(ch) & !0x7f == 0
  }

  /** `isascii_` holds of exactly the values 0 to 127; every negative `int` has its sign bit set. */
  lemma IsAsciiMeaning(ch: int)
    requires IsInt32(ch)
    ensures IsAsciiChar(ch) <==> 0 <= ch < 128
  {
    if ch < 0 {
      var x := ch + 0x1_0000_0000;
      assert Bits(ch) == x as bv32;
      LowSevenBits(x as bv32);
      SmallBits(x);
    } else {
      assert Bits(ch) == ch as bv32;
      LowSevenBits(ch as bv32);
      SmallBits(ch);
    }
  }

  lemma SmallBits(x: int)
    requires 0 <= x < 0x1_0000_0000
    ensures (x as bv32 < 128) <==> x < 128
  {
  }

  lemma LowSevenBits(x: bv32)
    ensures x & !0x7f == 0 <==> x < 128
  {
  }

  /** The classes the table encodes, as character ranges. */
  lemma ClassRanges(ch: int)
    requires IsByte(ch)
    ensures IsDigit(ch) <==> '0' as int <= ch <= '9' as int
    ensures IsODigit(ch) <==> '0' as int <= ch <= '7' as int
    ensures IsXDigit(ch) <==> IsDigit(ch) || 'A' as int <= ch <= 'F' as int || 'a' as int <= ch <= 'f' as int
    ensures IsUpper(ch) <==> 'A' as int <= ch <= 'Z' as int
    ensures IsLower(ch) <==> 'a' as int <= ch <= 'z' as int
    ensures IsAlpha(ch) <==> IsUpper(ch) || IsLower(ch)
    ensures IsAlnum(ch) <==> IsAlpha(ch) || IsDigit(ch)
    ensures IsSpace(ch) <==> ch == 32 || 9 <= ch <= 13
    ensures IsInlSpace(ch) <==> ch == 32 || ch == 9 || ch == 11 || ch == 12
    ensures IsCntrl(ch) <==> ch < 32 || ch == 127
  {
  }

  /** The range tests agree with the table: graphic characters are the letters, digits and punctuation. */
  lemma RangesAgreeWithTable(ch: int)
    requires IsByte(ch)
    ensures IsGraph(ch) <==> IsAlnum(ch) || IsPunct(ch)
    ensures IsPrint(ch) <==> IsGraph(ch) || ch == 32
    ensures IsBlank(ch) ==> IsInlSpace(ch) && IsSpace(ch)
    ensures ch >= 128 ==> CharTypes(ch) == 0
  {
  }

  /** Exactly one of control, space-only, punctuation or alphanumeric describes each 7-bit value other than white space. */
  lemma ClassesPartitionAscii(ch: int)
    requires 0 <= ch < 128
    ensures IsCntrl(ch) || IsPunct(ch) || IsAlnum(ch) || ch == 32
    ensures !(IsPunct(ch) && (IsAlnum(ch) || IsCntrl(ch)))
    ensures !(IsAlnum(ch) && IsCntrl(ch))
  {
  }
}
