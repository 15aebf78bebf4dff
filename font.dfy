/** The glyph tables and the case-normalising lookup shared by every driver.

    A glyph is a `u32`, modelled as a `nat`, holding a 25-bit bitmap of the
    5x5 matrix, row-major: bit 24 is the upper-left LED, bit 0 the
    lower-right one. The lookup is parameterised by
    the tables, because some drivers carry a shortened table: a Rust lookup
    whose index is past the end of the table panics, which is the
    `PastTable` answer here. */
module Font {
  import opened Tock

  /** Glyphs of the digits '0'..'9' (chapters 8, 9, 10 and 12), in hexadecimal:
      the five rows of five LEDs are the bits 24..20, 19..15, ..., 4..0. */
  const DIGITS: seq<nat> := [
    0x1F9D73F, // 0
    0x046108E, // 1
    0x1E0BA1F, // 2
    0x1E0F83E, // 3
    0x10853E4, // 4
    0x1F8783E, // 5
    0x1F87E3F, // 6
    0x1F08884, // 7
    0x1F8FE3F, // 8
    0x1F8FC3F  // 9
  ]

  /** Glyphs of the capital letters 'A'..'Z' (chapters 8, 9, 10 and 12). */
  const LETTERS: seq<nat> := [
    0x0E8FE31, // A
    0x1F8FA3F, // B
    0x1F8421F, // C
    0x1E8C63E, // D
    0x1F87A1F, // E
    0x1F87A10, // F
    0x1F85E3F, // G
    0x118FE31, // H
    0x1F2109F, // I
    0x030863F, // J
    0x1197251, // K
    0x108421F, // L
    0x11DD631, // M
    0x11CD671, // N
    0x0E8C62E, // O
    0x1E8FA10, // P
    0x0E8C5C3, // Q
    0x1E8FA31, // R
    0x1F87C3F, // S
    0x1F21084, // T
    0x118C63F, // U
    0x118A944, // V
    0x118D6AA, // W
    0x1151151, // X
    0x118A884, // Y
    0x1F1111F  // Z
  ]

  /** The one-entry letter table of chapters 7 and 9: only 'A'. */
  const LETTER_A_ONLY: seq<nat> := [LETTERS[0]]

  /** 2^25: every glyph of the font is below it, so it fits in the 25 bits
      the renderer reads. */
  const GLYPH_LIMIT: nat := 0x200_0000

  ghost predicate Fits(table: seq<nat>) {
    forall k :: 0 <= k < |table| ==> table[k] < GLYPH_LIMIT
  }

  /** `char::to_ascii_uppercase` and C's `toupper` in the "C" locale:
      only 'a'..'z' change. */
  function ToAsciiUpper(c: char): (u: char)
    ensures 'a' <= c <= 'z' ==> u as int == c as int - 32 && 'A' <= u <= 'Z'
    ensures !('a' <= c <= 'z') ==> u == c
  {
    if 'a' <= c <= 'z' then (c as int - 32) as char else c
  }

  predicate IsAsciiAlphanumeric(c: char) {
    '0' <= c <= '9' || 'A' <= c <= 'Z' || 'a' <= c <= 'z'
  }

  datatype Lookup =
    | Glyph(code: nat)   // the glyph to render
    | NotAlphanumeric     // no glyph: the drivers blank the matrix (or, in C, do nothing)
    | PastTable           // the index is past the end of the table: a panic in Rust

  /** The glyph `display` chooses for `c`: upper-case it, then index the
      digit table by `c - '0'` or the letter table by `c - 'A'`. */
  function GlyphFor(digits: seq<nat>, letters: seq<nat>, c: char): (l: Lookup)
    ensures l.NotAlphanumeric? <==> !IsAsciiAlphanumeric(c)
    ensures '0' <= c <= '9' && c as int - '0' as int < |digits| ==>
              l == Glyph(digits[c as int - '0' as int])
    ensures 'A' <= c <= 'Z' && c as int - 'A' as int < |letters| ==>
              l == Glyph(letters[c as int - 'A' as int])
    ensures 'a' <= c <= 'z' && c as int - 'a' as int < |letters| ==>
              l == Glyph(letters[c as int - 'a' as int])
  {
    var u := ToAsciiUpper(c);
    if '0' <= u <= '9' then
      var k := u as int - '0' as int;
      if k < |digits| then Glyph(digits[k]) else PastTable
    else if 'A' <= u <= 'Z' then
      var k := u as int - 'A' as int;
      if k < |letters| then Glyph(letters[k]) else PastTable
    else
      NotAlphanumeric
  }

  /** The lookup ignores case: a lower-case letter selects exactly what its
      capital selects, whatever the tables. */
  lemma CaseInsensitive(digits: seq<nat>, letters: seq<nat>, c: char)
    ensures GlyphFor(digits, letters, c) == GlyphFor(digits, letters, ToAsciiUpper(c))
  {
  }

  /** With the full tables every ASCII letter and digit has a glyph, and the
      lookup never runs past a table. */
  lemma FullTablesAreTotal(c: char)
    ensures GlyphFor(DIGITS, LETTERS, c).Glyph? <==> IsAsciiAlphanumeric(c)
    ensures !GlyphFor(DIGITS, LETTERS, c).PastTable?
  {
  }

  /** With the one-entry letter table only 'A'/'a' is an in-bounds letter;
      every other letter indexes past the table. */
  lemma OneLetterTablePanics(digits: seq<nat>, c: char)
    requires |digits| == 10
    ensures GlyphFor(digits, LETTER_A_ONLY, c).PastTable? <==>
              ('B' <= c <= 'Z' || 'b' <= c <= 'z')
  {
  }

  /** All 36 glyphs of the full tables fit in 25 bits. */
  lemma FullTablesFit()
    ensures Fits(DIGITS) && Fits(LETTERS)
  {
  }

  /** Where the one-entry letter table does not run out it agrees with the
      full table. */
  lemma OneLetterTableAgrees(c: char)
    requires !GlyphFor(DIGITS, LETTER_A_ONLY, c).PastTable?
    ensures GlyphFor(DIGITS, LETTER_A_ONLY, c) == GlyphFor(DIGITS, LETTERS, c)
  {
  }
}
