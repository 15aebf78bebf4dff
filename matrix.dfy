/** The 5x5 LED matrix and the renderer used by the drivers of chapters 8,
    9, 10 and 12: LED i (0 = upper left, 24 = lower right) shows bit 24 - i
    of the glyph. The matrix is an `array<bool>` of 25 outputs, `true` = on. */
module Matrix {
  import opened Tock
  import opened Font

  const NUM_LEDS: nat := 25

  /** Whether `print(glyph)` turns LED `index` on: bit `24 - index` of the
      glyph, `(glyph >> (24 - index)) & 1 == 1`. */
  function LedOn(glyph: nat, index: nat): bool
    requires index < NUM_LEDS
  {
    Shr(glyph, 24 - index) % 2 == 1
  }

  /** The state of the 25 LEDs after `print(glyph)`. */
  function Pattern(glyph: nat): (p: seq<bool>)
    ensures |p| == NUM_LEDS
    ensures forall i :: 0 <= i < NUM_LEDS ==> p[i] == LedOn(glyph, i)
  {
    seq(NUM_LEDS, i requires 0 <= i < NUM_LEDS => LedOn(glyph, i))
  }

  /** The state of the 25 LEDs after `clear()`: all off. */
  function Blank(): (p: seq<bool>)
    ensures |p| == NUM_LEDS
    ensures forall i :: 0 <= i < NUM_LEDS ==> !p[i]
  {
    seq(NUM_LEDS, _ => false)
  }

  /** What the matrix shows for the outcome of a glyph lookup that did not
      panic: the glyph, or nothing. */
  function Draws(l: Lookup): (p: seq<bool>)
    ensures |p| == NUM_LEDS
  {
    if l.Glyph? then Pattern(l.code) else Blank()
  }

  /** What a character looks like on a driver with the full tables: its glyph
      if it has one, and a blank matrix otherwise. */
  function Displayed(c: char): (p: seq<bool>)
    ensures |p| == NUM_LEDS
    ensures IsAsciiAlphanumeric(c) <==> p != Blank()
  {
    FullTablesAreTotal(c);
    FullTablesFit();
    var l := GlyphFor(DIGITS, LETTERS, c);
    if l.Glyph? then
      GlyphLightsSomething(l.code);
      Pattern(l.code)
    else
      Blank()
  }

  /** A lower-case letter looks exactly like its capital. */
  lemma DisplayedIgnoresCase(c: char)
    ensures Displayed(c) == Displayed(ToAsciiUpper(c))
  {
    CaseInsensitive(DIGITS, LETTERS, c);
  }

  /** Reads a glyph back off the LEDs, most significant bit first: the
      reference inverse of `Pattern`. */
  function GlyphOf(leds: seq<bool>): nat {
    PrefixValue(leds, |leds|)
  }

  /** The number whose bits, most significant first, are the first `n` LEDs. */
  function PrefixValue(leds: seq<bool>, n: nat): nat
    requires n <= |leds|
  {
    if n == 0 then 0 else 2 * PrefixValue(leds, n - 1) + (if leds[n - 1] then 1 else 0)
  }

  /** Reading back the first `n` LEDs gives the top `n` of the glyph's 25
      bits. */
  lemma {:induction false} PrefixRoundTrip(glyph: nat, n: nat)
    requires glyph < GLYPH_LIMIT
    requires n <= NUM_LEDS
    ensures PrefixValue(Pattern(glyph), n) == Shr(glyph, 25 - n)
  {
    if n == 0 {
      Pow2Of25();
      ShrNonZero(glyph, 25);
    } else {
      PrefixRoundTrip(glyph, n - 1);
      ShrOneMore(glyph, 25 - n);
    }
  }

  /** Rendering loses nothing: a glyph that fits in 25 bits is read back
      exactly from the LEDs it lights. */
  lemma PatternRoundTrip(glyph: nat)
    requires glyph < GLYPH_LIMIT
    ensures GlyphOf(Pattern(glyph)) == glyph
  {
    PrefixRoundTrip(glyph, NUM_LEDS);
  }

  /** So two different glyphs never look the same. */
  lemma PatternInjective(g: nat, h: nat)
    requires g < GLYPH_LIMIT && h < GLYPH_LIMIT
    ensures Pattern(g) == Pattern(h) <==> g == h
  {
    if Pattern(g) == Pattern(h) {
      PatternRoundTrip(g);
      PatternRoundTrip(h);
    }
  }

  /** Only the empty glyph renders as a blank matrix. */
  lemma GlyphLightsSomething(g: nat)
    requires 0 < g < GLYPH_LIMIT
    ensures Pattern(g) != Blank()
  {
    PatternRoundTrip(g);
    PatternRoundTrip(0);
    forall i | 0 <= i < NUM_LEDS
      ensures !Pattern(0)[i]
    {
      ShrNonZero(0, 24 - i);
    }
    assert Pattern(0) == Blank();
  }

  /** `print(glyph)`: set each of the 25 LEDs from its bit of the glyph. */
  method ShowGlyph(leds: array<bool>, glyph: nat)
    requires leds.Length == NUM_LEDS
    modifies leds
    ensures leds[..] == Pattern(glyph)
  {
    for index := 0 to NUM_LEDS
      invariant forall i :: 0 <= i < index ==> leds[i] == LedOn(glyph, i)
    {
      leds[index] := Shr(glyph, 24 - index) % 2 == 1;
    }
  }

  /** `clear()`: turn all 25 LEDs off. */
  method ShowBlank(leds: array<bool>)
    requires leds.Length == NUM_LEDS
    modifies leds
    ensures leds[..] == Blank()
  {
    for index := 0 to NUM_LEDS
      invariant forall i :: 0 <= i < index ==> !leds[i]
    {
      leds[index] := false;
    }
  }

  /** `display(c)` of the drivers without an enable flag (chapters 8 and 9,
      and chapter 10 when enabled): render the glyph of the upper-cased
      character; for any other character blank the matrix and report INVAL. */
  method ShowCharacter(leds: array<bool>, c: char) returns (r: Result)
    requires leds.Length == NUM_LEDS
    modifies leds
    ensures leds[..] == Displayed(c)
    ensures r == Ok <==> IsAsciiAlphanumeric(c)
    ensures r != Ok ==> r == Err(INVAL)
  {
    FullTablesAreTotal(c);
    var l := GlyphFor(DIGITS, LETTERS, c);
    if l.Glyph? {
      ShowGlyph(leds, l.code);
      r := Ok;
    } else {
      ShowBlank(leds);
      r := Err(INVAL);
    }
  }

  /** `display(c)` of a driver whose tables may be short: a lookup past the
      end of a table panics; otherwise as with the full tables. */
  method ShowFromTables(leds: array<bool>, digits: seq<nat>, letters: seq<nat>, c: char)
    returns (r: Outcome<Result>)
    requires leds.Length == NUM_LEDS
    modifies leds
    ensures r.Panics? <==> GlyphFor(digits, letters, c).PastTable?
    ensures r.Returns? ==> leds[..] == Draws(GlyphFor(digits, letters, c))
    ensures r.Returns? ==> r.value == (if IsAsciiAlphanumeric(c) then Ok else Err(INVAL))
  {
    var l := GlyphFor(digits, letters, c);
    if l.PastTable? {
      return Panics;
    } else if l.Glyph? {
      ShowGlyph(leds, l.code);
      return Returns(Ok);
    } else {
      ShowBlank(leds);
      return Returns(Err(INVAL));
    }
  }
}
