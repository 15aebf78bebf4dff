/** The first single-character display driver, of chapter 7
    (`DigitLetterDisplay`). Its renderer differs from every later chapter's:
    LED i is lit when `glyph >> (25 - i)` is non-zero, with no `& 1` mask,
    so an LED shows whether the glyph has any bit at or above position
    `25 - i`, not the glyph's bit `24 - i`. Its digit table draws '3'
    differently from the later chapters, and its letter table holds only
    'A', so a letter past 'A' panics. */
module DigitLetterDisplayCh7 {
  import opened Tock
  import opened Font
  import opened Matrix

  /** The digit table of chapter 7: the later table, with another '3'. */
  const DIGITS_CH7: seq<nat> := DIGITS[3 := 0x1E0F85F]

  /** Whether `print(glyph)` lights LED `index`: `glyph >> (25 - index) != 0`. */
  function LedOnUnmasked(glyph: nat, index: nat): bool
    requires index < NUM_LEDS
  {
    Shr(glyph, 25 - index) != 0
  }

  /** The 25 LEDs after this chapter's `print(glyph)`. */
  function PatternUnmasked(glyph: nat): (p: seq<bool>)
    ensures |p| == NUM_LEDS
    ensures forall i :: 0 <= i < NUM_LEDS ==> p[i] == LedOnUnmasked(glyph, i)
  {
    seq(NUM_LEDS, i requires 0 <= i < NUM_LEDS => LedOnUnmasked(glyph, i))
  }

  /** What the matrix shows for a lookup that did not panic. */
  function DrawsUnmasked(l: Lookup): (p: seq<bool>)
    ensures |p| == NUM_LEDS
  {
    if l.Glyph? then PatternUnmasked(l.code) else Blank()
  }

  /** LED i is lit exactly when the glyph is at least 2^(25 - i). */
  lemma UnmaskedThreshold(glyph: nat, index: nat)
    requires index < NUM_LEDS
    ensures LedOnUnmasked(glyph, index) <==> glyph >= Pow2(25 - index)
  {
    ShrNonZero(glyph, 25 - index);
  }

  /** No glyph of 25 bits lights the upper-left LED. */
  lemma FirstLedNeverLit(glyph: nat)
    requires glyph < GLYPH_LIMIT
    ensures !PatternUnmasked(glyph)[0]
  {
    UnmaskedThreshold(glyph, 0);
    Pow2Of25();
  }

  /** The lit LEDs are always a final stretch of the matrix: an LED that is
      lit has every later LED lit too. */
  lemma LitLedsFormSuffix(glyph: nat, i: nat, j: nat)
    requires i <= j < NUM_LEDS
    requires PatternUnmasked(glyph)[i]
    ensures PatternUnmasked(glyph)[j]
  {
    UnmaskedThreshold(glyph, i);
    UnmaskedThreshold(glyph, j);
    Pow2Monotone(25 - j, 25 - i);
  }

  /** So every glyph whose top row starts with a lit LED (bit 24 set) shows
      the same thing: all LEDs but the first. */
  lemma TopBitGlyphsLookAlike(glyph: nat)
    requires Pow2(24) <= glyph < GLYPH_LIMIT
    ensures PatternUnmasked(glyph) == seq(NUM_LEDS, i => i > 0)
  {
    FirstLedNeverLit(glyph);
    forall i | 0 < i < NUM_LEDS
      ensures PatternUnmasked(glyph)[i]
    {
      UnmaskedThreshold(glyph, i);
      Pow2Monotone(25 - i, 24);
    }
  }

  /** As written, nine of the ten digits look the same on the matrix: every
      digit but '1' lights the 24 LEDs after the first, although their
      glyphs differ and the masked renderer tells them apart. */
  lemma DigitsIndistinguishable(d: nat)
    requires d < 10 && d != 1
    ensures PatternUnmasked(DIGITS_CH7[d]) == PatternUnmasked(DIGITS_CH7[0])
    ensures d != 0 ==> Pattern(DIGITS_CH7[d]) != Pattern(DIGITS_CH7[0])
  {
    Pow2Of25();
    assert Pow2(24) == 0x100_0000;
    TopBitGlyphsLookAlike(DIGITS_CH7[d]);
    TopBitGlyphsLookAlike(DIGITS_CH7[0]);
    PatternInjective(DIGITS_CH7[d], DIGITS_CH7[0]);
  }

  class DigitLetterDisplay {
    /** LED 0 is upper left, LED 24 lower right. */
    const leds: array<bool>

    constructor Init(leds: array<bool>)
      requires leds.Length == NUM_LEDS
      ensures this.leds == leds
    {
      this.leds := leds;
    }

    /** `new`: panics unless exactly 25 LEDs are supplied. */
    static method New(leds: array<bool>) returns (r: Outcome<DigitLetterDisplay>)
      ensures r.Panics? <==> leds.Length != NUM_LEDS
      ensures r.Returns? ==> fresh(r.value) && r.value.leds == leds
    {
      if leds.Length != NUM_LEDS {
        return Panics;
      }
      var d := new DigitLetterDisplay.Init(leds);
      return Returns(d);
    }

    /** `print(glyph)`, unmasked. */
    method Print(glyph: nat)
      requires leds.Length == NUM_LEDS
      modifies leds
      ensures leds[..] == PatternUnmasked(glyph)
    {
      for index := 0 to NUM_LEDS
        invariant forall i :: 0 <= i < index ==> leds[i] == LedOnUnmasked(glyph, i)
      {
        leds[index] := Shr(glyph, 25 - index) != 0;
      }
    }

    /** `clear`: every LED off. */
    method Clear()
      requires leds.Length == NUM_LEDS
      modifies leds
      ensures leds[..] == Blank()
    {
      ShowBlank(leds);
    }

    /** `display`: print the upper-cased character's glyph; a letter past
        'A' is past the one-entry table and panics; any other character
        blanks the matrix and is INVAL. */
    method Display(c: char) returns (r: Outcome<Result>)
      requires leds.Length == NUM_LEDS
      modifies leds
      ensures r.Panics? <==> GlyphFor(DIGITS_CH7, LETTER_A_ONLY, c).PastTable?
      ensures r.Returns? ==> leds[..] == DrawsUnmasked(GlyphFor(DIGITS_CH7, LETTER_A_ONLY, c))
      ensures r.Returns? ==> r.value == (if IsAsciiAlphanumeric(c) then Ok else Err(INVAL))
    {
      var l := GlyphFor(DIGITS_CH7, LETTER_A_ONLY, c);
      if l.PastTable? {
        return Panics;
      } else if l.Glyph? {
        Print(l.code);
        return Returns(Ok);
      } else {
        Clear();
        return Returns(Err(INVAL));
      }
    }

    /** `command`: 0 answers that the driver exists; 1 displays the
        character whose code is the low byte of `r2` and reports the result;
        every other number is NOSUPPORT. */
    method Command(commandNumber: nat, r2: nat, process: ProcessId)
      returns (r: Outcome<CommandReturn>)
      requires leds.Length == NUM_LEDS
      modifies leds
      ensures commandNumber != 1 ==> leds[..] == old(leds[..])
      ensures commandNumber == 0 ==> r == Returns(Success)
      ensures commandNumber == 1 ==>
        var c := CharOf(AsU8(r2));
        && (r.Panics? <==> GlyphFor(DIGITS_CH7, LETTER_A_ONLY, c).PastTable?)
        && (r.Returns? ==>
              && leds[..] == DrawsUnmasked(GlyphFor(DIGITS_CH7, LETTER_A_ONLY, c))
              && r.value == (if IsAsciiAlphanumeric(c) then Success else Failure(INVAL)))
      ensures commandNumber > 1 ==> r == Returns(Failure(NOSUPPORT))
    {
      if commandNumber == 0 {
        return Returns(Success);
      } else if commandNumber == 1 {
        var shown := Display(CharOf(AsU8(r2)));
        if shown.Panics? {
          return Panics;
        }
        return Returns(if shown.value.Ok? then Success else Failure(shown.value.code));
      }
      return Returns(Failure(NOSUPPORT));
    }
  }
}
