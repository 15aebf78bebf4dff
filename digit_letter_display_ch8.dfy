/** The single-character display driver of chapter 8
    (`DigitLetterDisplay`): command 1 shows one ASCII digit or letter on the
    5x5 matrix. The driver keeps no state besides its 25 LEDs, which its type
    already fixes at 25. */
module DigitLetterDisplayCh8 {
  import opened Tock
  import opened Font
  import opened Matrix

  class DigitLetterDisplay {
    /** LED 0 is upper left, LED 24 lower right. */
    const leds: array<bool>

    /** `new`. */
    constructor(leds: array<bool>)
      requires leds.Length == NUM_LEDS
      ensures this.leds == leds
    {
      this.leds := leds;
    }

    /** `print(glyph)`: LED i shows bit `24 - i` of the glyph. */
    method Print(glyph: nat)
      requires leds.Length == NUM_LEDS
      modifies leds
      ensures leds[..] == Pattern(glyph)
    {
      ShowGlyph(leds, glyph);
    }

    /** `clear`: every LED off. */
    method Clear()
      requires leds.Length == NUM_LEDS
      modifies leds
      ensures leds[..] == Blank()
    {
      ShowBlank(leds);
    }

    /** `display`: the glyph of the upper-cased character, or a blank matrix
        and INVAL for a character that is no ASCII digit or letter. */
    method Display(c: char) returns (r: Result)
      requires leds.Length == NUM_LEDS
      modifies leds
      ensures leds[..] == Displayed(c)
      ensures r == (if IsAsciiAlphanumeric(c) then Ok else Err(INVAL))
    {
      r := ShowCharacter(leds, c);
    }

    /** `allocate_grant`: the driver keeps no per-process data. */
    method AllocateGrant(process: ProcessId) returns (r: Result)
      ensures r == Ok
    {
      return Ok;
    }

    /** `command`: 0 answers that the driver exists; 1 shows the character
        whose code is the low byte of `r2` and fails with INVAL when it has
        no glyph; every other number is NOSUPPORT. Only command 1 touches the
        LEDs. */
    method Command(commandNumber: nat, r2: nat, process: ProcessId) returns (r: CommandReturn)
      requires leds.Length == NUM_LEDS
      modifies leds
      ensures commandNumber != 1 ==> leds[..] == old(leds[..])
      ensures commandNumber == 0 ==> r == Success
      ensures commandNumber == 1 ==>
        var c := CharOf(AsU8(r2));
        && leds[..] == Displayed(c)
        && r == (if IsAsciiAlphanumeric(c) then Success else Failure(INVAL))
      ensures commandNumber > 1 ==> r == Failure(NOSUPPORT)
    {
      if commandNumber == 0 {
        return Success;
      } else if commandNumber == 1 {
        var shown := Display(CharOf(AsU8(r2)));
        return if shown.Ok? then Success else Failure(shown.code);
      }
      return Failure(NOSUPPORT);
    }
  }
}
