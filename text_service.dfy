/** The user-space text display service of chapter 12 (`text_display`
    application, C). Other processes send it text over IPC, which it copies
    into its 50-byte `BUFFER`; its main loop shows one character of the
    NUL-terminated text per iteration, scrolling through it. The 300 ms
    delay of each iteration, the LED and IPC system calls and the console
    output are left to the environment: one iteration of the loop body is
    `Step`, and the LEDs are an array of 25 outputs. */
module TextService {
  import opened Tock
  import opened Font
  import opened Matrix

  const BUFFER_LEN: nat := 50

  /** `strnlen(s, max)`: the length of the NUL-terminated text at the start
      of `s`, looking at no more than `max` bytes. */
  function StrNLen(s: seq<byte>, max: nat): (n: nat)
    requires max <= |s|
    ensures n <= max
    ensures forall i :: 0 <= i < n ==> s[i] != 0
    ensures n < max ==> s[n] == 0
    decreases max
  {
    if max == 0 then 0
    else
      var m := StrNLen(s, max - 1);
      if m < max - 1 then m else if s[max - 1] == 0 then max - 1 else max
  }

  /** Reference definition of `strncpy(dst, src, n)` on the contents of
      `dst`, which the `StrNCpy` loops are proved to compute: the first `n` bytes
      become those of `src` up to its first NUL, followed by NULs; the rest
      of `dst` is kept. */
  function StrNCopied(dst: seq<byte>, src: seq<byte>, n: nat): (r: seq<byte>)
    requires n <= |dst| && n <= |src|
    ensures |r| == |dst|
    ensures forall i :: n <= i < |dst| ==> r[i] == dst[i]
    ensures forall i :: 0 <= i < n ==> r[i] == if 0 in src[..i] then 0 else src[i]
  {
    seq(|dst|, i requires 0 <= i < |dst| =>
      if i >= n then dst[i] else if 0 in src[..i] then 0 else src[i])
  }

  /** After the copy the buffer holds the sent text, cut to `n` bytes: the
      service's text is the sender's text whenever that fits. */
  lemma {:induction false} CopiedText(dst: seq<byte>, src: seq<byte>, n: nat, k: nat)
    requires n <= |dst| && n <= |src|
    requires k <= n
    requires k < n ==> src[k] == 0
    requires forall i :: 0 <= i < k ==> src[i] != 0
    ensures StrNCopied(dst, src, n)[..k] == src[..k]
    ensures k < n ==> StrNLen(StrNCopied(dst, src, n), n) == k
  {
    var r := StrNCopied(dst, src, n);
    forall i | 0 <= i < k
      ensures r[i] == src[i]
    {
      assert 0 !in src[..i] by {
        forall j | 0 <= j < i
          ensures src[..i][j] != 0
        {
          assert src[..i][j] == src[j];
        }
      }
    }
    if k < n {
      assert r[k] == 0;
      LengthOfTerminated(r, n, k);
    }
  }

  /** A text whose first NUL is at `k` has length `k`. */
  lemma {:induction false} LengthOfTerminated(s: seq<byte>, max: nat, k: nat)
    requires k < max <= |s|
    requires s[k] == 0
    requires forall i :: 0 <= i < k ==> s[i] != 0
    ensures StrNLen(s, max) == k
  {
  }

  /** `led_count` failing, or reporting fewer than 25 LEDs, stops the
      service before its loop. */
  predicate ServiceRuns(countSucceeded: bool, ledCount: int) {
    countSucceeded && ledCount >= NUM_LEDS
  }

  /** The cursor after one iteration of the loop on a text of length `len`,
      as written: reset with no text, one further modulo `len` inside the
      text, and not moved at all when it is past the end of the text. */
  function NextPosition(position: nat, len: nat): (p: nat)
    ensures len == 0 ==> p == 0
    ensures position < len ==> p < len && p == (if position + 1 == len then 0 else position + 1)
    ensures 0 < len <= position ==> p == position
  {
    if len == 0 then 0 else if position < len then (position + 1) % len else position
  }

  /** As written, a cursor left past the end when the text got shorter stays
      there: the service shows nothing new, however long it runs, until a
      text longer than the cursor arrives. For example "HELLO" with the
      cursor at 4, then "HI": the cursor stays at 4 on every iteration. */
  lemma {:induction false} StuckPastShorterText(position: nat, len: nat, k: nat)
    requires 0 < len <= position
    ensures PositionAfter(position, len, k) == position
  {
    if k > 0 {
      StuckPastShorterText(position, len, k - 1);
    }
  }

  function PositionAfter(position: nat, len: nat, k: nat): nat {
    if k == 0 then position else NextPosition(PositionAfter(position, len, k - 1), len)
  }

  /** The evidently intended step: a cursor at or past the end of the text
      starts again at its beginning. */
  function NextPositionWrapped(position: nat, len: nat): (p: nat)
    ensures len > 0 ==> p < len
    ensures position < len ==> p == NextPosition(position, len)
  {
    if len == 0 then 0 else if position < len then (position + 1) % len else 0
  }

  /** With the intended step the cursor is back inside the text after one
      iteration, whatever happened to the text, and from there every
      character is reached. */
  lemma {:induction false} WrappedReachesEveryIndex(position: nat, len: nat, index: nat)
    requires index < len
    ensures PositionAfterWrapped(position, len, WrappedSteps(position, len, index)) == index
  {
    var p := NextPositionWrapped(position, len);
    if index >= p {
      WrappedClimb(p, len, index - p);
    } else {
      WrappedClimb(p, len, len - 1 - p);
      WrappedClimb(0, len, index);
      WrappedAdd(p, len, len - 1 - p + 1, index);
    }
    WrappedAdd(position, len, 1, WrappedSteps(position, len, index) - 1);
  }

  /** How many intended steps take the cursor from `position` to `index`. */
  function WrappedSteps(position: nat, len: nat, index: nat): nat
    requires index < len
  {
    var p := NextPositionWrapped(position, len);
    1 + (if index >= p then index - p else len - p + index)
  }

  function PositionAfterWrapped(position: nat, len: nat, k: nat): nat {
    if k == 0 then position else NextPositionWrapped(PositionAfterWrapped(position, len, k - 1), len)
  }

  lemma {:induction false} WrappedClimb(position: nat, len: nat, k: nat)
    requires position + k < len
    ensures PositionAfterWrapped(position, len, k) == position + k
  {
    if k > 0 {
      WrappedClimb(position, len, k - 1);
    }
  }

  lemma {:induction false} WrappedAdd(position: nat, len: nat, a: nat, b: nat)
    ensures PositionAfterWrapped(position, len, a + b)
         == PositionAfterWrapped(PositionAfterWrapped(position, len, a), len, b)
  {
    if b > 0 {
      WrappedAdd(position, len, a, b - 1);
    }
  }

  class TextService {
    /** LED i of the 25 the service uses. */
    const leds: array<bool>
    /** `BUFFER`: the text to show, NUL-terminated unless all 50 bytes are
        text. */
    const buffer: array<byte>
    var position: nat
    var len: nat

    ghost predicate Valid()
      reads this
    {
      leds.Length == NUM_LEDS && buffer.Length == BUFFER_LEN
    }

    /** The start of `main`: `BUFFER` (zeroed, as static storage is) emptied
        by `strcpy(BUFFER, "")`, `position` and `len` 0. */
    constructor Init(leds: array<bool>)
      requires leds.Length == NUM_LEDS
      ensures Valid() && fresh(buffer)
      ensures this.leds == leds
      ensures buffer[..] == seq(BUFFER_LEN, _ => 0)
      ensures position == 0 && len == 0
    {
      this.leds := leds;
      buffer := new byte[BUFFER_LEN](_ => 0);
      position := 0;
      len := 0;
    }

    /** `main` up to its loop: the service runs only when `led_count`
        succeeds with at least 25 LEDs. */
    static method Start(countSucceeded: bool, ledCount: int, leds: array<bool>)
      returns (r: Option<TextService>)
      requires leds.Length == NUM_LEDS
      ensures r.Some? <==> ServiceRuns(countSucceeded, ledCount)
      ensures r.Some? ==>
        && fresh(r.value) && fresh(r.value.buffer) && r.value.Valid() && r.value.leds == leds
        && StrNLen(r.value.buffer[..], BUFFER_LEN) == 0
        && r.value.position == 0 && r.value.len == 0
    {
      if !(countSucceeded && ledCount >= NUM_LEDS) {
        return None;
      }
      var s := new TextService.Init(leds);
      LengthOfTerminated(s.buffer[..], BUFFER_LEN, 0);
      return Some(s);
    }

    /** `display_code(code)`: LED i shows bit `NUM_LEDS - 1 - i` of the
        code. */
    method DisplayCode(code: nat)
      requires Valid()
      modifies leds
      ensures leds[..] == Pattern(code)
    {
      ShowGlyph(leds, code);
    }

    /** `clear`: every LED off. */
    method Clear()
      requires Valid()
      modifies leds
      ensures leds[..] == Blank()
    {
      ShowBlank(leds);
    }

    /** `display(c)`: the upper-cased digit or letter's glyph; any other
        character leaves the LEDs as they are. */
    method Display(c: char)
      requires Valid()
      modifies leds
      ensures leds[..] == if IsAsciiAlphanumeric(c) then Displayed(c) else old(leds[..])
    {
      var u := ToAsciiUpper(c);
      FullTablesAreTotal(c);
      if '0' <= u <= '9' {
        DisplayCode(DIGITS[u as int - '0' as int]);
      } else if 'A' <= u <= 'Z' {
        DisplayCode(LETTERS[u as int - 'A' as int]);
      }
    }

    /** `ipc_callback`: a NULL buffer is ignored; otherwise `strncpy` copies
        at most `MIN(BUFFER_LEN, len)` bytes of it into `BUFFER`, never past
        its end. */
    method IpcCallback(shared: Option<seq<byte>>, len: nat)
      requires Valid()
      requires shared.Some? ==> Min(BUFFER_LEN, len) <= |shared.value|
      modifies buffer
      ensures shared.None? ==> buffer[..] == old(buffer[..])
      ensures shared.Some? ==>
        buffer[..] == StrNCopied(old(buffer[..]), shared.value, Min(BUFFER_LEN, len))
    {
      if shared.Some? {
        StrNCpy(shared.value, Min(BUFFER_LEN, len));
      }
    }

    /** `strncpy(BUFFER, src, n)`. */
    method StrNCpy(src: seq<byte>, n: nat)
      requires Valid()
      requires n <= BUFFER_LEN && n <= |src|
      modifies buffer
      ensures buffer[..] == StrNCopied(old(buffer[..]), src, n)
    {
      var i := 0;
      while i < n && src[i] != 0
        invariant 0 <= i <= n
        invariant 0 !in src[..i]
        invariant forall j :: 0 <= j < i ==> buffer[j] == src[j]
        invariant forall j :: i <= j < BUFFER_LEN ==> buffer[j] == old(buffer[j])
      {
        buffer[i] := src[i];
        assert src[..i + 1] == src[..i] + [src[i]];
        i := i + 1;
      }
      ghost var nul := i;
      while i < n
        invariant nul <= i <= n
        invariant nul < n ==> src[nul] == 0
        invariant forall j :: 0 <= j < nul ==> buffer[j] == src[j]
        invariant forall j :: nul <= j < i ==> buffer[j] == 0
        invariant forall j :: i <= j < BUFFER_LEN ==> buffer[j] == old(buffer[j])
      {
        buffer[i] := 0;
        i := i + 1;
      }
      forall j | 0 <= j < n
        ensures buffer[j] == if 0 in src[..j] then 0 else src[j]
      {
        if j < nul {
          assert src[..j] == src[..nul][..j];
        } else if j > nul {
          assert src[..j][nul] == 0;
        }
      }
      assert buffer[..] == StrNCopied(old(buffer[..]), src, n);
    }

    /** One iteration of the service loop: measure the text; with none,
        reset the cursor and blank the matrix; with the cursor inside the
        text, step it (wrapping) and show the character under it; with the
        cursor past the end of a shorter text, do nothing. */
    method Step()
      requires Valid()
      modifies this`position, this`len, leds
      ensures len == StrNLen(buffer[..], BUFFER_LEN)
      ensures position == NextPosition(old(position), len)
      ensures len == 0 ==> leds[..] == Blank()
      ensures 0 < len && old(position) < len ==>
        var c := CharOf(buffer[position]);
        leds[..] == if IsAsciiAlphanumeric(c) then Displayed(c) else old(leds[..])
      ensures 0 < len <= old(position) ==> leds[..] == old(leds[..])
    {
      len := StrNLen(buffer[..], BUFFER_LEN);
      if len == 0 {
        position := 0;
        Clear();
      } else if position < len {
        position := (position + 1) % len;
        Display(CharOf(buffer[position]));
      }
    }
  }
}
