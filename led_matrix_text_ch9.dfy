/** The earlier scrolling text-screen driver of chapter 9 (`LedMatrixText`).
    It has the same structure as the chapter 10 driver, and differs from it
    in four ways: `print` copies the whole text without clamping it to the
    driver's buffer, so a text longer than the buffer panics; `print` starts
    scrolling whenever there was no text before; `display_next` leaves the
    matrix alone when there is no text; and its letter table holds only 'A',
    so showing any other letter panics.

    Collaborators are plain state: the 25 LEDs are `leds`, each arming of the
    alarm is logged in `alarms` (its delay in milliseconds), the deferred
    call request is `pending`, and the notifications sent to the client are
    logged in `notifications`. */
module LedMatrixTextCh9 {
  import opened Tock
  import opened Font
  import opened Matrix
  import Scroll

  /** One request at a time: `Idle` accepts, the other two wait for the
      deferred call. */
  datatype Status = Idle | ExecutesCommand | ExecutesPrint

  /** What the driver tells its `TextScreenClient`. */
  datatype Notification =
    | CommandComplete(result: Result)
    | WriteComplete(buffer: array<byte>, len: nat, result: Result)

  /** The answer of `TextScreen::print`: accepted, or refused with the
      client's buffer handed straight back. */
  datatype PrintAnswer = Accepted | Refused(code: ErrorCode, buffer: array<byte>)

  /** Whether `display(c)` panics: only when enabled, for a letter past the
      one-entry letter table. */
  predicate DisplayPanics(enabled: bool, c: char) {
    enabled && GlyphFor(DIGITS, LETTER_A_ONLY, c).PastTable?
  }

  /** What the matrix shows after a `display(c)` that did not panic: the
      character when the display is enabled, nothing when it is disabled. */
  function Shows(enabled: bool, c: char): (p: seq<bool>)
    requires !DisplayPanics(enabled, c)
    ensures |p| == NUM_LEDS
    ensures p == (if enabled then Displayed(c) else Blank())
  {
    if enabled then
      OneLetterTableAgrees(c);
      Draws(GlyphFor(DIGITS, LETTER_A_ONLY, c))
    else
      Blank()
  }

  class LedMatrixText {
    /** LED 0 is upper left, LED 24 lower right. */
    const leds: array<bool>
    /** The driver's own text buffer; its length is the screen's width. */
    const buffer: array<byte>
    /** The index of the character `display_next` shows next. */
    var position: nat
    /** The length of the text stored in `buffer`. */
    var len: nat
    /** The client's buffer of the print in progress, until it is handed back. */
    var clientBuffer: Option<array<byte>>
    /** How many bytes of that print were copied into `buffer`. */
    var clientLen: nat
    /** Milliseconds each character stays on the matrix (a `u32`). */
    var speed: nat
    var status: Status
    /** Disabled, the driver keeps scrolling but shows nothing. */
    var isEnabled: bool
    /** Whether the deferred call handle has been set. */
    var hasHandle: bool
    /** Whether a deferred call has been requested from the kernel. */
    var pending: bool
    /** Whether a `TextScreenClient` is registered. */
    var hasClient: bool
    ghost var alarms: seq<nat>
    ghost var notifications: seq<Notification>

    ghost predicate Valid()
      reads this
    {
      && leds.Length == NUM_LEDS
      && position <= len <= buffer.Length
      && speed < U32_MODULUS
      && (status == ExecutesPrint ==> clientBuffer.Some?)
      && (clientBuffer.Some? ==> clientBuffer.value != buffer)
    }

    constructor Init(leds: array<bool>, buffer: array<byte>, speed: nat)
      requires leds.Length == NUM_LEDS
      requires speed < U32_MODULUS
      ensures Valid()
      ensures this.leds == leds && this.buffer == buffer && this.speed == speed
      ensures position == 0 && len == 0 && clientBuffer == None && clientLen == 0
      ensures status == Idle && !isEnabled && !hasHandle && !pending && !hasClient
      ensures alarms == [] && notifications == []
    {
      this.leds := leds;
      this.buffer := buffer;
      this.speed := speed;
      position := 0;
      len := 0;
      clientBuffer := None;
      clientLen := 0;
      status := Idle;
      isEnabled := false;
      hasHandle := false;
      pending := false;
      hasClient := false;
      alarms := [];
      notifications := [];
    }

    /** `new`: panics unless exactly 25 LEDs are supplied; the driver starts
        idle, disabled, with an empty text and no client. */
    static method New(leds: array<bool>, buffer: array<byte>, speed: nat)
      returns (r: Outcome<LedMatrixText>)
      requires speed < U32_MODULUS
      ensures r.Panics? <==> leds.Length != NUM_LEDS
      ensures r.Returns? ==>
        && fresh(r.value) && r.value.Valid()
        && r.value.leds == leds && r.value.buffer == buffer && r.value.speed == speed
        && r.value.position == 0 && r.value.len == 0 && r.value.clientBuffer == None
        && r.value.status == Idle && !r.value.isEnabled
        && !r.value.hasHandle && !r.value.pending && !r.value.hasClient
        && r.value.alarms == [] && r.value.notifications == []
    {
      if leds.Length != NUM_LEDS {
        return Panics;
      }
      var d := new LedMatrixText.Init(leds, buffer, speed);
      return Returns(d);
    }

    /** `initialize_callback_handle`. */
    method InitializeCallbackHandle()
      modifies this`hasHandle
      ensures hasHandle
    {
      hasHandle := true;
    }

    /** `schedule_deferred_callback`: asks for a deferred call, which needs
        the handle; without one nothing happens. */
    method ScheduleDeferredCallback()
      modifies this`pending
      ensures pending == (old(pending) || hasHandle)
    {
      if hasHandle {
        pending := true;
      }
    }

    /** `display`: when enabled, the upper-cased character's glyph, or a
        blank matrix and INVAL for a character without one, or a panic for a
        letter other than 'A'; when disabled, a blank matrix and Ok. */
    method Display(c: char) returns (r: Outcome<Result>)
      requires Valid()
      modifies leds
      ensures r.Panics? <==> DisplayPanics(isEnabled, c)
      ensures r.Returns? ==>
        && leds[..] == Shows(isEnabled, c)
        && r.value == (if isEnabled && !IsAsciiAlphanumeric(c) then Err(INVAL) else Ok)
    {
      if isEnabled {
        r := ShowFromTables(leds, DIGITS, LETTER_A_ONLY, c);
      } else {
        ShowBlank(leds);
        r := Returns(Ok);
      }
    }

    /** `display_next`: wrap the cursor at the end of the text, show the
        character under it and step past it (whatever `display` answers),
        then re-arm the alarm for `speed` milliseconds. With no text nothing
        happens at all: the matrix keeps what it showed. */
    method DisplayNext() returns (o: Outcome<()>)
      requires Valid()
      modifies this`position, leds, this`alarms
      ensures o.Panics? <==>
        len > 0 && DisplayPanics(isEnabled, CharOf(buffer[Scroll.Wrap(old(position), len)]))
      ensures o.Returns? ==> Valid() && position == Scroll.Advance(old(position), len)
      ensures o.Returns? && len == 0 ==> leds[..] == old(leds[..]) && alarms == old(alarms)
      ensures o.Returns? && len > 0 ==>
        && leds[..] == Shows(isEnabled, CharOf(buffer[Scroll.Wrap(old(position), len)]))
        && alarms == old(alarms) + [speed]
    {
      if position >= len {
        position := 0;
      }
      if position < len {
        if position < buffer.Length {
          var shown := Display(CharOf(buffer[position]));
          if shown.Panics? {
            return Panics;
          }
          position := position + 1;
        } else {
          // The driver's check against overflowing its buffer cannot fail:
          // the text never outgrows the buffer.
          assert false;
        }
      }
      if len > 0 {
        alarms := alarms + [speed];
      }
      return Returns(());
    }

    /** `AlarmClient::alarm`: the current character has been shown long
        enough; show the next one. */
    method Alarm() returns (o: Outcome<()>)
      requires Valid()
      modifies this`position, leds, this`alarms
      ensures o.Panics? <==>
        len > 0 && DisplayPanics(isEnabled, CharOf(buffer[Scroll.Wrap(old(position), len)]))
      ensures o.Returns? ==> Valid() && position == Scroll.Advance(old(position), len)
      ensures o.Returns? && len == 0 ==> leds[..] == old(leds[..]) && alarms == old(alarms)
      ensures o.Returns? && len > 0 ==>
        && leds[..] == Shows(isEnabled, CharOf(buffer[Scroll.Wrap(old(position), len)]))
        && alarms == old(alarms) + [speed]
    {
      o := DisplayNext();
    }

    /** The deferred call: report the request that has finished to the
        client, if there is one, and become idle. A finished print hands the
        client's buffer back, with the number of bytes copied. */
    method Call()
      requires Valid()
      modifies this`status, this`clientBuffer, this`notifications, this`pending
      ensures Valid()
      ensures status == Idle && !pending
      ensures old(status) == Idle ==>
        clientBuffer == old(clientBuffer) && notifications == old(notifications)
      ensures old(status) == ExecutesCommand ==>
        && clientBuffer == old(clientBuffer)
        && notifications == old(notifications) + (if hasClient then [CommandComplete(Ok)] else [])
      ensures old(status) == ExecutesPrint && hasClient ==>
        && clientBuffer == None
        && notifications == old(notifications) + [WriteComplete(old(clientBuffer).value, clientLen, Ok)]
      ensures old(status) == ExecutesPrint && !hasClient ==>
        clientBuffer == old(clientBuffer) && notifications == old(notifications)
    {
      pending := false;
      match status {
        case Idle =>
        case ExecutesCommand =>
          if hasClient {
            notifications := notifications + [CommandComplete(Ok)];
          }
        case ExecutesPrint =>
          if hasClient {
            var b := clientBuffer.value;
            clientBuffer := None;
            notifications := notifications + [WriteComplete(b, clientLen, Ok)];
          }
      }
      status := Idle;
    }

    /** `set_client`: register a client, or remove it. */
    method SetClient(client: bool)
      modifies this`hasClient
      ensures hasClient == client
    {
      hasClient := client;
    }

    /** `get_size`: one row as wide as the driver's buffer. */
    method GetSize() returns (columns: nat, rows: nat)
      ensures columns == buffer.Length && rows == 1
    {
      return buffer.Length, 1;
    }

    /** `TextScreen::print`: copy the client's text into the driver's
        buffer, keep the client's buffer until the deferred call hands it
        back, and start scrolling at once if there was no text before, even
        when the new text is empty too. The copy is not clamped to the
        driver's buffer: a text longer than it panics once the buffer is
        full. BUSY and SIZE refuse the request as in chapter 10. */
    method Print(src: array<byte>, n: nat) returns (o: Outcome<PrintAnswer>)
      requires Valid()
      requires src != buffer
      modifies this, buffer, leds
      ensures old(status) != Idle ==>
        o == Returns(Refused(BUSY, src)) && unchanged(this) && unchanged(buffer) && unchanged(leds)
      ensures old(status) == Idle && n > src.Length ==>
        o == Returns(Refused(SIZE, src)) && unchanged(this) && unchanged(buffer) && unchanged(leds)
      ensures old(status) == Idle && n <= src.Length && n > buffer.Length ==>
        o.Panics? && buffer[..] == Overwrite(old(buffer[..]), src[..], buffer.Length)
      ensures old(status) == Idle && n <= src.Length && n <= buffer.Length ==>
        && (o.Panics? <==>
              old(len) == 0 && n > 0 && DisplayPanics(isEnabled, CharOf(src[0])))
        && buffer[..] == Overwrite(old(buffer[..]), src[..], n)
        && (o.Returns? ==>
              && o.value == Accepted
              && Valid()
              && len == (if n < old(len) then old(len) else n)
              && clientBuffer == Some(src) && clientLen == n
              && status == ExecutesPrint
              && pending == (old(pending) || hasHandle)
              && speed == old(speed) && isEnabled == old(isEnabled) && hasHandle == old(hasHandle)
              && hasClient == old(hasClient) && notifications == old(notifications)
              && (if old(len) == 0 && n != 0 then
                    && position == 1
                    && leds[..] == Shows(isEnabled, CharOf(buffer[0]))
                    && alarms == old(alarms) + [speed]
                  else
                    && position == old(position)
                    && leds[..] == old(leds[..]) && alarms == old(alarms)))
    {
      if status != Idle {
        return Returns(Refused(BUSY, src));
      }
      if n > src.Length {
        return Returns(Refused(SIZE, src));
      }
      var previousLen := len;
      if n > buffer.Length {
        // `buf[position]` is out of bounds once `position` reaches the
        // driver's buffer length.
        CopyPrefix(buffer, src, buffer.Length);
        return Panics;
      }
      CopyPrefix(buffer, src, n);
      len := if n < len then len else n;
      clientBuffer := Some(src);
      clientLen := n;
      status := ExecutesPrint;
      ScheduleDeferredCallback();
      if previousLen == 0 {
        var shown := DisplayNext();
        if shown.Panics? {
          return Panics;
        }
      }
      return Returns(Accepted);
    }

    /** `set_cursor`, `hide_cursor`, `show_cursor`, `blink_cursor_on` and
        `blink_cursor_off`: the matrix has no cursor. */
    method SetCursor(x: nat, y: nat) returns (r: Result)
      ensures r == Err(NOSUPPORT)
    {
      return Err(NOSUPPORT);
    }

    method HideCursor() returns (r: Result)
      ensures r == Err(NOSUPPORT)
    {
      return Err(NOSUPPORT);
    }

    method ShowCursor() returns (r: Result)
      ensures r == Err(NOSUPPORT)
    {
      return Err(NOSUPPORT);
    }

    method BlinkCursorOn() returns (r: Result)
      ensures r == Err(NOSUPPORT)
    {
      return Err(NOSUPPORT);
    }

    method BlinkCursorOff() returns (r: Result)
      ensures r == Err(NOSUPPORT)
    {
      return Err(NOSUPPORT);
    }

    /** `display_on` and `display_off`: from Idle, set the enable flag and
        wait for the deferred call; otherwise BUSY and no change. */
    method SetEnabled(enable: bool) returns (r: Result)
      requires Valid()
      modifies this`status, this`isEnabled, this`pending
      ensures Valid()
      ensures old(status) != Idle ==> r == Err(BUSY) && unchanged(this)
      ensures old(status) == Idle ==>
        && r == Ok && status == ExecutesCommand && isEnabled == enable
        && pending == (old(pending) || hasHandle)
    {
      if status != Idle {
        return Err(BUSY);
      }
      status := ExecutesCommand;
      isEnabled := enable;
      ScheduleDeferredCallback();
      return Ok;
    }

    method DisplayOn() returns (r: Result)
      requires Valid()
      modifies this`status, this`isEnabled, this`pending
      ensures Valid()
      ensures old(status) != Idle ==> r == Err(BUSY) && unchanged(this)
      ensures old(status) == Idle ==>
        && r == Ok && status == ExecutesCommand && isEnabled
        && pending == (old(pending) || hasHandle)
    {
      r := SetEnabled(true);
    }

    method DisplayOff() returns (r: Result)
      requires Valid()
      modifies this`status, this`isEnabled, this`pending
      ensures Valid()
      ensures old(status) != Idle ==> r == Err(BUSY) && unchanged(this)
      ensures old(status) == Idle ==>
        && r == Ok && status == ExecutesCommand && !isEnabled
        && pending == (old(pending) || hasHandle)
    {
      r := SetEnabled(false);
    }

    /** `TextScreen::clear`: from Idle, forget the text, blank the matrix and
        wait for the deferred call; otherwise BUSY and no change. */
    method Clear() returns (r: Result)
      requires Valid()
      modifies this`status, this`position, this`len, this`pending, leds
      ensures Valid()
      ensures old(status) != Idle ==> r == Err(BUSY) && unchanged(this) && unchanged(leds)
      ensures old(status) == Idle ==>
        && r == Ok && status == ExecutesCommand && position == 0 && len == 0
        && leds[..] == Blank() && pending == (old(pending) || hasHandle)
    {
      if status != Idle {
        return Err(BUSY);
      }
      status := ExecutesCommand;
      position := 0;
      len := 0;
      ShowBlank(leds);
      ScheduleDeferredCallback();
      return Ok;
    }

    /** `command`: 0 answers that the driver exists, 1 sets the speed to
        `r2 as u32`, every other number is NOSUPPORT. */
    method Command(commandNumber: nat, r2: nat, process: ProcessId) returns (r: CommandReturn)
      requires Valid()
      modifies this`speed
      ensures Valid()
      ensures commandNumber == 0 ==> r == Success && speed == old(speed)
      ensures commandNumber == 1 ==> r == Success && speed == AsU32(r2)
      ensures commandNumber > 1 ==> r == Failure(NOSUPPORT) && speed == old(speed)
    {
      if commandNumber == 0 {
        return Success;
      } else if commandNumber == 1 {
        speed := AsU32(r2);
        return Success;
      }
      return Failure(NOSUPPORT);
    }
  }
}
