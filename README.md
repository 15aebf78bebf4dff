# LED matrix drivers of "Getting Started with Secure Embedded Systems"

This project models the 5x5 LED matrix drivers that the book builds up chapter by chapter:

- the single-character display drivers of chapters 7 and 8 (`DigitLetterDisplay`);
- the one-shot, per-process text display of chapters 8 and 9 (`TextDisplay`);
- the scrolling text-screen drivers of chapters 9 and 10 (`LedMatrixText`);
- the user-space scrolling service of chapter 12. It is a C application that receives text over IPC.

Every driver shares three things, and each lives in its own module:

- the glyph tables `DIGITS` and `LETTERS`, with a case-normalising lookup (`Font`);
- the renderer, which turns bit `24 - i` of a glyph into LED `i` (`Matrix`);
- the kernel vocabulary: error codes, results, the `as u32` and `as u8` casts, and the in-place copy loop (`Tock`).

The scrolling cursor of the text-screen drivers is `Scroll`. Each driver variant is a class with the driver's mutable fields.

Collaborators are plain state:

- The matrix is an `array<bool>` of 25 outputs.
- Each arming of the alarm is appended to a ghost log, as its delay in milliseconds.
- A deferred call is a `pending` flag. The kernel's later invocation of it is an explicit call of `Call`.
- Notifications to a `TextScreenClient` and upcalls to a process are ghost logs.
- The kernel's grant is a map from process to `AppData`.
- A Rust panic (an index past the end of an array) is the `Panics` answer of an `Outcome`.

Glyphs are `u32` values, modelled as `nat`. `x >> k` is modelled as `k` halvings (`Tock.Shr`).

The chapter 8 and chapter 9 versions of `TextDisplay` behave alike. They differ only in the kernel API they are written against, so one class, `TextDisplay.TextDisplay`, models both. Its rows below cite one or the other.

The chapter 7 driver uses an unmasked renderer, `glyph >> (25 - i) != 0`. With it, nine of the ten digits light the same LEDs, which is the first finding below. The chapter 12 service never moves a cursor that a shorter text has left past its end, which is the second finding.

## Model

| member | source | states |
|---|---|---|
| Tock.AsU32 | chapter_10/kernel/drivers/src/led_matrix_text.rs:532 | `r2 as u32` is below 2^32 and is `r2` itself when `r2` already fits |
| Tock.AsU8 | chapter_8/kernel/drivers/src/digit_letter_display.rs:185 | `r2 as u8` is the value of `r2` modulo 256, and `r2` itself when it already fits in a byte |
| Tock.CharOf | chapter_10/kernel/drivers/src/led_matrix_text.rs:228 | `b as char` is the character whose code is the byte's value |
| Tock.ShrNonZero | chapter_7/kernel/drivers/src/digit_letter_display.rs:50 | `x >> k` is non-zero exactly when `x >= 2^k` |
| Tock.Overwrite | chapter_10/kernel/drivers/src/led_matrix_text.rs:384-387 | after the copy, the first `k` bytes are the source's and every later byte is unchanged; the length is kept |
| Tock.CopyPrefix | chapter_10/kernel/drivers/src/led_matrix_text.rs:384-387 | the copy loop leaves the destination array equal to `Overwrite` of its old contents |
| Font.ToAsciiUpper | chapter_10/kernel/drivers/src/led_matrix_text.rs:286 | only 'a'..'z' change, each to the capital 32 code points below; every other character is kept |
| Font.GlyphFor | chapter_10/kernel/drivers/src/led_matrix_text.rs:284-305 | there is no glyph exactly for non-alphanumeric characters; a digit selects `digits[c - '0']`, and a capital or lower-case letter selects `letters[c - 'A']` or `letters[c - 'a']` whenever the index is within the table |
| Font.CaseInsensitive | chapter_8/kernel/drivers/src/digit_letter_display.rs:137 | for any tables, the lookup of `c` equals the lookup of its upper-case form |
| Font.FullTablesAreTotal | chapter_10/kernel/drivers/src/led_matrix_text.rs:27-107 | with the 10-digit and 26-letter tables, a character has a glyph exactly when it is an ASCII digit or letter, and the lookup never runs past a table |
| Font.OneLetterTablePanics | chapter_9/kernel/drivers/src/led_matrix_text.rs:41-45 | with the one-entry letter table, a lookup runs past the table exactly for 'B'..'Z' and 'b'..'z' |
| Font.FullTablesFit | chapter_8/kernel/drivers/src/digit_letter_display.rs:16-96 | every glyph of the full tables is below 2^25 |
| Font.OneLetterTableAgrees | chapter_9/kernel/drivers/src/led_matrix_text.rs:146-168 | wherever the one-entry table does not run out, it selects what the full table selects |
| Matrix.Pattern | chapter_10/kernel/drivers/src/led_matrix_text.rs:266-273 | LED `i` of the 25 is on exactly when bit `24 - i` of the glyph is set |
| Matrix.Blank | chapter_10/kernel/drivers/src/led_matrix_text.rs:277-281 | all 25 LEDs are off |
| Matrix.Displayed | chapter_8/kernel/drivers/src/text_display.rs:173-189 | a character lights at least one LED exactly when it is an ASCII digit or letter |
| Matrix.DisplayedIgnoresCase | chapter_8/kernel/drivers/src/text_display.rs:174 | a lower-case letter looks exactly like its capital |
| Matrix.PrefixRoundTrip | chapter_10/kernel/drivers/src/led_matrix_text.rs:267-272 | the first `n` LEDs, read as a binary number, are the top `n` of the glyph's 25 bits |
| Matrix.PatternRoundTrip | chapter_10/kernel/drivers/src/led_matrix_text.rs:266-273 | a glyph below 2^25 is read back exactly from the LEDs it lights |
| Matrix.PatternInjective | chapter_10/kernel/drivers/src/led_matrix_text.rs:266-273 | two glyphs below 2^25 light the same LEDs if and only if they are equal |
| Matrix.GlyphLightsSomething | chapter_10/kernel/drivers/src/led_matrix_text.rs:266-273 | every non-zero glyph below 2^25 lights at least one LED |
| Matrix.ShowGlyph | chapter_8/kernel/drivers/src/text_display.rs:158-165 | the LED loop leaves the matrix showing `Pattern(glyph)` |
| Matrix.ShowBlank | chapter_8/kernel/drivers/src/text_display.rs:167-171 | the loop turns every LED off |
| Matrix.ShowCharacter | chapter_9/kernel/drivers/src/text_display.rs:266-282 | the matrix shows the character's glyph, or is blank; the answer is Ok exactly for ASCII digits and letters, and INVAL otherwise |
| Matrix.ShowFromTables | chapter_9/kernel/drivers/src/led_matrix_text.rs:146-168 | with tables that may be short, the call panics exactly when the lookup runs past a table; otherwise it draws the lookup's glyph or a blank matrix, answering Ok or INVAL |
| Scroll.Wrap | chapter_10/kernel/drivers/src/led_matrix_text.rs:216-219 | the index shown is within a non-empty text: the position itself inside the text, and 0 at or past its end |
| Scroll.Advance | chapter_10/kernel/drivers/src/led_matrix_text.rs:214-238 | after one step the cursor never exceeds `len`, and with text it is one past the index just shown |
| Scroll.ShowsInOrder | chapter_10/kernel/drivers/src/led_matrix_text.rs:214-238 | on an unchanged text, the `k`-th call shows index `Wrap + k` for as long as that is inside the text |
| Scroll.StartsAgain | chapter_10/kernel/drivers/src/led_matrix_text.rs:216-219 | once the last character is shown, the next call shows index 0, and `len` calls later the cursor is back at the end: a cycle of period `len` |
| Scroll.EveryCharacterShown | chapter_10/kernel/drivers/src/led_matrix_text.rs:214-238 | from any cursor, every index of a text of length `len` is shown within the first `len` calls |
| LedMatrixTextCh10.Shows | chapter_10/kernel/drivers/src/led_matrix_text.rs:284-305 | a disabled display is blank; an LED is lit exactly when the display is enabled and the character is an ASCII digit or letter |
| LedMatrixTextCh10.LedMatrixText.New | chapter_10/kernel/drivers/src/led_matrix_text.rs:175-200 | panics exactly when the LED count is not 25; otherwise the driver starts idle and disabled, with no text, no client buffer and empty logs |
| LedMatrixTextCh10.LedMatrixText.InitializeCallbackHandle | chapter_10/kernel/drivers/src/led_matrix_text.rs:203-205 | the deferred call handle is set |
| LedMatrixTextCh10.LedMatrixText.ScheduleDeferredCallback | chapter_10/kernel/drivers/src/led_matrix_text.rs:208-211 | a deferred call is requested exactly when the handle is set |
| LedMatrixTextCh10.LedMatrixText.Display | chapter_10/kernel/drivers/src/led_matrix_text.rs:284-305 | LEDs are `Shows(isEnabled, c)`; INVAL exactly when enabled and `c` has no glyph, otherwise Ok (a disabled display always answers Ok) |
| LedMatrixTextCh10.LedMatrixText.DisplayNext | chapter_10/kernel/drivers/src/led_matrix_text.rs:214-259 | cursor becomes `Scroll.Advance`; with no text the matrix is blanked and no alarm is armed; with text, the character at the wrapped cursor is shown and the alarm is armed for `speed` ms |
| LedMatrixTextCh10.LedMatrixText.Alarm | chapter_10/kernel/drivers/src/led_matrix_text.rs:316-320 | one `display_next`, with the same contract |
| LedMatrixTextCh10.LedMatrixText.Call | chapter_10/kernel/drivers/src/led_matrix_text.rs:326-348 | always ends Idle. From Idle nothing is sent. From ExecutesCommand, `command_complete(Ok)` goes to a registered client. From ExecutesPrint, the parked buffer is handed back once, via `write_complete` with the copied length |
| LedMatrixTextCh10.LedMatrixText.SetClient | chapter_10/kernel/drivers/src/led_matrix_text.rs:353-359 | the client is registered or removed |
| LedMatrixTextCh10.LedMatrixText.GetSize | chapter_10/kernel/drivers/src/led_matrix_text.rs:361-365 | one row with as many columns as the driver's buffer holds |
| LedMatrixTextCh10.LedMatrixText.Print | chapter_10/kernel/drivers/src/led_matrix_text.rs:368-423 | BUSY when not Idle and SIZE when `len` exceeds the client buffer; both hand the same buffer back and change nothing. Otherwise `min(len, capacity)` bytes overwrite the prefix of the driver buffer, `len` becomes the larger of old and copied, the client buffer is parked, the status is ExecutesPrint and a deferred call is requested. The text is shown at once only when the old length was 0 and something was copied |
| LedMatrixTextCh10.LedMatrixText.SetCursor | chapter_10/kernel/drivers/src/led_matrix_text.rs:427-429 | always NOSUPPORT |
| LedMatrixTextCh10.LedMatrixText.HideCursor | chapter_10/kernel/drivers/src/led_matrix_text.rs:431-433 | always NOSUPPORT |
| LedMatrixTextCh10.LedMatrixText.ShowCursor | chapter_10/kernel/drivers/src/led_matrix_text.rs:435-437 | always NOSUPPORT |
| LedMatrixTextCh10.LedMatrixText.BlinkCursorOn | chapter_10/kernel/drivers/src/led_matrix_text.rs:439-441 | always NOSUPPORT |
| LedMatrixTextCh10.LedMatrixText.BlinkCursorOff | chapter_10/kernel/drivers/src/led_matrix_text.rs:443-445 | always NOSUPPORT |
| LedMatrixTextCh10.LedMatrixText.SetEnabled | chapter_10/kernel/drivers/src/led_matrix_text.rs:449-485 | the body shared by `display_on` and `display_off`: BUSY with no change unless Idle; from Idle it sets the flag, enters ExecutesCommand and requests a deferred call |
| LedMatrixTextCh10.LedMatrixText.DisplayOn | chapter_10/kernel/drivers/src/led_matrix_text.rs:449-466 | BUSY with no change unless Idle; from Idle it enables the display, enters ExecutesCommand and requests a deferred call |
| LedMatrixTextCh10.LedMatrixText.DisplayOff | chapter_10/kernel/drivers/src/led_matrix_text.rs:468-485 | the same, but disabling the display |
| LedMatrixTextCh10.LedMatrixText.Clear | chapter_10/kernel/drivers/src/led_matrix_text.rs:487-508 | BUSY with no change unless Idle; from Idle it empties the text, puts the cursor at 0, blanks the matrix, enters ExecutesCommand and requests a deferred call |
| LedMatrixTextCh10.LedMatrixText.AllocateGrant | chapter_10/kernel/drivers/src/led_matrix_text.rs:513-517 | always Ok |
| LedMatrixTextCh10.LedMatrixText.Command | chapter_10/kernel/drivers/src/led_matrix_text.rs:519-537 | 0 succeeds; 1 sets the speed to `r2 as u32`; every other number is NOSUPPORT and keeps the speed |
| LedMatrixTextCh9.Shows | chapter_9/kernel/drivers/src/led_matrix_text.rs:146-168 | where `display` does not panic, an enabled display shows exactly what the full-table drivers show, and a disabled one is blank |
| LedMatrixTextCh9.LedMatrixText.New | chapter_9/kernel/drivers/src/led_matrix_text.rs:71-96 | panics exactly when the LED count is not 25; otherwise the driver starts idle and disabled, with no text |
| LedMatrixTextCh9.LedMatrixText.InitializeCallbackHandle | chapter_9/kernel/drivers/src/led_matrix_text.rs:98-100 | the deferred call handle is set |
| LedMatrixTextCh9.LedMatrixText.ScheduleDeferredCallback | chapter_9/kernel/drivers/src/led_matrix_text.rs:102-105 | a deferred call is requested exactly when the handle is set |
| LedMatrixTextCh9.LedMatrixText.Display | chapter_9/kernel/drivers/src/led_matrix_text.rs:146-168 | panics exactly when enabled and given a letter other than 'A'/'a'; otherwise the LEDs are `Shows(isEnabled, c)`, with INVAL exactly when enabled and `c` has no glyph |
| LedMatrixTextCh9.LedMatrixText.DisplayNext | chapter_9/kernel/drivers/src/led_matrix_text.rs:107-129 | panics exactly when the character at the wrapped cursor panics `display`; with no text nothing changes, LEDs included, and no alarm is armed; with text it shows that character, advances the cursor and arms the alarm for `speed` ms |
| LedMatrixTextCh9.LedMatrixText.Alarm | chapter_9/kernel/drivers/src/led_matrix_text.rs:176-178 | one `display_next`, with the same contract |
| LedMatrixTextCh9.LedMatrixText.Call | chapter_9/kernel/drivers/src/led_matrix_text.rs:182-197 | always ends Idle; notifies as in chapter 10 and hands the parked buffer back once |
| LedMatrixTextCh9.LedMatrixText.SetClient | chapter_9/kernel/drivers/src/led_matrix_text.rs:201-207 | the client is registered or removed |
| LedMatrixTextCh9.LedMatrixText.GetSize | chapter_9/kernel/drivers/src/led_matrix_text.rs:209-211 | one row as wide as the driver's buffer |
| LedMatrixTextCh9.LedMatrixText.Print | chapter_9/kernel/drivers/src/led_matrix_text.rs:213-241 | BUSY and SIZE hand the buffer back unchanged. A text longer than the driver buffer panics after filling the whole buffer. Otherwise exactly `len` bytes are copied, `len` becomes the larger of the two, and `client_len` is `len`. Scrolling starts whenever the old length was 0, and it panics exactly when the first character does |
| LedMatrixTextCh9.LedMatrixText.SetCursor | chapter_9/kernel/drivers/src/led_matrix_text.rs:243-245 | always NOSUPPORT |
| LedMatrixTextCh9.LedMatrixText.HideCursor | chapter_9/kernel/drivers/src/led_matrix_text.rs:247-249 | always NOSUPPORT |
| LedMatrixTextCh9.LedMatrixText.ShowCursor | chapter_9/kernel/drivers/src/led_matrix_text.rs:251-253 | always NOSUPPORT |
| LedMatrixTextCh9.LedMatrixText.BlinkCursorOn | chapter_9/kernel/drivers/src/led_matrix_text.rs:255-257 | always NOSUPPORT |
| LedMatrixTextCh9.LedMatrixText.BlinkCursorOff | chapter_9/kernel/drivers/src/led_matrix_text.rs:259-261 | always NOSUPPORT |
| LedMatrixTextCh9.LedMatrixText.SetEnabled | chapter_9/kernel/drivers/src/led_matrix_text.rs:263-283 | BUSY with no change unless Idle; from Idle it sets the flag, enters ExecutesCommand and requests a deferred call |
| LedMatrixTextCh9.LedMatrixText.DisplayOn | chapter_9/kernel/drivers/src/led_matrix_text.rs:263-272 | as in chapter 10: enables from Idle only |
| LedMatrixTextCh9.LedMatrixText.DisplayOff | chapter_9/kernel/drivers/src/led_matrix_text.rs:274-283 | as in chapter 10: disables from Idle only |
| LedMatrixTextCh9.LedMatrixText.Clear | chapter_9/kernel/drivers/src/led_matrix_text.rs:285-296 | BUSY with no change unless Idle; from Idle it zeroes cursor and length, blanks the matrix and enters ExecutesCommand |
| LedMatrixTextCh9.LedMatrixText.Command | chapter_9/kernel/drivers/src/led_matrix_text.rs:300-315 | 0 succeeds; 1 sets the speed to `r2 as u32`; any other number is NOSUPPORT |
| TextDisplay.Length | chapter_9/kernel/drivers/src/text_display.rs:358-381 | a buffer the kernel cannot reach has length 0; a reachable one has its full length |
| TextDisplay.TickOf | chapter_8/kernel/drivers/src/text_display.rs:128-147 | a tick finishes the run exactly when the cursor has reached the length; it fails exactly when a character remains but the buffer cannot be read |
| TextDisplay.AfterTick | chapter_8/kernel/drivers/src/text_display.rs:128-147 | the cursor advances by one exactly when a character is shown; buffer, length and delay never change, and the cursor stays within the text |
| TextDisplay.Run | chapter_9/kernel/drivers/src/text_display.rs:166-241 | every run ends, with exactly one tick that is not a character: the completion or the failure |
| TextDisplay.RunShowsText | chapter_9/kernel/drivers/src/text_display.rs:187-226 | over a readable buffer, a run shows `buffer[position..len)` once each, in order, and then finishes once |
| TextDisplay.RunOnLostBuffer | chapter_9/kernel/drivers/src/text_display.rs:207-219 | over an unreadable buffer, a run stops at once with the failure, unless the text is already exhausted |
| TextDisplay.TextDisplay.New | chapter_9/kernel/drivers/src/text_display.rs:152-163 | panics exactly when the LED count is not 25; no run is in progress and no process is recorded |
| TextDisplay.TextDisplay.DisplayNext | chapter_9/kernel/drivers/src/text_display.rs:166-241 | does nothing outside a run. With no process or no grant, it only clears `in_progress`. Otherwise the grant becomes `AfterTick`. A shown character re-arms the alarm for `delay_ms`, a failure appends a NOMEM upcall, and the end appends one success upcall. Both of the last two clear `in_progress` |
| TextDisplay.TextDisplay.Alarm | chapter_8/kernel/drivers/src/text_display.rs:267-269 | one `display_next`, with its whole contract. During a run the grant becomes `AfterTick`. A shown character is drawn and the alarm is re-armed for `delay_ms`. An unreadable buffer appends one NOMEM upcall, and the end of the text appends one success upcall; both clear `in_progress` |
| TextDisplay.TextDisplay.AllowReadonly | chapter_9/kernel/drivers/src/text_display.rs:287-324 | number 0 swaps the offered buffer in, resets position, length and delay to 0, and returns the old buffer; a process without a grant gets the offered buffer back with the grant error; every other number returns NOSUPPORT with the offered buffer |
| TextDisplay.TextDisplay.AllocateGrant | chapter_9/kernel/drivers/src/text_display.rs:326-335 | an existing grant is kept; a new one gets the default data when the kernel has room, and the grant error otherwise |
| TextDisplay.TextDisplay.Command | chapter_9/kernel/drivers/src/text_display.rs:337-410 | command 1 fails with BUSY during a run, then with the grant error, then NOMEM for no buffer, then SIZE for `r2` past the buffer, and every refusal changes nothing. On success the process's text is `r2` bytes at `r3` ms from position 0, the process is recorded, and the first tick runs at once. 0 succeeds, other numbers are NOSUPPORT, and neither changes any state or LED |
| DigitLetterDisplayCh8.DigitLetterDisplay.constructor | chapter_8/kernel/drivers/src/digit_letter_display.rs:107-109 | the driver keeps the LEDs it is given |
| DigitLetterDisplayCh8.DigitLetterDisplay.Print | chapter_8/kernel/drivers/src/digit_letter_display.rs:116-123 | LED `i` is on exactly when bit `24 - i` is set |
| DigitLetterDisplayCh8.DigitLetterDisplay.Clear | chapter_8/kernel/drivers/src/digit_letter_display.rs:127-131 | every LED off |
| DigitLetterDisplayCh8.DigitLetterDisplay.Display | chapter_8/kernel/drivers/src/digit_letter_display.rs:134-157 | the character's glyph or a blank matrix; Ok exactly for ASCII digits and letters, INVAL otherwise |
| DigitLetterDisplayCh8.DigitLetterDisplay.AllocateGrant | chapter_8/kernel/drivers/src/digit_letter_display.rs:162-166 | always Ok |
| DigitLetterDisplayCh8.DigitLetterDisplay.Command | chapter_8/kernel/drivers/src/digit_letter_display.rs:168-192 | 0 succeeds; 1 shows the character of the low byte of `r2`, failing with INVAL exactly when it has no glyph; other numbers are NOSUPPORT; only 1 touches the LEDs |
| DigitLetterDisplayCh7.PatternUnmasked | chapter_7/kernel/drivers/src/digit_letter_display.rs:48-55 | LED `i` is on exactly when `glyph >> (25 - i)` is non-zero |
| DigitLetterDisplayCh7.UnmaskedThreshold | chapter_7/kernel/drivers/src/digit_letter_display.rs:48-55 | LED `i` is on exactly when the glyph is at least `2^(25 - i)` |
| DigitLetterDisplayCh7.FirstLedNeverLit | chapter_7/kernel/drivers/src/digit_letter_display.rs:48-55 | no glyph below 2^25 lights LED 0 |
| DigitLetterDisplayCh7.LitLedsFormSuffix | chapter_7/kernel/drivers/src/digit_letter_display.rs:48-55 | when LED `i` is lit, so is every LED after it |
| DigitLetterDisplayCh7.TopBitGlyphsLookAlike | chapter_7/kernel/drivers/src/digit_letter_display.rs:48-55 | every 25-bit glyph with bit 24 set lights exactly LEDs 1..24 |
| DigitLetterDisplayCh7.DigitsIndistinguishable | chapter_7/kernel/drivers/src/digit_letter_display.rs:7-28 | every digit but '1' renders like '0', although the masked renderer tells each of them from '0' |
| DigitLetterDisplayCh7.DigitLetterDisplay.New | chapter_7/kernel/drivers/src/digit_letter_display.rs:41-46 | panics exactly when the LED count is not 25 |
| DigitLetterDisplayCh7.DigitLetterDisplay.Print | chapter_7/kernel/drivers/src/digit_letter_display.rs:48-55 | the LED loop leaves the matrix showing `PatternUnmasked(glyph)` |
| DigitLetterDisplayCh7.DigitLetterDisplay.Clear | chapter_7/kernel/drivers/src/digit_letter_display.rs:57-61 | every LED off |
| DigitLetterDisplayCh7.DigitLetterDisplay.Display | chapter_7/kernel/drivers/src/digit_letter_display.rs:63-79 | panics exactly for a letter past 'A'; otherwise the unmasked glyph or a blank matrix, Ok exactly for digits and 'A'/'a', INVAL for non-alphanumerics |
| DigitLetterDisplayCh7.DigitLetterDisplay.Command | chapter_7/kernel/drivers/src/digit_letter_display.rs:83-98 | 0 succeeds; 1 is `display` of the low byte of `r2`, as success or failure, panicking where `display` does; others are NOSUPPORT |
| TextService.StrNLen | chapter_12/applications/text_display/main.c:148 | the length is at most 50, every byte before it is non-NUL, and a length below 50 ends at a NUL |
| TextService.StrNCopied | chapter_12/applications/text_display/main.c:100 | each copied byte is the sender's byte until the first NUL, and NUL after it; bytes past the count are kept |
| TextService.CopiedText | chapter_12/applications/text_display/main.c:94-102 | a sent text of `k` bytes that fits is in the buffer afterwards, and when its NUL fits too the buffer's length is `k` |
| TextService.NextPosition | chapter_12/applications/text_display/main.c:148-156 | with no text the cursor resets to 0; inside the text it steps by one and wraps to 0 at the end; past the end of a non-empty text it does not move |
| TextService.StuckPastShorterText | chapter_12/applications/text_display/main.c:153 | a cursor past the end of a non-empty text stays there for any number of iterations |
| TextService.NextPositionWrapped | chapter_12/applications/text_display/main.c:153-154 | the intended step lands inside every non-empty text, and agrees with the written step whenever the cursor is inside the text |
| TextService.WrappedReachesEveryIndex | chapter_12/applications/text_display/main.c:147-158 | with the intended step, every index of the text is reached from any cursor |
| TextService.TextService.Start | chapter_12/applications/text_display/main.c:134-145 | the service runs exactly when the LED count query succeeds with at least 25 LEDs; it starts with an empty text and the cursor at 0 |
| TextService.TextService.DisplayCode | chapter_12/applications/text_display/main.c:104-115 | LED `i` is on exactly when bit `24 - i` of the code is set |
| TextService.TextService.Clear | chapter_12/applications/text_display/main.c:127-132 | every LED off |
| TextService.TextService.Display | chapter_12/applications/text_display/main.c:117-125 | an ASCII digit or letter is shown; any other character leaves the LEDs as they were |
| TextService.TextService.IpcCallback | chapter_12/applications/text_display/main.c:94-102 | a NULL buffer changes nothing; otherwise the buffer is `strncpy` of `MIN(50, len)` bytes |
| TextService.TextService.StrNCpy | chapter_12/applications/text_display/main.c:100 | the two copy loops leave the buffer equal to `StrNCopied` |
| TextService.TextService.Step | chapter_12/applications/text_display/main.c:148-156 | `len` becomes the text's `strnlen`. With no text, the cursor resets and the matrix is blanked. With the cursor inside the text, it steps and the character under it is shown. Past the end, nothing changes |

## Left out

- Timing: the alarm's `now` and `ticks_from_ms` conversion and the 300 ms `delay_ms` of the chapter 12 loop are not modelled; alarm logs record the requested delay in milliseconds.
- Deferred calls are not scheduled by a kernel: `pending` records the request and `Call` is invoked explicitly.
- Grants: entering a grant is membership in the `grants` map. The kernel's conversion of a grant error into an `ErrorCode` is the constructor parameter `enterError`. `AllocateGrant`'s `room` parameter says whether the kernel could create the grant.
- `TextDisplay.TextDisplay.Command`: process buffers are values, with a flag for a buffer the kernel can no longer reach; the sharing itself is `allow_readonly`.
- The kernel's `TakeCell` around the driver buffer always holds the buffer: no code path in the drivers leaves it empty.
- A `TextScreenClient` and the deferred call handle are booleans; the client's callbacks are entries of the notification log.
- `LedMatrixTextCh10.LedMatrixText.Print`: the tail of an older, longer text stays in the buffer, because `len` becomes the longer of the two texts; this is modelled as written.
- Without a deferred call handle, a driver that leaves Idle never returns to it; without a client, the parked buffer of a print stays parked until the next print replaces it. Both are modelled as written.
- `debug!` logging, `printf` and the IPC service registration of the chapter 12 service are left out.
- The user-space syscall wrappers, the headers and the example applications of each chapter are not part of this model.
- `TextService.TextService.IpcCallback`: the sent length is a `nat`, and at least `MIN(50, len)` bytes of the shared buffer must be readable. A negative `len` and a shared buffer shorter than the copy count are not modelled.
- `TextService.TextService.Display`: C `char` signedness is not modelled; characters are code points.
- `TextService.TextService.Start`: only a count of at least 25 LEDs and the 25 LEDs the service drives are modelled.
- `DigitLetterDisplayCh8.DigitLetterDisplay.constructor`: the chapter 8 driver takes an array of exactly 25 LEDs by type, so there is no runtime check to model.
- The first character the chapter 12 service shows after a text arrives is `BUFFER[1 % len]`, not `BUFFER[0]`, as `Step` states. This is behaviour as written and is not claimed as a finding.

## Findings

| source | as written | input that shows it | evidently intended | confidence | as-written member | corrected member |
|---|---|---|---|---|---|---|
| chapter_7/kernel/drivers/src/digit_letter_display.rs:48-55 | LED `i` is lit when `glyph >> (25 - i)` is non-zero, unmasked and one place too far | the digits '0' and '8' (or any two digits other than '1') light the same 24 LEDs | LED `i` shows bit `24 - i`, written `(glyph >> (24 - i)) & 1`, as in chapters 8 to 12 | not executed | DigitLetterDisplayCh7.DigitsIndistinguishable | Matrix.PatternInjective |
| chapter_12/applications/text_display/main.c:153-156 | the cursor only moves when it is inside the text | "HELLO" with the cursor at 4, then "HI" arrives: the cursor stays at 4 and the matrix never changes again until a text longer than 4 arrives | a cursor at or past the end starts again at index 0 | not executed | TextService.StuckPastShorterText | TextService.WrappedReachesEveryIndex |
| chapter_9/kernel/drivers/src/led_matrix_text.rs:221-226 | the copy loop runs to the client's `len`, which is checked only against the client's buffer | a client buffer of 20 bytes printed with `len` 20 into a 10-byte driver buffer: `buf[10]` is out of bounds and the kernel panics | copy `min(len, buf.len())` bytes, as chapter 10 does | not executed | LedMatrixTextCh9.LedMatrixText.Print | LedMatrixTextCh10.LedMatrixText.Print |
