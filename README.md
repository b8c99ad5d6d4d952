# Screen front end and screenshot decoder of the T-Beam LoRaWAN mapper

This project models two small parts of the mapper in Dafny.

**The host-side screenshot decoder** (`screenshot/screenshotreceiver.py`).
The firmware dumps the OLED contents over serial in one of two forms. The
first is one line of run-length tokens `W<n>` / `B<n>`. The second is rows
of `#` / `.` characters. Module `Screenshot` (screenshot.dfy) turns either
form into a one-bit pixel grid, an `array2<bool>` indexed `[x, y]` like
PIL's pixel access object (`true` = white, 255).
- The RLE decoder uses a fixed 128x64 grid. It walks a cursor in row-major
  order, wrapping `x` at the display width. It drops pixels past the last
  row. Its final cursor always equals the sum of the run lengths.
- The token scan of `re.findall(r'([WB])(\d+)', …)` is the function
  `FindRuns`.
- The ASCII decoder takes its height from the number of rows and its width
  from the first row. A `#` in a later, longer row beyond that width makes
  PIL raise `IndexError`. The model returns `Outcome.IndexError` for that
  case.

**The display front end** (`main/screen.cpp`). Module `Screen` (screen.dfy)
models the file's globals as class `ScreenState`:
- the nullable `display` pointer, as `hasDisplay`;
- the `uint8_t _screen_line`, as `screenLine`, wrapping modulo 256;
- the ordered calls made into the SSD1306/OLEDDisplay library, as a `trace`
  of abstract `Command`s;
- the serial console echo of `screen_print(text)`, as `serialLog`.

Every entry point is a method. Except for `Setup`, which creates the
display, each one leaves the trace unchanged when no display exists. The pure parts are functions with lemmas:
- the 3 s / 6 s header phase (`PhaseAt`);
- the 12-bit device tag packed from EUI bytes 7 and 6, and its `#%03X` text;
- the logo coordinates with C's truncating division and `uint8_t` stores;
- the command sequences of a header and of a whole frame.

Module `Text` (text.dfy) holds the decimal and hexadecimal numerals that
both sides print or parse.

In this revision of the firmware:
- `screen_print(text)` returns before touching the log when no display
  exists. Only the serial echo still happens.
- The header of this revision shows the device tag and battery text, or the
  GPS time. It then shows the satellite count, the interval/distance row and
  the spreading-factor name. There is no "NO GPS" banner, no HDOP and no
  menu overlay.

## Model

| member | source | states |
|---|---|---|
| `Text.Decimal` | main/screen.cpp:140 | `%lu` text: non-empty, digits only, no leading zero, one digit exactly below 10 |
| `Text.DecimalRoundTrip` | screenshot/screenshotreceiver.py:99 | `int()` of a printed decimal run length gives the length back |
| `Text.SignedDecimal` | main/screen.cpp:136 | `itoa(sats, buffer, 10)`: leading `-` iff negative, the digits read back to the absolute value, and no leading zero unless the numeral is `0` |
| `Text.UpperHex` | main/screen.cpp:117 | `%X` text is non-empty and upper-case hexadecimal |
| `Text.ZeroPaddedHex` | main/screen.cpp:117 | `%03X` pads with zeros to three characters and never truncates a longer numeral |
| `Text.UpperHexRoundTrip` | main/screen.cpp:117 | `%X` text reads back to the printed number |
| `Text.ZeroPaddedHexRoundTrip` | main/screen.cpp:117 | zero padding keeps the value: `%03X` text reads back to the number |
| `Text.UpperHexAtMostThree` | main/screen.cpp:117 | `%X` needs at most three digits if and only if the value is below 4096 |
| `Screenshot.DigitSpan` | screenshot/screenshotreceiver.py:96 | the greedy `\d+` takes only digits and stops just before the first non-digit |
| `Screenshot.FindRuns` | screenshot/screenshotreceiver.py:96 | every match takes at least two characters, so a line of n characters yields at most n/2 runs; its matches are stated by `FindRunsToken`, `JunkIgnored`, `LoneLetterIgnored` and `NoLetterNoRuns` |
| `Screenshot.NoLetterNoRuns` | screenshot/screenshotreceiver.py:96 | a line without `W` or `B` yields no run |
| `Screenshot.JunkIgnored` | screenshot/screenshotreceiver.py:96 | characters other than `W`/`B` in front of the rest of a line do not change the runs found |
| `Screenshot.LoneLetterIgnored` | screenshot/screenshotreceiver.py:96 | a `W` or `B` not followed by a digit starts no run; the scan resumes right after it |
| `Screenshot.FindRunsToken` | screenshot/screenshotreceiver.py:96-100 | a `W<n> ` / `B<n> ` token is read as one run of that colour and length, and the scan resumes after it |
| `Screenshot.FindRunsOfText` | screenshot/screenshotreceiver.py:96-100 | scanning a line of tokens gives back exactly the runs written, in order |
| `Screenshot.RlePixelInRun` | screenshot/screenshotreceiver.py:98-109 | a pixel whose row-major index lies in run k's cumulative range gets run k's colour |
| `Screenshot.RlePixelPastEnd` | screenshot/screenshotreceiver.py:92-104 | a pixel that no run reaches keeps the black background |
| `Screenshot.CoveringRun` | screenshot/screenshotreceiver.py:98-109 | every index below the total length lies in exactly one run's range, which gives its colour; with a total of 128*64 each pixel is covered once |
| `Screenshot.DecodeRuns` | screenshot/screenshotreceiver.py:92-109 | the grid is 128x64; the final cursor has `x < 128` and `y*128 + x` = sum of run lengths; every pixel is the colour of its covering run, else black; no write is out of bounds |
| `Screenshot.ProcessRle` | screenshot/screenshotreceiver.py:83-111 | empty data gives no image; other data always gives the 128x64 picture painted by the runs found in it |
| `Screenshot.CompressDecodes` | screenshot/screenshotreceiver.py:98-109 | decoding the maximal-run encoding of any row-major pixel sequence gives back every pixel |
| `Screenshot.RleRoundTrip` | screenshot/screenshotreceiver.py:95-109 | the run line of any 128x64 picture is non-empty, fills the grid exactly, and decodes to that picture |
| `Screenshot.ProcessUncompressed` | screenshot/screenshotreceiver.py:113-133 | no lines give no image; height = number of lines, width = first line's length; a `#` beyond that width raises IndexError; otherwise a pixel is white iff its character is `#` |
| `Screen.PhaseAt` | main/screen.cpp:115 | the tag phase is shown exactly in the even-numbered 3-second slots of `millis()`; `PhaseWithinCycle`, `PhaseFlips` and `PhaseAtWrap` state the timing |
| `Screen.PhaseWithinCycle` | main/screen.cpp:114-129 | in every 6000 ms cycle the first 3000 ms show the tag/battery phase and the last 3000 ms the GPS time |
| `Screen.PhaseFlips` | main/screen.cpp:115 | 3000 ms later the header is always in the other phase, unless `millis()` wraps on the way |
| `Screen.PhaseAtWrap` | main/screen.cpp:115 | at the 32-bit `millis()` wrap the GPS-time phase lasts only 2296 ms before the tag phase returns at 0 |
| `Screen.DeviceTag` | main/screen.cpp:117 | the tag is below 4096: EUI byte 7 as the high byte, high nibble of byte 6 as the low nibble |
| `Screen.TagIgnoresLowNibble` | main/screen.cpp:117 | the low nibble of EUI byte 6 never affects the tag |
| `Screen.TagDistinguishes` | main/screen.cpp:117 | two EUIs share a tag iff byte 7 and the high nibble of byte 6 agree |
| `Screen.TagText` | main/screen.cpp:117 | `#%03X` of the tag; its shape and value are stated by `TagTextShape` |
| `Screen.TagTextShape` | main/screen.cpp:117 | `#%03X` of the tag is always `#` plus exactly three upper-case hex digits that read back to the tag |
| `Screen.LogoX` | main/screen.cpp:43 | the logo's left edge, C division stored in a `uint8_t`; centring is stated by `LogoCentred` |
| `Screen.LogoY` | main/screen.cpp:44 | the logo's top edge below the header, stored in a `uint8_t`; its placement is stated by `LogoBelowRule` |
| `Screen.LogoCentred` | main/screen.cpp:43 | a logo no wider than the screen fits, and its right margin equals the left one or exceeds it by one |
| `Screen.LogoBelowRule` | main/screen.cpp:44 | a logo that fits under the header starts strictly below the rule at y = 24; its bottom stays on screen iff at least one spare row is left |
| `Screen.Snprintf40` | main/screen.cpp:140 | `snprintf` into `char buffer[40]` keeps all of a text of at most 39 characters and exactly the first 39 of a longer one |
| `Screen.SecondRowText` | main/screen.cpp:140 | the `%lus %.0fm` text, cut to the buffer; its length and prefix are stated by `Snprintf40` |
| `Screen.HeaderCommands` | main/screen.cpp:109-148 | the header's library calls; stated by `HeaderShowsTagInDevicePhase` and `HeaderDiffersByPhase` |
| `Screen.HeaderShowsTagInDevicePhase` | main/screen.cpp:115-147 | the header draws the tag top left iff in the tag phase; it only draws, and it always ends with the rule at y = 24 |
| `Screen.HeaderDiffersByPhase` | main/screen.cpp:114-129 | with all other inputs fixed, times in different phases give different headers |
| `Screen.FrameCommands` | main/screen.cpp:150-157 | the calls of one `screen_loop` frame; their order is stated by `FrameOrder` |
| `Screen.FrameOrder` | main/screen.cpp:150-157 | a frame clears first, draws the header, draws the log at y = 24 right after the rule, and flushes last; nothing else clears or flushes |
| `Screen.NextLine` | main/screen.cpp:87 | one `_screen_line += 8`: the counter keeps its position within an 8-pixel band and grows exactly when it does not wrap past 255 |
| `Screen.LineAfterPrints` | main/screen.cpp:87 | `_screen_line` after n prints with a display, by the same `NextLine` step `ScreenState.Print` takes; stated by `LineAfterPrintsClosedForm` |
| `Screen.LineAfterPrintsClosedForm` | main/screen.cpp:38-87 | after n prints `_screen_line` is (23 + 8n) mod 256, always 7 mod 8, so it wraps after 30 prints |
| `Screen.ScreenState.constructor` | main/screen.cpp:35-38 | the display starts absent and `_screen_line` starts at 23; nothing is drawn or echoed yet |
| `Screen.ScreenState.Setup` | main/screen.cpp:95-104 | creates the display and issues init, vertical flip, font selection and a 4-line, 30-character log buffer, in that order |
| `Screen.ScreenState.ShowLogo` | main/screen.cpp:40-46 | without a display nothing happens; with one, a single logo blit at (LogoX, LogoY) |
| `Screen.ScreenState.Off` | main/screen.cpp:48-52 | without a display nothing happens; with one, exactly a display-off call |
| `Screen.ScreenState.On` | main/screen.cpp:54-58 | without a display nothing happens; with one, exactly a display-on call |
| `Screen.ScreenState.Clear` | main/screen.cpp:60-64 | without a display nothing happens; with one, exactly a clear call |
| `Screen.ScreenState.PrintAt` | main/screen.cpp:66-73 | without a display nothing happens; with one, set the alignment, then draw the text at (x, y) |
| `Screen.ScreenState.PrintLeftAt` | main/screen.cpp:75-77 | the same with left alignment |
| `Screen.ScreenState.Print` | main/screen.cpp:79-89 | always echoes `Screen: <text>` on serial; without a display nothing else changes; with one, the text is appended to the log and `_screen_line` takes one `NextLine` step (+8 mod 256); the scroll branch changes nothing |
| `Screen.ScreenState.Update` | main/screen.cpp:91-93 | without a display nothing happens; with one, exactly one flush |
| `Screen.ScreenState.Header` | main/screen.cpp:109-148 | without a display nothing happens; with one, the header's calls in order, ending with the rule |
| `Screen.ScreenState.DrawTag` | main/screen.cpp:115-129 | in the tag phase draws `#%03X` of the tag at (0, 2) and picks the battery text for the centre; otherwise draws nothing and picks the GPS time |
| `Screen.ScreenState.DrawFirstRow` | main/screen.cpp:131-137 | centre text at half width, satellite count right-aligned left of the icon, then the satellite icon at the right edge |
| `Screen.ScreenState.DrawSecondRow` | main/screen.cpp:140-147 | interval and distance at (0, 12), spreading-factor name right-aligned at the right edge, then the rule at y = 24 |
| `Screen.ScreenState.Loop` | main/screen.cpp:150-157 | without a display nothing happens; with one, clear, header, log at y = 24, flush |

## Left out

- `screenshot_listener` (screenshot/screenshotreceiver.py:33-81) is left out. It is serial-port I/O: opening the port, blocking `readline`, marker detection.
- `save_image` (screenshot/screenshotreceiver.py:135-146) is left out. It writes a PNG under a clock-stamped name. The decoders stop where they would call it.
- `Screenshot.ProcessRle`: does not model `ValueError` from `int()` on a digit run longer than Python's integer string conversion limit (4300 digits by default since Python 3.11, leading zeros included). Such a run is decoded as its value; in the listener the exception is uncaught.
- `\d` in Python also matches non-ASCII Unicode digits, which `int()` accepts. The model reads only `0`-`9`.
- `Screenshot.DecodeRuns` states each pixel's final value, not a count of writes. That each pixel lies in exactly one run's range is stated by `Screenshot.CoveringRun`.
- `Screenshot.Compress` and `Screenshot.RunsText` are reference definitions of the dump format. They are used to state the round trip. The firmware's own pixel read-back and RLE/ASCII encoders are not part of this model.
- The SSD1306/OLEDDisplay library is not part of this model. Each call is an abstract `Command`: `init`, `drawString`, `drawXbm`, `display`, `displayOn`/`displayOff`, and the library's own log buffer set up at main/screen.cpp:103 and drawn at main/screen.cpp:155.
- `getWidth()`/`getHeight()` are the constructor's `width`/`height` (the SSD1306Wire default is 128x64). The bitmap sizes from images.h are the `Artwork` record; images.h is not part of this model.
- The `DEVEUI` byte array is not part of this model. Its bytes 7 and 6 are inputs of the header.
- Some header text is opaque input: the battery `%.2fV %.0fmA` text from `axp` (main/screen.cpp:121), the `%.0f` distance text (main/screen.cpp:140) and `gps_time`'s output (main/gps.h:11). These are floating point and foreign telemetry.
- `millis()` is an input of the header, as a 32-bit value.
- `DEBUG_MSG` in the positioned `screen_print` (main/screen.cpp:67) is a macro from configuration.h, which is not part of this model.
- `PrintAt` takes the alignment as an `Align` value. The cast of an arbitrary byte to the library's alignment enum is not modelled.
- `Setup` called twice would leak the first display object. The model only records the calls made.
- `Header` records each library call in source order. Its three blocks are the helper methods `DrawTag`, `DrawFirstRow` and `DrawSecondRow`, and consecutive calls are appended in small groups.
- `Screen.PhaseWithinCycle`, `Screen.PhaseFlips`: stated only away from the `millis()` wrap. `Screen.PhaseAtWrap` shows what happens there.
- `Screen.LogoCentred`, `Screen.LogoBelowRule`: stated only for screens under 256 pixels. Beyond that the `uint8_t` truncation in `LogoX`/`LogoY` applies. It is modelled but no property about it is stated.
- main/credentials.h and main/gps.h are not modelled. They hold key constants, radio set-up, a `debug` helper and declarations only.
