/**
 * The OLED front end of the mapper firmware (`screen.cpp`): a nullable
 * display handle that every entry point checks first, a `uint8_t` line
 * counter, a status header that alternates between two 3-second phases, and
 * a frame routine that clears, draws the header and the log, and flushes.
 *
 * The SSD1306/OLEDDisplay library is not modelled: each call into it is an
 * abstract `Command` appended to a trace, in the order the firmware issues it.
 */
module Screen {
  import opened Text

  /** SCREEN_HEADER_HEIGHT: the header's height and the row of its rule. */
  const HEADER_HEIGHT: nat := 24

  /** Length of the header cycle and of each of its two phases, in ms. */
  const CYCLE_MS: nat := 6000
  const PHASE_MS: nat := 3000

  /** `millis()` is an `unsigned long`, 32 bits on the ESP32. */
  const MILLIS_MODULUS: nat := 0x1_0000_0000
  type Millis = t: nat | t < 0x1_0000_0000

  type Uint8 = n: nat | n < 256

  // --------------------------------------------------------- library calls

  datatype Align = AlignLeft | AlignCenter | AlignRight

  datatype Bitmap = TtnLogo | SatelliteIcon

  /** One call into the display library. */
  datatype Command =
    | Init
    | FlipScreenVertically
    | SetFont
    | SetLogBuffer(lines: nat, chars: nat)
    | DisplayOn
    | DisplayOff
    | ClearBuffer
    | Flush
    | SetTextAlignment(align: Align)
    | DrawString(x: int, y: int, text: string)
    | DrawXbm(x: int, y: int, w: nat, h: nat, image: Bitmap)
    | DrawHorizontalLine(x: int, y: int, length: int)
    | AppendLog(text: string)
    | DrawLogBuffer(x: int, y: int)

  /** Sizes of the two bitmaps (TTN_IMAGE_*, SATELLITE_IMAGE_*). */
  datatype Artwork = Artwork(logoWidth: nat, logoHeight: nat, satelliteWidth: nat, satelliteHeight: nat)

  // ---------------------------------------------------------- header phase

  datatype HeaderPhase = DeviceStatus | GpsTime

  /** Which half of the 6-second cycle the header shows at time `now`. */
  function PhaseAt(now: Millis): (phase: HeaderPhase)
    ensures phase == DeviceStatus <==> (now / PHASE_MS) % 2 == 0
  {
    if now % CYCLE_MS < PHASE_MS then DeviceStatus else GpsTime
  }

  /** Within a cycle, the first 3000 ms show the device status and the last 3000 ms the GPS time. */
  lemma PhaseWithinCycle(cycleStart: Millis, d: nat)
    requires cycleStart % CYCLE_MS == 0 && d < CYCLE_MS && cycleStart + d < MILLIS_MODULUS
    ensures PhaseAt(cycleStart + d) == if d < PHASE_MS then DeviceStatus else GpsTime
  {
    var q := cycleStart / CYCLE_MS;
    assert cycleStart == q * CYCLE_MS;
    assert (cycleStart + d) / CYCLE_MS == q;
  }

  /** Moving 3000 ms on always switches the phase, unless `millis()` wraps on the way. */
  lemma PhaseFlips(now: Millis)
    requires now + PHASE_MS < MILLIS_MODULUS
    ensures PhaseAt(now + PHASE_MS) != PhaseAt(now)
  {
    var q, r := now / CYCLE_MS, now % CYCLE_MS;
    assert now == q * CYCLE_MS + r;
    if r < PHASE_MS {
      assert (now + PHASE_MS) % CYCLE_MS == r + PHASE_MS;
    } else {
      assert now + PHASE_MS == (q + 1) * CYCLE_MS + (r - PHASE_MS);
      assert (now + PHASE_MS) % CYCLE_MS == r - PHASE_MS;
    }
  }

  /**
   * 2^32 is not a multiple of 6000, so the cycle breaks where `millis()`
   * wraps: the last GPS-time phase before the wrap lasts only 2296 ms
   * (from 2^32 - 2296 to 2^32 - 1) and the device status follows at 0.
   */
  lemma PhaseAtWrap()
    ensures PhaseAt(MILLIS_MODULUS - 2297) == DeviceStatus
    ensures forall t: Millis :: MILLIS_MODULUS - 2296 <= t ==> PhaseAt(t) == GpsTime
    ensures PhaseAt(0) == DeviceStatus
  {
    var base := 715827 * CYCLE_MS;
    assert base + 3000 == MILLIS_MODULUS - 2296;
    forall t: Millis | MILLIS_MODULUS - 2296 <= t
      ensures PhaseAt(t) == GpsTime
    {
      assert t == base + (t - base);
      assert t % CYCLE_MS == t - base;
    }
    assert (MILLIS_MODULUS - 2297) % CYCLE_MS == 2999;
  }

  // ------------------------------------------------------------ device tag

  /**
   * `(DEVEUI[7] << 4) | (DEVEUI[6] & 0xF0) >> 4`: byte 7 of the device EUI
   * followed by the high nibble of byte 6, as a 12-bit number.
   */
  function DeviceTag(eui7: bv8, eui6: bv8): (tag: nat)
    ensures tag < 4096
    ensures tag / 16 == eui7 as nat && tag % 16 == eui6 as nat / 16
  {
    (((eui7 as bv16) << 4) | (((eui6 & 0xF0) as bv16) >> 4)) as nat
  }

  /** The low nibble of byte 6 never changes the tag. */
  lemma TagIgnoresLowNibble(eui7: bv8, a: bv8, b: bv8)
    requires a & 0xF0 == b & 0xF0
    ensures DeviceTag(eui7, a) == DeviceTag(eui7, b)
  {
  }

  /** Two EUIs get the same tag exactly when byte 7 and the high nibble of byte 6 agree. */
  lemma TagDistinguishes(a7: bv8, a6: bv8, b7: bv8, b6: bv8)
    ensures DeviceTag(a7, a6) == DeviceTag(b7, b6) <==> a7 == b7 && a6 as nat / 16 == b6 as nat / 16
  {
    var a, b := DeviceTag(a7, a6), DeviceTag(b7, b6);
    assert a == 16 * (a / 16) + a % 16;
    assert b == 16 * (b / 16) + b % 16;
    if a == b {
      assert a7 as nat == b7 as nat;
    }
  }

  /** `snprintf(buffer, ..., "#%03X", tag)`. */
  function TagText(eui7: bv8, eui6: bv8): string {
    "#" + ZeroPaddedHex(DeviceTag(eui7, eui6), 3)
  }

  /** The tag text is always `#` and exactly three upper-case hex digits that read back to the tag. */
  lemma TagTextShape(eui7: bv8, eui6: bv8)
    ensures |TagText(eui7, eui6)| == 4 && TagText(eui7, eui6)[0] == '#'
    ensures AllUpperHex(TagText(eui7, eui6)[1..])
    ensures HexValue(TagText(eui7, eui6)[1..]) == DeviceTag(eui7, eui6)
  {
    var tag := DeviceTag(eui7, eui6);
    UpperHexAtMostThree(tag);
    ZeroPaddedHexRoundTrip(tag, 3);
    assert TagText(eui7, eui6)[1..] == ZeroPaddedHex(tag, 3);
  }

  // --------------------------------------------------------- logo position

  /** C's `/` on `int`: the quotient rounded toward zero. */
  function CDiv(a: int, b: nat): int
    requires b > 0
  {
    if a >= 0 then a / b else -((-a) / b)
  }

  /** Storing an `int` into a `uint8_t`: reduction modulo 256. */
  function ToUint8(v: int): Uint8 {
    v % 256
  }

  /** `uint8_t x = (getWidth() - TTN_IMAGE_WIDTH) / 2`. */
  function LogoX(width: nat, logoWidth: nat): Uint8 {
    ToUint8(CDiv(width - logoWidth, 2))
  }

  /** `uint8_t y = SCREEN_HEADER_HEIGHT + (getHeight() - SCREEN_HEADER_HEIGHT - TTN_IMAGE_HEIGHT) / 2 + 1`. */
  function LogoY(height: nat, logoHeight: nat): Uint8 {
    ToUint8(HEADER_HEIGHT + CDiv(height - HEADER_HEIGHT - logoHeight, 2) + 1)
  }

  /**
   * A logo no wider than a screen under 256 pixels is centred: it fits, and
   * the right margin equals the left one or exceeds it by one pixel.
   */
  lemma LogoCentred(width: nat, logoWidth: nat)
    requires logoWidth <= width < 256
    ensures LogoX(width, logoWidth) + logoWidth <= width
    ensures width - (LogoX(width, logoWidth) + logoWidth) - LogoX(width, logoWidth) in {0, 1}
  {
  }

  /**
   * A logo that fits under the header starts strictly below the rule at
   * row 24; its bottom row stays on a screen under 256 pixels exactly when
   * at least one spare row is left under the header.
   */
  lemma LogoBelowRule(height: nat, logoHeight: nat)
    requires HEADER_HEIGHT + logoHeight <= height < 256
    ensures LogoY(height, logoHeight) > HEADER_HEIGHT
    ensures LogoY(height, logoHeight) + logoHeight <= height <==> HEADER_HEIGHT + logoHeight < height
  {
  }

  // ---------------------------------------------------------------- header

  /**
   * What `screen_header` reads besides the display: `millis()`, bytes 7 and
   * 6 of DEVEUI, the battery text the AXP readings are formatted into, the
   * text `gps_time` writes, and its own arguments (the `%.0f` text of
   * `min_dist_moved` stands in for the float).
   */
  datatype HeaderInput = HeaderInput(
    now: Millis,
    eui7: bv8,
    eui6: bv8,
    batteryText: string,
    gpsTimeText: string,
    txIntervalMs: Millis,
    distanceText: string,
    sfName: string,
    sats: int)

  /** `snprintf` into `char buffer[40]` keeps at most 39 characters. */
  function Snprintf40(s: string): (r: string)
    ensures |r| <= 39 && |r| <= |s| && r == s[..|r|]
    ensures |r| == if |s| <= 39 then |s| else 39
    ensures |s| <= 39 ==> r == s
  {
    if |s| <= 39 then s else s[..39]
  }

  /** `"%lus %.0fm"` of the transmit interval in seconds and the minimum distance. */
  function SecondRowText(h: HeaderInput): string {
    Snprintf40(Decimal(h.txIntervalMs / 1000) + "s " + h.distanceText + "m")
  }

  /** The tag drawn top left, in the device phase only. */
  function TagCommands(h: HeaderInput): seq<Command> {
    if PhaseAt(h.now) == DeviceStatus then
      [SetTextAlignment(AlignLeft), DrawString(0, 2, TagText(h.eui7, h.eui6))]
    else []
  }

  /** The centred text of the first row: battery in the device phase, GPS time otherwise. */
  function CentreText(h: HeaderInput): string {
    if PhaseAt(h.now) == DeviceStatus then h.batteryText else h.gpsTimeText
  }

  /** Centre text, satellite count and icon of the first row. */
  function FirstRowCommands(width: nat, art: Artwork, h: HeaderInput): seq<Command> {
    [ SetTextAlignment(AlignCenter),
      DrawString(width / 2, 2, CentreText(h)),
      SetTextAlignment(AlignRight),
      DrawString(width - art.satelliteWidth - 4, 2, SignedDecimal(h.sats)),
      DrawXbm(width - art.satelliteWidth, 0, art.satelliteWidth, art.satelliteHeight, SatelliteIcon) ]
  }

  /** Interval and distance on the left of the second row, spreading factor on the right, then the rule. */
  function SecondRowCommands(width: nat, h: HeaderInput): seq<Command> {
    [ SetTextAlignment(AlignLeft),
      DrawString(0, 12, SecondRowText(h)),
      SetTextAlignment(AlignRight),
      DrawString(width, 12, h.sfName),
      DrawHorizontalLine(0, HEADER_HEIGHT, width) ]
  }

  /** The library calls of `screen_header`, in order, on a display `width` pixels wide. */
  function HeaderCommands(width: nat, art: Artwork, h: HeaderInput): seq<Command> {
    TagCommands(h) + FirstRowCommands(width, art, h) + SecondRowCommands(width, h)
  }

  /** Only drawing calls: the header neither clears nor flushes. */
  predicate IsDrawing(c: Command) {
    c.SetTextAlignment? || c.DrawString? || c.DrawXbm? || c.DrawHorizontalLine?
  }

  /**
   * The header draws the device tag at the top-left corner in the device
   * phase and only then; it only draws, and it always ends with the rule
   * under the header.
   */
  lemma HeaderShowsTagInDevicePhase(width: nat, art: Artwork, h: HeaderInput)
    requires width >= 2
    ensures DrawString(0, 2, TagText(h.eui7, h.eui6)) in HeaderCommands(width, art, h)
            <==> PhaseAt(h.now) == DeviceStatus
    ensures forall c :: c in HeaderCommands(width, art, h) ==> IsDrawing(c)
    ensures HeaderCommands(width, art, h)[|HeaderCommands(width, art, h)| - 1]
            == DrawHorizontalLine(0, HEADER_HEIGHT, width)
  {
    var tag := DrawString(0, 2, TagText(h.eui7, h.eui6));
    var first, second := FirstRowCommands(width, art, h), SecondRowCommands(width, h);
    var sats := SignedDecimal(h.sats);
    assert sats[0] != '#' by {
      if h.sats >= 0 {
        assert IsDigit(sats[0]);
      }
    }
    assert TagText(h.eui7, h.eui6)[0] == '#';
    assert tag !in first;
    assert tag !in second;
    if PhaseAt(h.now) == DeviceStatus {
      assert HeaderCommands(width, art, h)[1] == tag;
    } else {
      assert HeaderCommands(width, art, h) == first + second;
    }
  }

  /** Two instants in different phases give different headers, all other inputs alike. */
  lemma HeaderDiffersByPhase(width: nat, art: Artwork, h: HeaderInput, later: Millis)
    requires width >= 2 && PhaseAt(later) != PhaseAt(h.now)
    ensures HeaderCommands(width, art, h) != HeaderCommands(width, art, h.(now := later))
  {
    HeaderShowsTagInDevicePhase(width, art, h);
    HeaderShowsTagInDevicePhase(width, art, h.(now := later));
  }

  /** The library calls of one `screen_loop` frame. */
  function FrameCommands(width: nat, art: Artwork, h: HeaderInput): seq<Command> {
    [ClearBuffer] + HeaderCommands(width, art, h) + [DrawLogBuffer(0, HEADER_HEIGHT), Flush]
  }

  /**
   * A frame clears first and flushes last; the log is drawn at the header
   * height right after the header's rule, and nothing else clears or flushes.
   */
  lemma FrameOrder(width: nat, art: Artwork, h: HeaderInput)
    requires width >= 2
    ensures var f := FrameCommands(width, art, h);
      |f| >= 4 && f[0] == ClearBuffer && f[|f| - 1] == Flush
      && f[|f| - 2] == DrawLogBuffer(0, HEADER_HEIGHT)
      && f[|f| - 3] == DrawHorizontalLine(0, HEADER_HEIGHT, width)
      && (forall i :: 0 < i < |f| ==> f[i] != ClearBuffer)
      && (forall i :: 0 <= i < |f| - 1 ==> f[i] != Flush)
  {
    var header := HeaderCommands(width, art, h);
    var f := FrameCommands(width, art, h);
    HeaderShowsTagInDevicePhase(width, art, h);
    forall i | 1 <= i <= |header|
      ensures f[i] == header[i - 1] && IsDrawing(f[i])
    {
      assert header[i - 1] in header;
    }
  }

  // ------------------------------------------------------------ line count

  /** One `_screen_line += 8` on a `uint8_t`: the counter moves down one 8-pixel text line, wrapping at 256. */
  function NextLine(line: Uint8): (next: Uint8)
    ensures next % 8 == line % 8
    ensures line < 248 <==> next > line
  {
    (line as int + 8) % 256
  }

  /** `_screen_line` after `n` calls of `screen_print(text)` with a display attached. */
  function LineAfterPrints(n: nat): Uint8 {
    if n == 0 then HEADER_HEIGHT - 1 else NextLine(LineAfterPrints(n - 1))
  }

  /**
   * After `n` prints the counter is `23 + 8n` modulo 256: always the last
   * row of an 8-pixel band, and back inside the header after 30 prints.
   */
  lemma {:induction false} LineAfterPrintsClosedForm(n: nat)
    ensures LineAfterPrints(n) == (HEADER_HEIGHT - 1 + 8 * n) % 256
    ensures LineAfterPrints(n) % 8 == 7
  {
    if n > 0 {
      var before := LineAfterPrints(n - 1);
      LineAfterPrintsClosedForm(n - 1);
      AddEightMod256(HEADER_HEIGHT - 1 + 8 * (n - 1));
      if before as int + 8 < 256 {
        assert LineAfterPrints(n) == before as int + 8;
      } else {
        assert LineAfterPrints(n) == before as int + 8 - 256;
      }
    }
  }

  lemma AddEightMod256(a: nat)
    ensures (a % 256 + 8) % 256 == (a + 8) % 256
  {
    var q := a / 256;
    assert a == 256 * q + a % 256;
    assert a + 8 == 256 * q + (a % 256 + 8);
  }

  // ---------------------------------------------------------------- module

  /**
   * The module's globals: the `display` pointer (null until `screen_setup`),
   * `_screen_line`, the calls made into the display library, and the lines
   * written to the serial console.
   */
  class ScreenState {
    const width: nat
    const height: nat
    const art: Artwork
    var hasDisplay: bool
    var screenLine: Uint8
    var trace: seq<Command>
    var serialLog: seq<string>

    /** Static initialisation: no display yet, line counter one above the header's bottom. */
    constructor (width: nat, height: nat, art: Artwork)
      ensures this.width == width && this.height == height && this.art == art
      ensures !hasDisplay && screenLine == HEADER_HEIGHT - 1
      ensures trace == [] && serialLog == []
    {
      this.width, this.height, this.art := width, height, art;
      hasDisplay := false;
      screenLine := HEADER_HEIGHT - 1;
      trace := [];
      serialLog := [];
    }

    /** `screen_setup`: creates the display, initialises it and sizes the log buffer. */
    method Setup()
      modifies this
      ensures hasDisplay
      ensures trace == old(trace) + [Init, FlipScreenVertically, SetFont, SetLogBuffer(4, 30)]
      ensures screenLine == old(screenLine) && serialLog == old(serialLog)
    {
      hasDisplay := true;
      trace := trace + [Init, FlipScreenVertically, SetFont, SetLogBuffer(4, 30)];
    }

    /** `screen_show_logo`: draws the TTN logo centred under the header. */
    method ShowLogo()
      modifies this
      ensures trace == old(trace) + if old(hasDisplay) then
                [DrawXbm(LogoX(width, art.logoWidth), LogoY(height, art.logoHeight),
                         art.logoWidth, art.logoHeight, TtnLogo)] else []
      ensures hasDisplay == old(hasDisplay) && screenLine == old(screenLine) && serialLog == old(serialLog)
    {
      if !hasDisplay {
        return;
      }
      var x := LogoX(width, art.logoWidth);
      var y := LogoY(height, art.logoHeight);
      trace := trace + [DrawXbm(x, y, art.logoWidth, art.logoHeight, TtnLogo)];
    }

    /** `screen_off`. */
    method Off()
      modifies this
      ensures trace == old(trace) + if old(hasDisplay) then [DisplayOff] else []
      ensures hasDisplay == old(hasDisplay) && screenLine == old(screenLine) && serialLog == old(serialLog)
    {
      if !hasDisplay {
        return;
      }
      trace := trace + [DisplayOff];
    }

    /** `screen_on`. */
    method On()
      modifies this
      ensures trace == old(trace) + if old(hasDisplay) then [DisplayOn] else []
      ensures hasDisplay == old(hasDisplay) && screenLine == old(screenLine) && serialLog == old(serialLog)
    {
      if !hasDisplay {
        return;
      }
      trace := trace + [DisplayOn];
    }

    /** `screen_clear`. */
    method Clear()
      modifies this
      ensures trace == old(trace) + if old(hasDisplay) then [ClearBuffer] else []
      ensures hasDisplay == old(hasDisplay) && screenLine == old(screenLine) && serialLog == old(serialLog)
    {
      if !hasDisplay {
        return;
      }
      trace := trace + [ClearBuffer];
    }

    /** `screen_print(text, x, y, alignment)`: draws `text` at a position. */
    method PrintAt(text: string, x: Uint8, y: Uint8, align: Align)
      modifies this
      ensures trace == old(trace) + if old(hasDisplay) then [SetTextAlignment(align), DrawString(x, y, text)] else []
      ensures hasDisplay == old(hasDisplay) && screenLine == old(screenLine) && serialLog == old(serialLog)
    {
      if !hasDisplay {
        return;
      }
      trace := trace + [SetTextAlignment(align)];
      trace := trace + [DrawString(x, y, text)];
    }

    /** `screen_print(text, x, y)`: the same, left-aligned. */
    method PrintLeftAt(text: string, x: Uint8, y: Uint8)
      modifies this
      ensures trace == old(trace) + if old(hasDisplay) then [SetTextAlignment(AlignLeft), DrawString(x, y, text)] else []
      ensures hasDisplay == old(hasDisplay) && screenLine == old(screenLine) && serialLog == old(serialLog)
    {
      PrintAt(text, x, y, AlignLeft);
    }

    /**
     * `screen_print(text)`: echoes the text on the serial console, and with a
     * display appends it to the log and moves the line counter down by 8,
     * wrapping as a `uint8_t`. The overflow test has an empty body.
     */
    method Print(text: string)
      modifies this
      ensures serialLog == old(serialLog) + ["Screen: " + text + "\n"]
      ensures old(hasDisplay) ==> trace == old(trace) + [AppendLog(text)]
                                  && screenLine == NextLine(old(screenLine))
      ensures !old(hasDisplay) ==> trace == old(trace) && screenLine == old(screenLine)
      ensures hasDisplay == old(hasDisplay)
    {
      serialLog := serialLog + ["Screen: " + text + "\n"];
      if !hasDisplay {
        return;
      }
      trace := trace + [AppendLog(text)];
      if screenLine as int + 8 > height {
        // scroll: left empty in the firmware
      }
      screenLine := NextLine(screenLine);
    }

    /** `screen_update`: flushes the frame buffer to the panel. */
    method Update()
      modifies this
      ensures trace == old(trace) + if old(hasDisplay) then [Flush] else []
      ensures hasDisplay == old(hasDisplay) && screenLine == old(screenLine) && serialLog == old(serialLog)
    {
      if hasDisplay {
        trace := trace + [Flush];
      }
    }

    /** `screen_header`: draws the two status rows and the rule beneath them. */
    method Header(h: HeaderInput)
      modifies this
      ensures trace == old(trace) + if old(hasDisplay) then HeaderCommands(width, art, h) else []
      ensures hasDisplay == old(hasDisplay) && screenLine == old(screenLine) && serialLog == old(serialLog)
    {
      if !hasDisplay {
        return;
      }
      ghost var start := trace;
      var centre := DrawTag(h);
      ghost var afterTag := trace;
      DrawFirstRow(h, centre);
      ghost var afterFirst := trace;
      DrawSecondRow(h);
      calc {
        trace;
        afterFirst + SecondRowCommands(width, h);
        (afterTag + FirstRowCommands(width, art, h)) + SecondRowCommands(width, h);
        ((start + TagCommands(h)) + FirstRowCommands(width, art, h)) + SecondRowCommands(width, h);
        start + HeaderCommands(width, art, h);
      }
    }

    /** Lines 115-129 of `screen_header`: the tag in the device phase, and the text for the centre. */
    method DrawTag(h: HeaderInput) returns (buffer: string)
      modifies this`trace
      ensures trace == old(trace) + TagCommands(h) && buffer == CentreText(h)
    {
      if PhaseAt(h.now) == DeviceStatus {
        buffer := TagText(h.eui7, h.eui6);
        trace := trace + [SetTextAlignment(AlignLeft), DrawString(0, 2, buffer)];
        buffer := h.batteryText;
      } else {
        buffer := h.gpsTimeText;
      }
    }

    /** Lines 131-137 of `screen_header`: centre text, satellite count and icon. */
    method DrawFirstRow(h: HeaderInput, buffer: string)
      requires buffer == CentreText(h)
      modifies this`trace
      ensures trace == old(trace) + FirstRowCommands(width, art, h)
    {
      trace := trace + [SetTextAlignment(AlignCenter), DrawString(width / 2, 2, buffer)];
      trace := trace + [SetTextAlignment(AlignRight),
                        DrawString(width - art.satelliteWidth - 4, 2, SignedDecimal(h.sats)),
                        DrawXbm(width - art.satelliteWidth, 0, art.satelliteWidth, art.satelliteHeight, SatelliteIcon)];
    }

    /** Lines 140-147 of `screen_header`: the second status row and the rule. */
    method DrawSecondRow(h: HeaderInput)
      modifies this`trace
      ensures trace == old(trace) + SecondRowCommands(width, h)
    {
      var buffer := SecondRowText(h);
      trace := trace + [SetTextAlignment(AlignLeft), DrawString(0, 12, buffer)];
      trace := trace + [SetTextAlignment(AlignRight), DrawString(width, 12, h.sfName)];
      trace := trace + [DrawHorizontalLine(0, HEADER_HEIGHT, width)];
    }

    /** `screen_loop`: one frame — clear, header, log under the header, flush. */
    method Loop(h: HeaderInput)
      modifies this
      ensures trace == old(trace) + if old(hasDisplay) then FrameCommands(width, art, h) else []
      ensures hasDisplay == old(hasDisplay) && screenLine == old(screenLine) && serialLog == old(serialLog)
    {
      if !hasDisplay {
        return;
      }
      ghost var start := trace;
      ghost var header := HeaderCommands(width, art, h);
      trace := trace + [ClearBuffer];
      Header(h);
      assert trace == (start + [ClearBuffer]) + header;
      trace := trace + [DrawLogBuffer(0, HEADER_HEIGHT), Flush];
      assert trace == start + ([ClearBuffer] + header + [DrawLogBuffer(0, HEADER_HEIGHT), Flush]);
    }
  }
}
