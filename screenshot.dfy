/**
 * The host-side screenshot decoder of the mapper: it rebuilds a one-bit
 * picture of the 128x64 OLED from the text the firmware dumps on its serial
 * port, either as run-length tokens `W<n>` / `B<n>` or as rows of `#` / `.`.
 *
 * The PIL image is an `array2<bool>` indexed `[x, y]` like PIL's pixel
 * access object; `true` is a white (255) pixel, `false` a black (0) one.
 */
module Screenshot {
  import opened Text

  const DISPLAY_WIDTH: nat := 128
  const DISPLAY_HEIGHT: nat := 64

  /** One `W<n>` (white) or `B<n>` (black) token. */
  datatype Run = Run(white: bool, length: nat)

  /** What a decoder leaves behind: no image, a raised IndexError, or a picture. */
  datatype Outcome = NoImage | IndexError | Image(pixels: array2<bool>)

  // ------------------------------------------------------------ tokenizer

  /** Number of decimal digits at the front of `s` (the greedy `\d+`). */
  function DigitSpan(s: string): (n: nat)
    ensures n <= |s| && AllDigits(s[..n])
    ensures n < |s| ==> !IsDigit(s[n])
  {
    if s != [] && IsDigit(s[0]) then
      var m := DigitSpan(s[1..]);
      assert s[..1 + m] == [s[0]] + s[1..][..m];
      1 + m
    else 0
  }

  predicate IsColourLetter(c: char) {
    c == 'W' || c == 'B'
  }

  /** `re.findall(r'([WB])(\d+)', s)` with each match converted to a run. */
  function FindRuns(s: string): (runs: seq<Run>)
    ensures 2 * |runs| <= |s|
    decreases |s|
  {
    if |s| < 2 then []
    else if IsColourLetter(s[0]) && IsDigit(s[1]) then
      var afterLetter := s[1..];
      var n := DigitSpan(afterLetter);
      [Run(s[0] == 'W', DigitsValue(afterLetter[..n]))] + FindRuns(afterLetter[n..])
    else FindRuns(s[1..])
  }

  /** A line without any `W` or `B` holds no run at all. */
  lemma {:induction false} NoLetterNoRuns(s: string)
    requires forall i :: 0 <= i < |s| ==> !IsColourLetter(s[i])
    ensures FindRuns(s) == []
  {
    if |s| >= 2 {
      NoLetterNoRuns(s[1..]);
    }
  }

  /** Characters other than a colour letter in front of a line are skipped by the scan. */
  lemma {:induction false} JunkIgnored(junk: string, rest: string)
    requires forall i :: 0 <= i < |junk| ==> !IsColourLetter(junk[i])
    ensures FindRuns(junk + rest) == FindRuns(rest)
    decreases |junk|
  {
    if junk != [] {
      var s := junk + rest;
      assert s[0] == junk[0];
      if |s| >= 2 {
        assert s[1..] == junk[1..] + rest;
        assert FindRuns(s) == FindRuns(junk[1..] + rest);
        JunkIgnored(junk[1..], rest);
      } else {
        assert rest == [];
      }
    } else {
      assert junk + rest == rest;
    }
  }

  /** A colour letter not followed by a digit starts no match; the scan resumes just after it. */
  lemma LoneLetterIgnored(c: char, rest: string)
    requires IsColourLetter(c)
    requires rest == [] || !IsDigit(rest[0])
    ensures FindRuns([c] + rest) == FindRuns(rest)
  {
    var s := [c] + rest;
    if rest != [] {
      assert s[1] == rest[0] && s[1..] == rest;
    }
  }

  /** The text form of one run as the firmware emits it: letter, decimal length, space. */
  function Token(r: Run): string {
    [if r.white then 'W' else 'B'] + Decimal(r.length) + " "
  }

  /** The whole run line of an RLE dump. */
  function RunsText(runs: seq<Run>): string {
    if runs == [] then "" else Token(runs[0]) + RunsText(runs[1..])
  }

  lemma DigitSpanOf(d: string, rest: string)
    requires AllDigits(d)
    requires rest == [] || !IsDigit(rest[0])
    ensures DigitSpan(d + rest) == |d|
    decreases |d|
  {
    if d != [] {
      assert (d + rest)[1..] == d[1..] + rest;
      DigitSpanOf(d[1..], rest);
    }
  }

  /** One token followed by anything is read as that run, then the rest. */
  lemma FindRunsToken(r: Run, rest: string)
    ensures FindRuns(Token(r) + rest) == [r] + FindRuns(rest)
  {
    var d := Decimal(r.length);
    var s := Token(r) + rest;
    var afterLetter := s[1..];
    assert afterLetter == d + (" " + rest);
    DigitSpanOf(d, " " + rest);
    assert afterLetter[..|d|] == d;
    assert afterLetter[|d|..] == " " + rest;
    DecimalRoundTrip(r.length);
    assert FindRuns(s) == [r] + FindRuns(" " + rest);
    if |" " + rest| >= 2 {
      assert (" " + rest)[1..] == rest;
    }
  }

  /** Tokenizing the run line gives back exactly the runs that were written. */
  lemma {:induction false} FindRunsOfText(runs: seq<Run>)
    ensures FindRuns(RunsText(runs)) == runs
  {
    if runs != [] {
      FindRunsToken(runs[0], RunsText(runs[1..]));
      FindRunsOfText(runs[1..]);
    }
  }

  // ------------------------------------------------------ run semantics

  /** Sum of all run lengths: how far the cursor moves in total. */
  function TotalLength(runs: seq<Run>): nat {
    if runs == [] then 0 else runs[0].length + TotalLength(runs[1..])
  }

  lemma {:induction false} TotalLengthAppend(a: seq<Run>, b: seq<Run>)
    ensures TotalLength(a + b) == TotalLength(a) + TotalLength(b)
  {
    if a == [] {
      assert a + b == b;
    } else {
      assert (a + b)[0] == a[0];
      assert (a + b)[1..] == a[1..] + b;
      TotalLengthAppend(a[1..], b);
    }
  }

  /** Row-major index at which run `k` starts. */
  function RunStart(runs: seq<Run>, k: nat): nat
    requires k <= |runs|
  {
    TotalLength(runs[..k])
  }

  /**
   * Colour the runs give to row-major index `i`: the colour of the run whose
   * cumulative range holds `i`, or black when no run reaches it.
   */
  function RlePixel(runs: seq<Run>, i: nat): bool {
    if runs == [] then false
    else if i < runs[0].length then runs[0].white
    else RlePixel(runs[1..], i - runs[0].length)
  }

  lemma RunStartNext(runs: seq<Run>, k: nat)
    requires k < |runs|
    ensures RunStart(runs, k + 1) == RunStart(runs, k) + runs[k].length
  {
    assert runs[..k + 1] == runs[..k] + [runs[k]];
    TotalLengthAppend(runs[..k], [runs[k]]);
  }

  lemma RunStartTail(runs: seq<Run>, k: nat)
    requires 0 < k <= |runs|
    ensures RunStart(runs, k) == runs[0].length + RunStart(runs[1..], k - 1)
  {
    assert runs[..k][1..] == runs[1..][..k - 1];
  }

  /** A pixel inside run `k`'s range takes run `k`'s colour. */
  lemma {:induction false} RlePixelInRun(runs: seq<Run>, k: nat, i: nat)
    requires k < |runs|
    requires RunStart(runs, k) <= i < RunStart(runs, k) + runs[k].length
    ensures RlePixel(runs, i) == runs[k].white
  {
    if k > 0 {
      RunStartTail(runs, k);
      RlePixelInRun(runs[1..], k - 1, i - runs[0].length);
    }
  }

  /** A pixel that no run reaches keeps the black background. */
  lemma {:induction false} RlePixelPastEnd(runs: seq<Run>, i: nat)
    requires i >= TotalLength(runs)
    ensures !RlePixel(runs, i)
  {
    if runs != [] {
      RlePixelPastEnd(runs[1..], i - runs[0].length);
    }
  }

  lemma {:induction false} RunStartMonotone(runs: seq<Run>, j: nat, k: nat)
    requires j <= k <= |runs|
    ensures RunStart(runs, j) <= RunStart(runs, k)
    decreases k - j
  {
    if j < k {
      RunStartNext(runs, j);
      RunStartMonotone(runs, j + 1, k);
    }
  }

  /**
   * Every index below the total length lies in the range of exactly one run,
   * and that run gives it its colour; so when the lengths add up to the
   * grid size, each pixel is covered by exactly one run.
   */
  lemma {:induction false} CoveringRun(runs: seq<Run>, i: nat) returns (k: nat)
    requires i < TotalLength(runs)
    ensures k < |runs| && RunStart(runs, k) <= i < RunStart(runs, k) + runs[k].length
    ensures RlePixel(runs, i) == runs[k].white
    ensures forall j :: 0 <= j < |runs| && RunStart(runs, j) <= i < RunStart(runs, j) + runs[j].length ==> j == k
  {
    if i < runs[0].length {
      k := 0;
    } else {
      var k' := CoveringRun(runs[1..], i - runs[0].length);
      k := k' + 1;
      RunStartTail(runs, k);
    }
    RlePixelInRun(runs, k, i);
    forall j | 0 <= j < |runs| && RunStart(runs, j) <= i < RunStart(runs, j) + runs[j].length
      ensures j == k
    {
      if j < k {
        RunStartNext(runs, j);
        RunStartMonotone(runs, j + 1, k);
      } else if k < j {
        RunStartNext(runs, k);
        RunStartMonotone(runs, k + 1, j);
      }
    }
  }

  // ---------------------------------------------------------- RLE decoder

  /**
   * The decoding loop of `process_rle_and_save`: paints the runs into a
   * fresh black 128x64 grid in row-major order and returns the final cursor.
   * Pixels past the last row are dropped.
   */
  method DecodeRuns(runs: seq<Run>) returns (pixels: array2<bool>, x: nat, y: nat)
    ensures pixels.Length0 == DISPLAY_WIDTH && pixels.Length1 == DISPLAY_HEIGHT
    ensures x < DISPLAY_WIDTH && y * DISPLAY_WIDTH + x == TotalLength(runs)
    ensures forall px, py :: 0 <= px < DISPLAY_WIDTH && 0 <= py < DISPLAY_HEIGHT ==>
              pixels[px, py] == RlePixel(runs, py * DISPLAY_WIDTH + px)
  {
    pixels := new bool[DISPLAY_WIDTH, DISPLAY_HEIGHT]((_, _) => false);
    x, y := 0, 0;
    for k := 0 to |runs|
      invariant x < DISPLAY_WIDTH && y * DISPLAY_WIDTH + x == RunStart(runs, k)
      invariant forall px, py :: 0 <= px < DISPLAY_WIDTH && 0 <= py < DISPLAY_HEIGHT ==>
                  pixels[px, py] == (py * DISPLAY_WIDTH + px < y * DISPLAY_WIDTH + x
                                     && RlePixel(runs, py * DISPLAY_WIDTH + px))
    {
      var colour := runs[k].white;
      for j := 0 to runs[k].length
        invariant x < DISPLAY_WIDTH && y * DISPLAY_WIDTH + x == RunStart(runs, k) + j
        invariant forall px, py :: 0 <= px < DISPLAY_WIDTH && 0 <= py < DISPLAY_HEIGHT ==>
                    pixels[px, py] == (py * DISPLAY_WIDTH + px < y * DISPLAY_WIDTH + x
                                       && RlePixel(runs, py * DISPLAY_WIDTH + px))
      {
        if x < DISPLAY_WIDTH && y < DISPLAY_HEIGHT {
          RlePixelInRun(runs, k, y * DISPLAY_WIDTH + x);
          pixels[x, y] := colour;
        }
        x := x + 1;
        if x >= DISPLAY_WIDTH {
          x := 0;
          y := y + 1;
        }
      }
      RunStartNext(runs, k);
    }
    assert runs[..|runs|] == runs;
    forall px, py | 0 <= px < DISPLAY_WIDTH && 0 <= py < DISPLAY_HEIGHT
      ensures pixels[px, py] == RlePixel(runs, py * DISPLAY_WIDTH + px)
    {
      if py * DISPLAY_WIDTH + px >= y * DISPLAY_WIDTH + x {
        RlePixelPastEnd(runs, py * DISPLAY_WIDTH + px);
      }
    }
  }

  /**
   * `process_rle_and_save` up to saving: empty data gives no image; anything
   * else gives the 128x64 picture painted by the runs found in the line.
   */
  method ProcessRle(rleData: string) returns (outcome: Outcome)
    ensures outcome.NoImage? <==> rleData == []
    ensures !outcome.IndexError?
    ensures outcome.Image? ==>
              outcome.pixels.Length0 == DISPLAY_WIDTH && outcome.pixels.Length1 == DISPLAY_HEIGHT
    ensures outcome.Image? ==>
              forall px, py :: 0 <= px < DISPLAY_WIDTH && 0 <= py < DISPLAY_HEIGHT ==>
                outcome.pixels[px, py] == RlePixel(FindRuns(rleData), py * DISPLAY_WIDTH + px)
  {
    if rleData == [] {
      return NoImage;
    }
    var runs := FindRuns(rleData);
    var pixels, _, _ := DecodeRuns(runs);
    outcome := Image(pixels);
  }

  // --------------------------------------------------- RLE round trip

  /** Run-length encoding of a row-major pixel sequence into maximal runs. */
  function Compress(s: seq<bool>): (runs: seq<Run>)
    ensures TotalLength(runs) == |s|
    ensures s != [] ==> runs != [] && runs[0].white == s[0] && runs[0].length >= 1
  {
    if s == [] then []
    else
      var rest := Compress(s[1..]);
      if rest != [] && rest[0].white == s[0] then
        [Run(s[0], rest[0].length + 1)] + rest[1..]
      else
        [Run(s[0], 1)] + rest
  }

  /** Decoding the encoding of `s` gives back every element of `s`. */
  lemma {:induction false} CompressDecodes(s: seq<bool>, i: nat)
    requires i < |s|
    ensures RlePixel(Compress(s), i) == s[i]
  {
    if i > 0 {
      var rest := Compress(s[1..]);
      CompressDecodes(s[1..], i - 1);
      if rest != [] && rest[0].white == s[0] {
        var runs := Compress(s);
        assert runs[1..] == rest[1..];
        if i - 1 < rest[0].length {
          assert RlePixel(rest, i - 1) == rest[0].white;
        } else {
          assert RlePixel(rest, i - 1) == RlePixel(rest[1..], i - 1 - rest[0].length);
        }
      } else {
        assert Compress(s)[1..] == rest;
      }
    }
  }

  /** A picture as rows of pixels: `grid[y][x]`. */
  predicate IsScreenGrid(grid: seq<seq<bool>>) {
    |grid| == DISPLAY_HEIGHT && forall y :: 0 <= y < |grid| ==> |grid[y]| == DISPLAY_WIDTH
  }

  /** The rows of a grid laid end to end: the firmware's row-major scan order. */
  function RowMajor(grid: seq<seq<bool>>): seq<bool> {
    if grid == [] then [] else grid[0] + RowMajor(grid[1..])
  }

  lemma {:induction false} RowMajorAt(grid: seq<seq<bool>>, x: nat, y: nat)
    requires forall r :: 0 <= r < |grid| ==> |grid[r]| == DISPLAY_WIDTH
    requires x < DISPLAY_WIDTH && y < |grid|
    ensures |RowMajor(grid)| == |grid| * DISPLAY_WIDTH
    ensures RowMajor(grid)[y * DISPLAY_WIDTH + x] == grid[y][x]
  {
    if y > 0 {
      RowMajorAt(grid[1..], x, y - 1);
    } else if |grid| > 1 {
      RowMajorAt(grid[1..], x, 0);
    } else {
      assert RowMajor(grid[1..]) == [];
    }
  }

  /** The run line the firmware sends for a picture. */
  function DumpLine(grid: seq<seq<bool>>): string {
    RunsText(Compress(RowMajor(grid)))
  }

  /**
   * RLE round trip: the run line of any 128x64 picture is non-empty, its
   * runs fill the grid exactly, and decoding it gives back every pixel;
   * with `ProcessRle`'s contract, the decoded image equals the picture.
   */
  lemma RleRoundTrip(grid: seq<seq<bool>>)
    requires IsScreenGrid(grid)
    ensures DumpLine(grid) != []
    ensures TotalLength(FindRuns(DumpLine(grid))) == DISPLAY_WIDTH * DISPLAY_HEIGHT
    ensures forall px, py :: 0 <= px < DISPLAY_WIDTH && 0 <= py < DISPLAY_HEIGHT ==>
              RlePixel(FindRuns(DumpLine(grid)), py * DISPLAY_WIDTH + px) == grid[py][px]
  {
    var runs := Compress(RowMajor(grid));
    FindRunsOfText(runs);
    RowMajorAt(grid, 0, 0);
    assert runs != [];
    assert |Token(runs[0])| >= 1;
    forall px, py | 0 <= px < DISPLAY_WIDTH && 0 <= py < DISPLAY_HEIGHT
      ensures grid[py][px] == RlePixel(runs, py * DISPLAY_WIDTH + px)
    {
      RowMajorAt(grid, px, py);
      CompressDecodes(RowMajor(grid), py * DISPLAY_WIDTH + px);
    }
  }

  // ------------------------------------------------- uncompressed decoder

  /** Whether row `y` of the ASCII dump lights pixel `x`. */
  predicate AsciiPixel(lines: seq<string>, x: nat, y: nat)
    requires y < |lines|
  {
    x < |lines[y]| && lines[y][x] == '#'
  }

  /** Some row has a `#` at or beyond the first row's length: PIL refuses that write. */
  predicate Overflows(lines: seq<string>)
    requires lines != []
  {
    exists y, x :: 0 <= y < |lines| && |lines[0]| <= x < |lines[y]| && lines[y][x] == '#'
  }

  /**
   * `process_uncompressed_and_save` up to saving: no lines give no image;
   * height is the number of lines, width the length of the first line; a
   * pixel is white exactly when its character is `#`. A `#` beyond the
   * first line's width makes PIL raise IndexError.
   */
  method ProcessUncompressed(lines: seq<string>) returns (outcome: Outcome)
    ensures outcome.NoImage? <==> lines == []
    ensures outcome.IndexError? <==> lines != [] && Overflows(lines)
    ensures outcome.Image? ==>
              outcome.pixels.Length0 == |lines[0]| && outcome.pixels.Length1 == |lines|
    ensures outcome.Image? ==>
              forall px, py :: 0 <= px < |lines[0]| && 0 <= py < |lines| ==>
                outcome.pixels[px, py] == AsciiPixel(lines, px, py)
  {
    if lines == [] {
      return NoImage;
    }
    var height := |lines|;
    var width := |lines[0]|;
    var pixels := new bool[width, height]((_, _) => false);
    for y := 0 to height
      invariant forall px, py :: 0 <= px < width && 0 <= py < height ==>
                  pixels[px, py] == (py < y && AsciiPixel(lines, px, py))
      invariant forall yy, xx :: 0 <= yy < y && width <= xx < |lines[yy]| ==> lines[yy][xx] != '#'
    {
      var row := lines[y];
      for x := 0 to |row|
        invariant forall px, py :: 0 <= px < width && 0 <= py < height ==>
                    pixels[px, py] == ((py < y || (py == y && px < x)) && AsciiPixel(lines, px, py))
        invariant forall xx :: width <= xx < x ==> row[xx] != '#'
      {
        if row[x] == '#' {
          if x >= width {
            return IndexError;
          }
          pixels[x, y] := true;
        }
      }
    }
    outcome := Image(pixels);
  }
}
