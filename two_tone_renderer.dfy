/** The two-tone text renderer: two bitmap rows per text line, one glyph per column,
    chosen from four configured glyphs by which of the two cells is set. */
module TwoToneRenderer {
  import opened Frames
  import opened Grid

  /** The caller's options object: `value` is required, the glyph keys may be absent. */
  datatype TwoToneOverrides = TwoToneOverrides(
    value: string,
    solidCharacter: Option<string>,
    solidTopCharacter: Option<string>,
    solidBottomCharacter: Option<string>,
    emptyCharacter: Option<string>,
    provider: ProviderOptions)

  /** The fully populated options. A glyph is a string: nothing limits it to one character. */
  datatype TwoToneOptions = TwoToneOptions(
    value: string,
    solidCharacter: string,
    solidTopCharacter: string,
    solidBottomCharacter: string,
    emptyCharacter: string,
    provider: ProviderOptions)

  const DefaultSolid: string := "█"
  const DefaultSolidTop: string := "▀"
  const DefaultSolidBottom: string := "▄"
  const DefaultEmpty: string := " "

  /** The options object `{ value }` that a bare string stands for. */
  function ValueOnly(value: string): TwoToneOverrides {
    TwoToneOverrides(value, None, None, None, None, map[])
  }

  /** Shallow merge: the provider's defaults `frameDefaults`, then the default glyphs,
      then the caller's keys on top, key by key. */
  function ProcessOptions(options: Input<TwoToneOverrides>, frameDefaults: ProviderOptions): TwoToneOptions {
    var o := match options
      case Text(s) => ValueOnly(s)
      case Options(o) => o;
    TwoToneOptions(
      o.value,
      o.solidCharacter.GetOr(DefaultSolid),
      o.solidTopCharacter.GetOr(DefaultSolidTop),
      o.solidBottomCharacter.GetOr(DefaultSolidBottom),
      o.emptyCharacter.GetOr(DefaultEmpty),
      frameDefaults + o.provider)
  }

  /** A bare string is processed exactly as the options object holding only that value,
      and gets the default glyphs full block, upper half, lower half and space. */
  lemma StringIsValueObject(s: string, frameDefaults: ProviderOptions)
    ensures ProcessOptions(Text(s), frameDefaults) == ProcessOptions(Options(ValueOnly(s)), frameDefaults)
    ensures var r := ProcessOptions(Text(s), frameDefaults);
      r.value == s && r.solidCharacter == "█" && r.solidTopCharacter == "▀" &&
      r.solidBottomCharacter == "▄" && r.emptyCharacter == " " && r.provider == frameDefaults
  {
  }

  /** Every glyph the caller supplies wins; every glyph left out keeps its default; the
      caller's provider keys override the provider's defaults. */
  lemma CallerKeysOverrideDefaults(o: TwoToneOverrides, frameDefaults: ProviderOptions)
    ensures var r := ProcessOptions(Options(o), frameDefaults);
      r.value == o.value &&
      r.solidCharacter == (if o.solidCharacter.Some? then o.solidCharacter.value else "█") &&
      r.solidTopCharacter == (if o.solidTopCharacter.Some? then o.solidTopCharacter.value else "▀") &&
      r.solidBottomCharacter == (if o.solidBottomCharacter.Some? then o.solidBottomCharacter.value else "▄") &&
      r.emptyCharacter == (if o.emptyCharacter.Some? then o.emptyCharacter.value else " ") &&
      (forall key :: key in o.provider ==> key in r.provider && r.provider[key] == o.provider[key]) &&
      (forall key :: key in frameDefaults && key !in o.provider ==>
         key in r.provider && r.provider[key] == frameDefaults[key]) &&
      r.provider.Keys == frameDefaults.Keys + o.provider.Keys
  {
  }

  /** A buffer read as the renderer's `if` sees it: an index past the end reads
      `undefined`, which, like 0, counts as unset. */
  function Truthy(buffer: seq<int>, index: int): bool {
    0 <= index < |buffer| && buffer[index] != 0
  }

  /** The top cell of the row pair starting at row `i`, column `j`. */
  function TopSet(frame: Frame, i: nat, j: nat): bool {
    Truthy(frame.buffer, i * frame.size + j)
  }

  /** The bottom cell of the row pair starting at row `i`, column `j`. */
  function BottomSet(frame: Frame, i: nat, j: nat): bool {
    Truthy(frame.buffer, (i + 1) * frame.size + j)
  }

  /** The glyph for a pair of cells. */
  function Glyph(options: TwoToneOptions, top: bool, bottom: bool): string {
    if top && bottom then options.solidCharacter
    else if !top && bottom then options.solidBottomCharacter
    else if top && !bottom then options.solidTopCharacter
    else options.emptyCharacter
  }

  /** The four glyphs are pairwise different. */
  predicate DistinctGlyphs(options: TwoToneOptions) {
    var g := [options.solidCharacter, options.solidTopCharacter,
              options.solidBottomCharacter, options.emptyCharacter];
    forall a, b :: 0 <= a < b < 4 ==> g[a] != g[b]
  }

  /** Exactly one branch fires: with distinct glyphs, each glyph is chosen for exactly one
      combination of top and bottom cell. */
  lemma GlyphExclusive(options: TwoToneOptions, top: bool, bottom: bool)
    requires DistinctGlyphs(options)
    ensures Glyph(options, top, bottom) == options.solidCharacter <==> top && bottom
    ensures Glyph(options, top, bottom) == options.solidBottomCharacter <==> !top && bottom
    ensures Glyph(options, top, bottom) == options.solidTopCharacter <==> top && !bottom
    ensures Glyph(options, top, bottom) == options.emptyCharacter <==> !top && !bottom
  {
    var g := [options.solidCharacter, options.solidTopCharacter,
              options.solidBottomCharacter, options.emptyCharacter];
    assert g[0] != g[1] && g[0] != g[2] && g[0] != g[3];
    assert g[1] != g[2] && g[1] != g[3] && g[2] != g[3];
  }

  /** The glyph of column `j` of the row pair whose top row starts at buffer index `top`:
      the top cell is at `top + j`, the bottom cell one row further on. */
  function PairGlyph(options: TwoToneOptions, frame: Frame, top: int, j: int): string {
    Glyph(options, Truthy(frame.buffer, top + j), Truthy(frame.buffer, top + frame.size + j))
  }

  /** For the row pair starting at row `i`, whose top row starts at `i * size`, the glyph of
      column `j` is the one for its top and bottom cells. */
  lemma PairGlyphAt(options: TwoToneOptions, frame: Frame, i: nat, j: nat)
    ensures PairGlyph(options, frame, i * frame.size, j)
         == Glyph(options, TopSet(frame, i, j), BottomSet(frame, i, j))
  {
    assert (i + 1) * frame.size == i * frame.size + frame.size;
  }

  /** The glyphs of columns `0 .. columns - 1` of the row pair whose top row starts at
      buffer index `top`. */
  function LinePrefix(options: TwoToneOptions, frame: Frame, top: int, columns: nat): string
    requires columns <= frame.size
  {
    if columns == 0 then ""
    else LinePrefix(options, frame, top, columns - 1) + PairGlyph(options, frame, top, columns - 1)
  }

  /** The text line of the row pair starting at row `i`. */
  function Line(options: TwoToneOptions, frame: Frame, i: nat): string {
    LinePrefix(options, frame, i * frame.size, frame.size)
  }

  /** The lines of the first `pairs` row pairs: rows 0 and 1, rows 2 and 3, ... */
  function LinesUpTo(options: TwoToneOptions, frame: Frame, pairs: nat): (lines: seq<string>)
    ensures |lines| == pairs
  {
    if pairs == 0 then []
    else LinesUpTo(options, frame, pairs - 1) + [Line(options, frame, 2 * (pairs - 1))]
  }

  /** One line per row pair, `ceil(size / 2)` lines. */
  function Lines(options: TwoToneOptions, frame: Frame): seq<string> {
    LinesUpTo(options, frame, (frame.size + 1) / 2)
  }

  /** Lines joined by single line breaks, with none after the last. */
  function JoinLines(lines: seq<string>): string {
    if |lines| == 0 then ""
    else if |lines| == 1 then lines[0]
    else JoinLines(lines[..|lines| - 1]) + "\n" + lines[|lines| - 1]
  }

  /** The lines of the first `pairs` row pairs joined by line breaks, built pair by pair as
      the loop builds them. It is `JoinLines(LinesUpTo(..))` (`JoinedPairsIsJoinLines`)
      written in one recursion, which keeps the loop invariants cheap to check. */
  function JoinedPairs(options: TwoToneOptions, frame: Frame, pairs: nat): string {
    if pairs == 0 then ""
    else if pairs == 1 then Line(options, frame, 0)
    else JoinedPairs(options, frame, pairs - 1) + "\n" + Line(options, frame, 2 * (pairs - 1))
  }

  /** The renderer's output: the lines of all `ceil(size / 2)` row pairs joined by line
      breaks, followed by one more line break exactly when the side is even. */
  function RenderedText(options: TwoToneOptions, frame: Frame): string
    requires IsFrame(frame)
  {
    JoinedPairs(options, frame, (frame.size + 1) / 2) + (if frame.size % 2 == 0 then "\n" else "")
  }

  lemma {:induction false} JoinedPairsIsJoinLines(options: TwoToneOptions, frame: Frame, pairs: nat)
    ensures JoinedPairs(options, frame, pairs) == JoinLines(LinesUpTo(options, frame, pairs))
  {
    if pairs > 0 {
      JoinedPairsIsJoinLines(options, frame, pairs - 1);
      JoinLinesSnoc(options, frame, pairs - 1);
    }
  }

  /** Joining the lines of one more row pair. */
  lemma JoinLinesSnoc(options: TwoToneOptions, frame: Frame, pairs: nat)
    ensures JoinLines(LinesUpTo(options, frame, pairs + 1))
         == if pairs == 0 then Line(options, frame, 0)
            else JoinLines(LinesUpTo(options, frame, pairs)) + "\n" + Line(options, frame, 2 * pairs)
  {
    var lines := LinesUpTo(options, frame, pairs + 1);
    assert lines[..pairs] == LinesUpTo(options, frame, pairs);
  }

  /** The output is the list of row-pair lines joined by breaks, one line per row pair,
      plus the trailing break of an even side. */
  lemma RenderedTextIsJoinedLines(options: TwoToneOptions, frame: Frame)
    requires IsFrame(frame)
    ensures RenderedText(options, frame)
         == JoinLines(Lines(options, frame)) + (if frame.size % 2 == 0 then "\n" else "")
  {
    JoinedPairsIsJoinLines(options, frame, (frame.size + 1) / 2);
  }

  /** The column loop of one row pair: appends to `str` the glyph of each column `j` in
      order, reading the top cell at `i * size + j` and the bottom cell at
      `(i + 1) * size + j`. */
  method AppendRowPair(options: TwoToneOptions, frame: Frame, i: nat, str: string)
    returns (result: string)
    requires IsFrame(frame)
    ensures result == str + Line(options, frame, i)
  {
    var size := frame.size;
    result := str;
    var j: nat := 0;
    assert (i + 1) * size == i * size + size;
    while j < size
      invariant j <= size
      invariant result == str + LinePrefix(options, frame, i * size, j)
    {
      var topExists := Truthy(frame.buffer, i * size + j);
      var bottomExists := Truthy(frame.buffer, (i + 1) * size + j);
      var glyph: string;
      if topExists && bottomExists {
        glyph := options.solidCharacter;
      } else if !topExists && bottomExists {
        glyph := options.solidBottomCharacter;
      } else if topExists && !bottomExists {
        glyph := options.solidTopCharacter;
      } else {
        glyph := options.emptyCharacter;
      }
      assert glyph == PairGlyph(options, frame, i * size, j);
      assert LinePrefix(options, frame, i * size, j + 1) == LinePrefix(options, frame, i * size, j) + glyph;
      result := result + glyph;
      j := j + 1;
    }
  }

  /** The row-pair loop: `i` steps by 2 and each pair appends its line; a line break
      follows the pair unless `i` is the last row, so an even side also ends with one. */
  method RenderRowPairs(options: TwoToneOptions, frame: Frame) returns (str: string)
    requires IsFrame(frame)
    ensures str == RenderedText(options, frame)
  {
    var size := frame.size;
    str := "";
    var i: nat := 0;
    ghost var pairs: nat := 0;
    while i < size
      invariant i == 2 * pairs && i <= size + 1
      invariant str == JoinedPairs(options, frame, pairs) + (if 0 < pairs && i <= size then "\n" else "")
    {
      str := AppendRowPair(options, frame, i, str);
      assert str == JoinedPairs(options, frame, pairs + 1);
      if i != size - 1 {
        str := str + "\n";
      }
      i, pairs := i + 2, pairs + 1;
    }
    assert pairs == (size + 1) / 2;
    assert (size % 2 == 0) == (i <= size);
  }

  /** Renders the frame that `generateFrame` returns for the processed options. */
  method RenderTwoTone(options: Input<TwoToneOverrides>, frameDefaults: ProviderOptions,
                       generateFrame: TwoToneOptions -> Frame)
    returns (str: string)
    requires IsFrame(generateFrame(ProcessOptions(options, frameDefaults)))
    ensures var processed := ProcessOptions(options, frameDefaults);
      str == RenderedText(processed, generateFrame(processed))
  {
    var processed := ProcessOptions(options, frameDefaults);
    var frame := generateFrame(processed);
    str := RenderRowPairs(processed, frame);
  }

  /** The top read of a row pair is always inside the buffer; the bottom read falls past
      its end exactly for the last row of an odd-sized frame, where it counts as unset. */
  lemma ReadBounds(frame: Frame, i: nat, j: nat)
    requires IsFrame(frame) && i < frame.size && j < frame.size
    ensures i * frame.size + j < |frame.buffer|
    ensures (i + 1) * frame.size + j >= |frame.buffer| <==> i == frame.size - 1
    ensures i == frame.size - 1 ==> !BottomSet(frame, i, j)
  {
    var n := frame.size;
    RowMajorInBounds(n, i, j);
    assert (i + 1) * n + j == i * n + j + n;
    if i < n - 1 {
      RowMajorInBounds(n, i + 1, j);
    } else {
      assert (i + 1) * n == n * n;
    }
  }

  /** The row pairs the loop visits: there are `ceil(size / 2)` lines, line `p` is the row
      pair starting at row `2p`, which is a row of the frame, no further pair would start
      inside the frame, and the last pair starts on row `size - 1` exactly when the side is
      odd. */
  lemma RowPairsVisited(options: TwoToneOptions, frame: Frame)
    requires IsFrame(frame)
    ensures |Lines(options, frame)| == (frame.size + 1) / 2
    ensures 2 * |Lines(options, frame)| >= frame.size
    ensures forall p :: 0 <= p < |Lines(options, frame)| ==>
      Lines(options, frame)[p] == Line(options, frame, 2 * p) && 2 * p < frame.size &&
      (2 * p == frame.size - 1 <==> frame.size % 2 == 1 && p == |Lines(options, frame)| - 1)
  {
    var lines := Lines(options, frame);
    forall p | 0 <= p < |lines|
      ensures lines[p] == Line(options, frame, 2 * p)
    {
      LinesUpToAt(options, frame, (frame.size + 1) / 2, p);
    }
  }

  /** In the unpaired last row of an odd-sized frame every glyph is the top-half glyph or
      the empty glyph. */
  lemma LastRowOfOddFrame(options: TwoToneOptions, frame: Frame, j: nat)
    requires IsFrame(frame) && frame.size % 2 == 1 && j < frame.size
    ensures Glyph(options, TopSet(frame, frame.size - 1, j), BottomSet(frame, frame.size - 1, j))
         == if TopSet(frame, frame.size - 1, j) then options.solidTopCharacter else options.emptyCharacter
  {
    ReadBounds(frame, frame.size - 1, j);
  }

  /** Every glyph is a single character, as the default glyphs are. A `char` is a Unicode
      code point, so lengths here count code points, not JavaScript's UTF-16 code units. */
  predicate SingleCharacterGlyphs(options: TwoToneOptions) {
    |options.solidCharacter| == 1 && |options.solidTopCharacter| == 1 &&
    |options.solidBottomCharacter| == 1 && |options.emptyCharacter| == 1
  }

  lemma {:induction false} LinePrefixLength(options: TwoToneOptions, frame: Frame, top: int, columns: nat)
    requires SingleCharacterGlyphs(options) && columns <= frame.size
    ensures |LinePrefix(options, frame, top, columns)| == columns
  {
    if columns > 0 {
      LinePrefixLength(options, frame, top, columns - 1);
    }
  }

  lemma {:induction false} LinePrefixAt(options: TwoToneOptions, frame: Frame, top: int, columns: nat, j: nat)
    requires SingleCharacterGlyphs(options) && columns <= frame.size && j < columns
    ensures |LinePrefix(options, frame, top, columns)| == columns
    ensures LinePrefix(options, frame, top, columns)[j] == PairGlyph(options, frame, top, j)[0]
  {
    LinePrefixLength(options, frame, top, columns);
    if j < columns - 1 {
      LinePrefixAt(options, frame, top, columns - 1, j);
    } else {
      LinePrefixLength(options, frame, top, columns - 1);
    }
  }

  /** With one-character glyphs a row pair's line has one character per column, the glyph
      of column `j` at position `j`. */
  lemma LineAt(options: TwoToneOptions, frame: Frame, i: nat, j: nat)
    requires SingleCharacterGlyphs(options) && j < frame.size
    ensures |Line(options, frame, i)| == frame.size
    ensures Line(options, frame, i)[j] == Glyph(options, TopSet(frame, i, j), BottomSet(frame, i, j))[0]
  {
    LinePrefixAt(options, frame, i * frame.size, frame.size, j);
    PairGlyphAt(options, frame, i, j);
  }

  /** Lines of equal width `w` joined by breaks are `|lines| * (w + 1) - 1` long. */
  lemma {:induction false} JoinLinesLength(lines: seq<string>, w: nat)
    requires |lines| > 0
    requires forall q :: 0 <= q < |lines| ==> |lines[q]| == w
    ensures |JoinLines(lines)| == |lines| * (w + 1) - 1
  {
    var m := |lines|;
    if m > 1 {
      JoinLinesLength(lines[..m - 1], w);
      assert (m - 1) * (w + 1) + (w + 1) == m * (w + 1);
    }
  }

  /** In lines of equal width `w` joined by breaks, character `c` of line `p` sits at
      `p * (w + 1) + c`, and the break after line `p` at `p * (w + 1) + w`. */
  lemma {:induction false} JoinLinesAt(lines: seq<string>, w: nat, p: nat, c: nat)
    requires forall q :: 0 <= q < |lines| ==> |lines[q]| == w
    requires p < |lines| && c <= w && (c < w || p < |lines| - 1)
    ensures |JoinLines(lines)| == |lines| * (w + 1) - 1
    ensures p * (w + 1) + c < |JoinLines(lines)|
    ensures JoinLines(lines)[p * (w + 1) + c] == if c < w then lines[p][c] else '\n'
  {
    var m := |lines|;
    JoinLinesLength(lines, w);
    if m > 1 {
      var init := lines[..m - 1];
      JoinLinesLength(init, w);
      assert JoinLines(lines) == JoinLines(init) + "\n" + lines[m - 1];
      assert (m - 1) * (w + 1) == (m - 2) * (w + 1) + (w + 1);
      if p < m - 1 && (c < w || p < m - 2) {
        JoinLinesAt(init, w, p, c);
      } else if p < m - 1 {
        assert p == m - 2 && c == w;
      } else {
        assert p * (w + 1) + c == |JoinLines(init)| + 1 + c;
      }
    }
  }

  /** Lines of equal width `w` joined by breaks, optionally followed by one more break:
      character `c` of line `p` sits at `p * (w + 1) + c`, and the break after line `p`
      at `p * (w + 1) + w`. */
  lemma JoinedWithTailAt(lines: seq<string>, w: nat, trailing: bool, p: nat, c: nat)
    requires forall q :: 0 <= q < |lines| ==> |lines[q]| == w
    requires p < |lines| && c <= w && (c < w || p < |lines| - 1 || trailing)
    ensures var text := JoinLines(lines) + (if trailing then "\n" else "");
      |text| == |lines| * (w + 1) - (if trailing then 0 else 1) &&
      p * (w + 1) + c < |text| &&
      text[p * (w + 1) + c] == if c < w then lines[p][c] else '\n'
  {
    JoinLinesLength(lines, w);
    if c < w || p < |lines| - 1 {
      JoinLinesAt(lines, w, p, c);
    } else {
      assert |lines| * (w + 1) == p * (w + 1) + (w + 1);
    }
  }

  /** Every line is as wide as the frame when the glyphs are single characters. */
  lemma LinesWidth(options: TwoToneOptions, frame: Frame)
    requires SingleCharacterGlyphs(options)
    ensures forall q :: 0 <= q < |Lines(options, frame)| ==> |Lines(options, frame)[q]| == frame.size
  {
    var lines := Lines(options, frame);
    forall q | 0 <= q < |lines| ensures |lines[q]| == frame.size {
      LinesUpToAt(options, frame, (frame.size + 1) / 2, q);
      LinePrefixLength(options, frame, 2 * q * frame.size, frame.size);
    }
  }

  /** The layout of the output for one-character glyphs: `ceil(size / 2)` lines of `size`
      characters each, each followed by a break except the last line of an odd-sized
      frame. */
  lemma TextLayout(options: TwoToneOptions, frame: Frame, p: nat, c: nat)
    requires IsFrame(frame) && SingleCharacterGlyphs(options)
    requires p < (frame.size + 1) / 2 && c <= frame.size
    requires c < frame.size || 2 * p + 2 <= frame.size
    ensures |Lines(options, frame)[p]| == frame.size
    ensures |RenderedText(options, frame)|
         == (frame.size + 1) / 2 * (frame.size + 1) - (if frame.size % 2 == 1 then 1 else 0)
    ensures p * (frame.size + 1) + c < |RenderedText(options, frame)|
    ensures RenderedText(options, frame)[p * (frame.size + 1) + c]
         == if c < frame.size then Lines(options, frame)[p][c] else '\n'
  {
    var n := frame.size;
    var lines := Lines(options, frame);
    assert RenderedText(options, frame) == JoinLines(lines) + (if n % 2 == 0 then "\n" else "") by {
      RenderedTextIsJoinedLines(options, frame);
    }
    LinesWidth(options, frame);
    JoinedWithTailAt(lines, n, n % 2 == 0, p, c);
  }

  /** Line `p` of the output is drawn from rows `2p` and `2p + 1`: its character `c` is the
      glyph of the top cell at `2p * size + c` and the bottom cell at `(2p + 1) * size + c`. */
  lemma LinesAt(options: TwoToneOptions, frame: Frame, p: nat, c: nat)
    requires SingleCharacterGlyphs(options)
    requires p < (frame.size + 1) / 2 && c < frame.size
    ensures |Lines(options, frame)[p]| == frame.size
    ensures Lines(options, frame)[p][c]
         == Glyph(options, TopSet(frame, 2 * p, c), BottomSet(frame, 2 * p, c))[0]
  {
    LinesUpToAt(options, frame, (frame.size + 1) / 2, p);
    LineAt(options, frame, 2 * p, c);
  }

  lemma {:induction false} LinesUpToAt(options: TwoToneOptions, frame: Frame, pairs: nat, p: nat)
    requires p < pairs
    ensures LinesUpTo(options, frame, pairs)[p] == Line(options, frame, 2 * p)
  {
    if p < pairs - 1 {
      LinesUpToAt(options, frame, pairs - 1, p);
    }
  }

  /** No glyph contains a line break. */
  predicate BreakFreeGlyphs(options: TwoToneOptions) {
    '\n' !in options.solidCharacter && '\n' !in options.solidTopCharacter &&
    '\n' !in options.solidBottomCharacter && '\n' !in options.emptyCharacter
  }

  /** A character of one of the four configured glyphs. */
  predicate InPalette(options: TwoToneOptions, ch: char) {
    ch in options.solidCharacter || ch in options.solidTopCharacter ||
    ch in options.solidBottomCharacter || ch in options.emptyCharacter
  }

  lemma {:induction false} LinePrefixPalette(options: TwoToneOptions, frame: Frame, top: int, columns: nat)
    requires columns <= frame.size
    ensures forall ch :: ch in LinePrefix(options, frame, top, columns) ==> InPalette(options, ch)
  {
    if columns > 0 {
      LinePrefixPalette(options, frame, top, columns - 1);
    }
  }

  lemma {:induction false} LinesUpToPalette(options: TwoToneOptions, frame: Frame, pairs: nat)
    ensures forall ch :: ch in JoinedPairs(options, frame, pairs) ==> ch == '\n' || InPalette(options, ch)
  {
    if pairs > 0 {
      LinePrefixPalette(options, frame, 2 * (pairs - 1) * frame.size, frame.size);
      if pairs > 1 {
        LinesUpToPalette(options, frame, pairs - 1);
      }
    }
  }

  /** The output holds nothing but characters of the four glyphs and line breaks. */
  lemma TextPalette(options: TwoToneOptions, frame: Frame)
    requires IsFrame(frame)
    ensures forall ch :: ch in RenderedText(options, frame) ==> ch == '\n' || InPalette(options, ch)
  {
    LinesUpToPalette(options, frame, (frame.size + 1) / 2);
  }

  lemma GlyphBreakFree(options: TwoToneOptions, top: bool, bottom: bool)
    requires BreakFreeGlyphs(options)
    ensures multiset(Glyph(options, top, bottom))['\n'] == 0
  {
    var g := Glyph(options, top, bottom);
    assert '\n' !in g;
  }

  lemma {:induction false} LinePrefixBreakFree(options: TwoToneOptions, frame: Frame, top: int, columns: nat)
    requires BreakFreeGlyphs(options) && columns <= frame.size
    ensures multiset(LinePrefix(options, frame, top, columns))['\n'] == 0
  {
    if columns > 0 {
      var prefix := LinePrefix(options, frame, top, columns - 1);
      var g := PairGlyph(options, frame, top, columns - 1);
      LinePrefixBreakFree(options, frame, top, columns - 1);
      GlyphBreakFree(options, Truthy(frame.buffer, top + columns - 1),
                     Truthy(frame.buffer, top + frame.size + columns - 1));
      assert multiset(prefix + g) == multiset(prefix) + multiset(g);
    }
  }

  lemma {:induction false} JoinedPairsBreaks(options: TwoToneOptions, frame: Frame, pairs: nat)
    requires BreakFreeGlyphs(options) && pairs > 0
    ensures multiset(JoinedPairs(options, frame, pairs))['\n'] == pairs - 1
  {
    LinePrefixBreakFree(options, frame, 2 * (pairs - 1) * frame.size, frame.size);
    if pairs > 1 {
      JoinedPairsBreaks(options, frame, pairs - 1);
    }
  }

  /** With break-free glyphs the output holds `floor(size / 2)` line breaks: one less than
      the number of lines for an odd side, as many as the lines for an even side. */
  lemma BreakCount(options: TwoToneOptions, frame: Frame)
    requires IsFrame(frame) && BreakFreeGlyphs(options)
    ensures multiset(RenderedText(options, frame))['\n'] == frame.size / 2
    ensures frame.size % 2 == 1 ==> frame.size / 2 == (frame.size + 1) / 2 - 1
    ensures frame.size % 2 == 0 ==> frame.size / 2 == (frame.size + 1) / 2
  {
    JoinedPairsBreaks(options, frame, (frame.size + 1) / 2);
  }

  lemma {:induction false} LinePrefixLast(options: TwoToneOptions, frame: Frame, top: int, columns: nat)
    requires columns <= frame.size && columns > 0
    requires |options.solidCharacter| > 0 && |options.solidTopCharacter| > 0
    requires |options.solidBottomCharacter| > 0 && |options.emptyCharacter| > 0
    requires BreakFreeGlyphs(options)
    ensures var line := LinePrefix(options, frame, top, columns);
      |line| > 0 && line[|line| - 1] != '\n'
  {
    var g := PairGlyph(options, frame, top, columns - 1);
    assert g[|g| - 1] in g;
  }

  /** With non-empty, break-free glyphs the joined lines of one or more row pairs end
      with a glyph character, not with a line break. */
  lemma JoinedPairsLast(options: TwoToneOptions, frame: Frame, pairs: nat)
    requires 0 < pairs && frame.size > 0 && BreakFreeGlyphs(options)
    requires |options.solidCharacter| > 0 && |options.solidTopCharacter| > 0
    requires |options.solidBottomCharacter| > 0 && |options.emptyCharacter| > 0
    ensures var joined := JoinedPairs(options, frame, pairs);
      |joined| > 0 && joined[|joined| - 1] != '\n'
  {
    var last := Line(options, frame, 2 * (pairs - 1));
    LinePrefixLast(options, frame, 2 * (pairs - 1) * frame.size, frame.size);
    var joined := JoinedPairs(options, frame, pairs);
    if pairs > 1 {
      assert joined == JoinedPairs(options, frame, pairs - 1) + "\n" + last;
    }
    assert joined[|joined| - 1] == last[|last| - 1];
  }

  /** With non-empty, break-free glyphs the output ends with a line break exactly when the
      frame's side is even. */
  lemma TrailingBreakIffEven(options: TwoToneOptions, frame: Frame)
    requires IsFrame(frame) && BreakFreeGlyphs(options)
    requires |options.solidCharacter| > 0 && |options.solidTopCharacter| > 0
    requires |options.solidBottomCharacter| > 0 && |options.emptyCharacter| > 0
    ensures var text := RenderedText(options, frame);
      |text| > 0 && (text[|text| - 1] == '\n' <==> frame.size % 2 == 0)
  {
    var joined := JoinedPairs(options, frame, (frame.size + 1) / 2);
    JoinedPairsLast(options, frame, (frame.size + 1) / 2);
    var text := RenderedText(options, frame);
    if frame.size % 2 == 0 {
      assert text == joined + "\n";
    } else {
      assert text == joined;
    }
  }

  /** A 2 by 2 frame with cells 1, 0 / 0, 1 under the default glyphs renders as the
      upper-half glyph, the lower-half glyph and a line break. */
  lemma TwoByTwoExample(frameDefaults: ProviderOptions)
    ensures RenderedText(ProcessOptions(Text("x"), frameDefaults), Frame(2, [1, 0, 0, 1])) == "▀▄\n"
  {
    var options := ProcessOptions(Text("x"), frameDefaults);
    var frame := Frame(2, [1, 0, 0, 1]);
    assert PairGlyph(options, frame, 0, 0) == "▀";
    assert PairGlyph(options, frame, 0, 1) == "▄";
    assert LinePrefix(options, frame, 0, 1) == "▀";
    assert Line(options, frame, 0) == "▀▄";
  }

  /** A 1 by 1 set frame renders as the upper-half glyph alone: the missing bottom row
      counts as unset, and no line break follows. */
  lemma OneByOneExample(frameDefaults: ProviderOptions)
    ensures RenderedText(ProcessOptions(Text("x"), frameDefaults), Frame(1, [1])) == "▀"
  {
    var options := ProcessOptions(Text("x"), frameDefaults);
    var frame := Frame(1, [1]);
    assert PairGlyph(options, frame, 0, 0) == "▀";
    assert LinePrefix(options, frame, 0, 0) == "";
    assert Line(options, frame, 0) == "▀";
  }

  /** The row-pair loop with the break rule evidently intended: a break between row
      pairs and none after the last, whatever the parity of the side. */
  method RenderRowPairsIntended(options: TwoToneOptions, frame: Frame) returns (str: string)
    requires IsFrame(frame)
    ensures str == JoinLines(Lines(options, frame))
  {
    var size := frame.size;
    str := "";
    var i: nat := 0;
    ghost var pairs: nat := 0;
    while i < size
      invariant i == 2 * pairs && i <= size + 1
      invariant str == JoinedPairs(options, frame, pairs) + (if 0 < pairs && i < size then "\n" else "")
    {
      str := AppendRowPair(options, frame, i, str);
      assert str == JoinedPairs(options, frame, pairs + 1);
      if i + 2 < size {
        str := str + "\n";
      }
      i, pairs := i + 2, pairs + 1;
    }
    assert pairs == (size + 1) / 2;
    JoinedPairsIsJoinLines(options, frame, pairs);
  }

  /** As written, the 2 by 2 example ends with a line break that the joined lines do not
      have: the break rule `i != size - 1` never excludes the last pair of an even side. */
  lemma EvenSideTrailingBreak(frameDefaults: ProviderOptions)
    ensures var options := ProcessOptions(Text("x"), frameDefaults);
      var frame := Frame(2, [1, 0, 0, 1]);
      RenderedText(options, frame) == "▀▄\n" && JoinLines(Lines(options, frame)) == "▀▄" &&
      RenderedText(options, frame) != JoinLines(Lines(options, frame))
  {
    TwoByTwoExample(frameDefaults);
    JoinedPairsIsJoinLines(ProcessOptions(Text("x"), frameDefaults), Frame(2, [1, 0, 0, 1]), 1);
  }
}
