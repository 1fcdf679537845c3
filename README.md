# Two-tone and SVG renderers of scannable, in Dafny

This project models the two renderers that turn a QR code's square bitmap (a *frame*)
into text. The frame has a side `size` and a row-major `buffer` of `size * size` cells.

- **SVG renderer** (`renderSVG`)
  - It merges the caller's options over the defaults: white at opacity 1 for the
    background, black at opacity 1 for the foreground, and a 100 by 100 document.
  - It divides the document's width and height by the side to get each module's size.
  - A nested loop collects one module per cell, column `i` outer and row `j` inner. The
    module at list position `i * size + j` reads `buffer[j * size + i]`, so the list is the
    transpose of the buffer's order.
  - A final `map` turns each module into a rectangle styled from its enabled flag.
- **Two-tone renderer** (`renderTwoTone`)
  - It merges the caller's options over the default glyphs: full block, upper half, lower
    half and space.
  - It walks the rows two at a time. For each column it reads a top cell and a bottom cell
    and appends one of the four glyphs.
  - After each row pair it appends a line break unless the pair started on the last row.

Modules:

- `Frames` (`frames.dfy`): the frame, the caller's input (a bare string or an options
  object), optional keys and the provider's pass-through options.
- `Grid` (`grid.dfy`): row-major index arithmetic.
- `SvgRenderer` (`svg_renderer.dfy`): the SVG renderer.
- `TwoToneRenderer` (`two_tone_renderer.dfy`): the two-tone renderer.

The frame generator and its default options come from the QR encoder, which is not part of
this model. Each renderer takes them as parameters: `generateFrame` is a function from the
processed options to a frame, and `frameDefaults` is a map of provider keys. The only thing
required of the generated frame is `size > 0` and `|buffer| == size * size`.

The loops are methods proved against specification functions:

- `CollectModules` is proved against `Columns`.
- `AppendRowPair` is proved against `Line`.
- `RenderRowPairs` is proved against `RenderedText`.

The properties of the specification functions are lemmas.

The two-tone renderer tests cells with JavaScript truthiness. For an odd side, the last
row pair reads past the end of the buffer, and that read gives `undefined`. The model
states this as `Truthy`: an index outside the buffer counts as unset.

The line-break rule is modelled as written, and for an even side it leaves a break at the
end of the output. The evidently intended output, lines joined by single breaks, would be
`"▀▄"` for a 2 by 2 frame. The code gives `"▀▄\n"`. The model follows the code; see
Findings.

## Model

| member | source | states |
|---|---|---|
| SvgRenderer.StringIsValueObject | packages/scannable/src/qr/renderer/renderSVG.ts:48-54 | under `ProcessOptions`, a bare string is processed exactly as `{ value }`, and gets white/1, black/1 and 100 by 100 with the provider's defaults |
| SvgRenderer.CallerKeysOverrideDefaults | packages/scannable/src/qr/renderer/renderSVG.ts:51-54 | in the merge `ProcessOptions` makes, every key the caller supplies wins, every absent key keeps its default (the values at lines 18-27), and the provider keys are the union with the caller's overriding |
| SvgRenderer.DefaultStyles | packages/scannable/src/qr/renderer/renderSVG.ts:20-23 | `GenerateStyle` under the defaults: an unset module is white at opacity 1 and a set one black at opacity 1 |
| SvgRenderer.StyleDistinguishesCells | packages/scannable/src/qr/renderer/renderSVG.ts:30-36 | in the style `GenerateStyle` gives a module, the fill is the foreground colour iff the module is enabled and the background colour iff it is not (when the colours differ); the opacity is the matching alpha |
| SvgRenderer.CollectModules | packages/scannable/src/qr/renderer/renderSVG.ts:61-74 | the nested loop yields exactly `size * size` modules, and the one at position `i * size + j` has `x = moduleWidth * i`, `y = moduleHeight * j` and is enabled iff `buffer[j * size + i] == 1` |
| SvgRenderer.ColumnsAt | packages/scannable/src/qr/renderer/renderSVG.ts:63-72 | after `columns` outer iterations the list holds `columns * size` modules, with column `i`, row `j` at `i * size + j` |
| SvgRenderer.ColumnsLayout | packages/scannable/src/qr/renderer/renderSVG.ts:61-74 | the complete list holds `size * size` modules, each cell's module at its column-major position |
| SvgRenderer.MarkupAt | packages/scannable/src/qr/renderer/renderSVG.ts:78-86 | the `map` in `Markup` keeps the order and count, and gives each module a rectangle of the module size at its position, styled from its enabled flag |
| SvgRenderer.RenderSvg | packages/scannable/src/qr/renderer/renderSVG.ts:45-87 | the document has the configured width and height and `size * size` rectangles, with the one for column `i`, row `j` at position `i * size + j` |
| SvgRenderer.UniformModuleSize | packages/scannable/src/qr/renderer/renderSVG.ts:58-59 | with the module sizes `ModuleWidth` and `ModuleHeight`, every rectangle's width times the side is the document's width, and likewise for the height |
| SvgRenderer.PositionsDistinct | packages/scannable/src/qr/renderer/renderSVG.ts:63-69 | for a positive document size, two different cells never get the same rectangle position |
| SvgRenderer.CellRecovered | packages/scannable/src/qr/renderer/renderSVG.ts:68-69 | for a positive document size, dividing a rectangle's position by the module size gives back its column and row |
| SvgRenderer.EachCellDrawnOnce | packages/scannable/src/qr/renderer/renderSVG.ts:63-70 | buffer cell `b` is read by exactly one rectangle, the one for column `b % size` and row `b / size`, and that rectangle's style comes from cell `b` |
| Grid.RowMajorInBounds | packages/scannable/src/qr/renderer/renderSVG.ts:70 | for row and column below the side, the read index `row * size + column` lies in `[0, size * size)` |
| TwoToneRenderer.StringIsValueObject | src/renderer/renderTwoTone.ts:26-33 | under `ProcessOptions`, a bare string is processed exactly as `{ value }` and gets the glyphs `█`, `▀`, `▄` and space |
| TwoToneRenderer.CallerKeysOverrideDefaults | src/renderer/renderTwoTone.ts:26-33 | in the merge `ProcessOptions` makes, every glyph the caller supplies wins, every glyph left out keeps its default, and the caller's provider keys override the provider's |
| TwoToneRenderer.GlyphExclusive | src/renderer/renderTwoTone.ts:44-52 | with four distinct glyphs, `Glyph` chooses each glyph for exactly one combination of top and bottom cell, in both directions |
| TwoToneRenderer.ReadBounds | src/renderer/renderTwoTone.ts:41-42 | for the cell reads `Truthy` models, the top read is always inside the buffer; the bottom read falls outside exactly for the last row, and then counts as unset |
| TwoToneRenderer.LastRowOfOddFrame | src/renderer/renderTwoTone.ts:41-52 | in the unpaired last row of an odd side every glyph is the upper-half glyph or the empty glyph |
| TwoToneRenderer.RowPairsVisited | src/renderer/renderTwoTone.ts:39 | the output has `ceil(size / 2)` lines; line `p` is the row pair starting at row `2p < size`; no further pair starts inside the frame; and the last pair starts on row `size - 1` exactly when the side is odd |
| TwoToneRenderer.PairGlyphAt | src/renderer/renderTwoTone.ts:40-41 | the glyph read from the row starting at buffer index `i * size` takes its top cell from row `i` and its bottom cell from row `i + 1`, column `j` |
| TwoToneRenderer.AppendRowPair | src/renderer/renderTwoTone.ts:40-53 | the column loop appends exactly the line of the row pair, one glyph per column in order |
| TwoToneRenderer.LineAt | src/renderer/renderTwoTone.ts:40-53 | with one-character glyphs a line has `size` characters, and character `j` is the glyph of the top and bottom cells of column `j` |
| TwoToneRenderer.RenderRowPairs | src/renderer/renderTwoTone.ts:37-59 | the row-pair loop produces the lines of all `ceil(size / 2)` row pairs joined by breaks, plus one more break when the side is even |
| TwoToneRenderer.RenderTwoTone | src/renderer/renderTwoTone.ts:23-60 | the renderer's output is that text for the frame generated from the processed options |
| TwoToneRenderer.RenderedTextIsJoinedLines | src/renderer/renderTwoTone.ts:54-56 | the output equals the list of row-pair lines joined by single breaks, plus a trailing break exactly when the side is even |
| TwoToneRenderer.LinesAt | src/renderer/renderTwoTone.ts:39-53 | line `p` comes from rows `2p` and `2p + 1`, and its character `c` is the glyph for the cells at `2p * size + c` and `(2p + 1) * size + c` |
| TwoToneRenderer.TextLayout | src/renderer/renderTwoTone.ts:39-57 | with one-character glyphs the output has `ceil(size / 2) * (size + 1)` characters, less one for an odd side; character `c` of line `p` is at `p * (size + 1) + c`, and a break is at `p * (size + 1) + size` |
| TwoToneRenderer.TextPalette | src/renderer/renderTwoTone.ts:44-56 | every character of the output is a line break or a character of one of the four glyphs |
| TwoToneRenderer.BreakCount | src/renderer/renderTwoTone.ts:54-56 | with break-free glyphs the output holds `floor(size / 2)` breaks: `ceil(size / 2) - 1` for an odd side and `size / 2` for an even one |
| TwoToneRenderer.TrailingBreakIffEven | src/renderer/renderTwoTone.ts:54-56 | with non-empty, break-free glyphs the output ends with a line break exactly when the side is even |
| TwoToneRenderer.TwoByTwoExample | src/renderer/renderTwoTone.ts:39-57 | the 2 by 2 frame `[1, 0, 0, 1]` renders as `"▀▄\n"` under the default glyphs |
| TwoToneRenderer.OneByOneExample | src/renderer/renderTwoTone.ts:39-57 | the 1 by 1 set frame renders as `"▀"`: the missing bottom row is unset and no break follows |
| TwoToneRenderer.EvenSideTrailingBreak | src/renderer/renderTwoTone.ts:54-56 | as written, the 2 by 2 example's output differs from its joined lines by a trailing break |
| TwoToneRenderer.RenderRowPairsIntended | src/renderer/renderTwoTone.ts:54-56 | with the break guarded by `i + 2 < size`, the loop produces exactly the lines joined by single breaks, with no trailing break for either parity |

## Left out

- The QR encoder that builds the frame (`generateFrame`) and its default options (`defaultFrameOptions`) are not part of this model. They are parameters, and the provider keys the renderers pass through stay an opaque string map.
- IEEE-754 division and JavaScript's number-to-string formatting are not modelled. Module sizes, positions, alphas and the document's size are Dafny `real`s, and division is exact.
- SvgRenderer.RenderSvg: the SVG markup text is abstracted into an `SvgDocument` value holding the document's size and its rectangles in emission order. The attribute strings and the final `join` are not modelled, and neither is the `fill:...;opacity:...` style string, which is a `Style` value.
- `Object.freeze`, the `readonly` modifiers and the option type utilities are compile-time only.
- A caller key that is present but holds `undefined` overrides a default in a JavaScript spread. The model treats an absent key and an `undefined` key alike: both keep the default.
- Only cell values that are integers are modelled. A `NaN` cell, which JavaScript treats as falsy, is outside the model.
- The two-tone column loop is a method of its own, `AppendRowPair`, called from the row-pair loop. It is equivalent to the source's inner loop, with two changes. It reads each cell through `Truthy` into a boolean, where the source keeps the raw buffer value and tests it in the `if` chain. It picks the glyph into a local in the four branches and appends it once, where the source appends in each branch.
- The layout lemmas `TextLayout`, `LineAt` and `LinesAt` assume one-character glyphs. Glyphs are arbitrary strings, and for longer glyphs only `RenderRowPairs`, `TextPalette`, `BreakCount` and `TrailingBreakIffEven` apply. Their lengths count Unicode code points, where JavaScript's string length counts UTF-16 code units, so a glyph outside the Basic Multilingual Plane is one character here and two in the source; the output string itself is the same.
- TwoToneRenderer.BreakCount: the count assumes that no glyph contains a line break. A caller glyph containing one adds its own breaks.

## Findings

| source | as written | input that shows it | evidently intended | confidence | as-written member | corrected member |
|---|---|---|---|---|---|---|
| src/renderer/renderTwoTone.ts:54-56 | a break follows a row pair unless `i == size - 1`, which never holds for an even side, so the last pair of an even side is followed by a break | the 2 by 2 frame `[1, 0, 0, 1]` with the default glyphs gives `"▀▄\n"` | lines joined by single breaks with no trailing break, `"▀▄"` | not executed | TwoToneRenderer.EvenSideTrailingBreak | TwoToneRenderer.RenderRowPairsIntended |

The quirk shows only for frames with an even side. A QR symbol's side is `4 * version + 17`,
which is odd, so frames from the QR encoder reach it only if the encoder's margins add an
odd number of modules in total; the encoder is not part of this model.

The renderer as modelled (`RenderRowPairs`, `RenderTwoTone`) keeps the code's behaviour,
and `TrailingBreakIffEven` and `BreakCount` state it for both parities. `RenderRowPairsIntended`
is the same loop with the break guarded by `i + 2 < size`, proved to produce exactly the
joined lines.
