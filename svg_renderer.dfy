/** The vector renderer: one styled rectangle per module of the frame. The markup text
    itself is abstracted into the `SvgDocument` record. */
module SvgRenderer {
  import opened Frames
  import opened Grid

  /** The caller's options object: `value` is required, every other key may be absent. */
  datatype SvgOverrides = SvgOverrides(
    value: string,
    backgroundColor: Option<string>,
    backgroundAlpha: Option<real>,
    foregroundColor: Option<string>,
    foregroundAlpha: Option<real>,
    width: Option<real>,
    height: Option<real>,
    provider: ProviderOptions)

  /** The fully populated options every later step reads. */
  datatype SvgOptions = SvgOptions(
    value: string,
    backgroundColor: string,
    backgroundAlpha: real,
    foregroundColor: string,
    foregroundAlpha: real,
    width: real,
    height: real,
    provider: ProviderOptions)

  const DefaultBackgroundColor: string := "white"
  const DefaultBackgroundAlpha: real := 1.0
  const DefaultForegroundColor: string := "black"
  const DefaultForegroundAlpha: real := 1.0
  const DefaultWidth: real := 100.0
  const DefaultHeight: real := 100.0

  /** The options object `{ value }` that a bare string stands for. */
  function ValueOnly(value: string): SvgOverrides {
    SvgOverrides(value, None, None, None, None, None, None, map[])
  }

  /** Shallow merge: the renderer's defaults (with the provider's defaults `frameDefaults`),
      then the caller's keys on top, key by key. */
  function ProcessOptions(options: Input<SvgOverrides>, frameDefaults: ProviderOptions): SvgOptions {
    var json := match options
      case Text(s) => ValueOnly(s)
      case Options(o) => o;
    SvgOptions(
      json.value,
      json.backgroundColor.GetOr(DefaultBackgroundColor),
      json.backgroundAlpha.GetOr(DefaultBackgroundAlpha),
      json.foregroundColor.GetOr(DefaultForegroundColor),
      json.foregroundAlpha.GetOr(DefaultForegroundAlpha),
      json.width.GetOr(DefaultWidth),
      json.height.GetOr(DefaultHeight),
      frameDefaults + json.provider)
  }

  /** A bare string is processed exactly as the options object holding only that value,
      and gets white at opacity 1, black at opacity 1, a 100 by 100 document and the
      provider's defaults. */
  lemma StringIsValueObject(s: string, frameDefaults: ProviderOptions)
    ensures ProcessOptions(Text(s), frameDefaults) == ProcessOptions(Options(ValueOnly(s)), frameDefaults)
    ensures var r := ProcessOptions(Text(s), frameDefaults);
      r.value == s && r.backgroundColor == "white" && r.backgroundAlpha == 1.0 &&
      r.foregroundColor == "black" && r.foregroundAlpha == 1.0 &&
      r.width == 100.0 && r.height == 100.0 && r.provider == frameDefaults
  {
  }

  /** Every key the caller supplies wins; every key the caller leaves out keeps its default. */
  lemma CallerKeysOverrideDefaults(o: SvgOverrides, frameDefaults: ProviderOptions)
    ensures var r := ProcessOptions(Options(o), frameDefaults);
      r.value == o.value &&
      r.backgroundColor == (if o.backgroundColor.Some? then o.backgroundColor.value else "white") &&
      r.backgroundAlpha == (if o.backgroundAlpha.Some? then o.backgroundAlpha.value else 1.0) &&
      r.foregroundColor == (if o.foregroundColor.Some? then o.foregroundColor.value else "black") &&
      r.foregroundAlpha == (if o.foregroundAlpha.Some? then o.foregroundAlpha.value else 1.0) &&
      r.width == (if o.width.Some? then o.width.value else 100.0) &&
      r.height == (if o.height.Some? then o.height.value else 100.0) &&
      (forall key :: key in o.provider ==> key in r.provider && r.provider[key] == o.provider[key]) &&
      (forall key :: key in frameDefaults && key !in o.provider ==>
         key in r.provider && r.provider[key] == frameDefaults[key]) &&
      r.provider.Keys == frameDefaults.Keys + o.provider.Keys
  {
  }

  /** Fill colour and opacity of one rectangle. */
  datatype Style = Style(fill: string, opacity: real)

  /** The style of a module: foreground colour and alpha when it is enabled, background
      colour and alpha otherwise. */
  function GenerateStyle(options: SvgOptions, enabled: bool): Style {
    Style(
      if enabled then options.foregroundColor else options.backgroundColor,
      if enabled then options.foregroundAlpha else options.backgroundAlpha)
  }

  /** With distinct foreground and background colours the style tells set from unset
      modules: the fill is the foreground colour exactly when the module is enabled. */
  lemma StyleDistinguishesCells(options: SvgOptions, enabled: bool)
    requires options.foregroundColor != options.backgroundColor
    ensures GenerateStyle(options, enabled).fill == options.foregroundColor <==> enabled
    ensures GenerateStyle(options, enabled).fill == options.backgroundColor <==> !enabled
    ensures GenerateStyle(options, enabled).opacity
         == if enabled then options.foregroundAlpha else options.backgroundAlpha
  {
  }

  /** A module before styling: its position and whether its cell is set. */
  datatype ModuleCell = ModuleCell(x: real, y: real, enabled: bool)

  /** One rectangle element of the document. */
  datatype Rect = Rect(width: real, height: real, x: real, y: real, style: Style)

  /** The document: its overall size and its rectangles in emission order. */
  datatype SvgDocument = SvgDocument(width: real, height: real, rects: seq<Rect>)

  /** The width of one module: the document's width shared equally between the columns. */
  function ModuleWidth(options: SvgOptions, frame: Frame): real
    requires IsFrame(frame)
  {
    options.width / (frame.size as real)
  }

  /** The height of one module: the document's height shared equally between the rows. */
  function ModuleHeight(options: SvgOptions, frame: Frame): real
    requires IsFrame(frame)
  {
    options.height / (frame.size as real)
  }

  /** The module in column `i`, row `j`: scaled position, and whether the buffer holds 1
      in row `j`, column `i`. */
  function ModuleAt(frame: Frame, moduleWidth: real, moduleHeight: real, i: nat, j: nat): ModuleCell
    requires IsFrame(frame) && i < frame.size && j < frame.size
  {
    RowMajorInBounds(frame.size, j, i);
    ModuleCell(moduleWidth * (i as real), moduleHeight * (j as real),
               frame.buffer[j * frame.size + i] == 1)
  }

  /** The first `rows` modules of column `i`, in row order. */
  function ColumnPrefix(frame: Frame, moduleWidth: real, moduleHeight: real, i: nat, rows: nat)
    : seq<ModuleCell>
    requires IsFrame(frame) && i < frame.size && rows <= frame.size
  {
    if rows == 0 then []
    else ColumnPrefix(frame, moduleWidth, moduleHeight, i, rows - 1)
         + [ModuleAt(frame, moduleWidth, moduleHeight, i, rows - 1)]
  }

  /** The complete first `columns` columns, column after column. */
  function Columns(frame: Frame, moduleWidth: real, moduleHeight: real, columns: nat): seq<ModuleCell>
    requires IsFrame(frame) && columns <= frame.size
  {
    if columns == 0 then []
    else Columns(frame, moduleWidth, moduleHeight, columns - 1)
         + ColumnPrefix(frame, moduleWidth, moduleHeight, columns - 1, frame.size)
  }

  lemma {:induction false} ColumnPrefixAt(frame: Frame, moduleWidth: real, moduleHeight: real,
                                          i: nat, rows: nat, j: nat)
    requires IsFrame(frame) && i < frame.size && rows <= frame.size && j < rows
    ensures |ColumnPrefix(frame, moduleWidth, moduleHeight, i, rows)| == rows
    ensures ColumnPrefix(frame, moduleWidth, moduleHeight, i, rows)[j]
         == ModuleAt(frame, moduleWidth, moduleHeight, i, j)
  {
    if j < rows - 1 {
      ColumnPrefixAt(frame, moduleWidth, moduleHeight, i, rows - 1, j);
    } else if rows > 1 {
      ColumnPrefixAt(frame, moduleWidth, moduleHeight, i, rows - 1, 0);
    }
  }

  /** The first `columns` columns hold `columns * size` modules. */
  lemma {:induction false} ColumnsLength(frame: Frame, moduleWidth: real, moduleHeight: real, columns: nat)
    requires IsFrame(frame) && columns <= frame.size
    ensures |Columns(frame, moduleWidth, moduleHeight, columns)| == columns * frame.size
  {
    if columns > 0 {
      ColumnsLength(frame, moduleWidth, moduleHeight, columns - 1);
      ColumnPrefixAt(frame, moduleWidth, moduleHeight, columns - 1, frame.size, 0);
      assert (columns - 1) * frame.size + frame.size == columns * frame.size;
    }
  }

  /** Column after column: the first `columns` columns hold `columns * size` modules, and
      column `i`, row `j` sits at position `i * size + j`. */
  lemma {:induction false} ColumnsAt(frame: Frame, moduleWidth: real, moduleHeight: real,
                                     columns: nat, i: nat, j: nat)
    requires IsFrame(frame) && columns <= frame.size && i < columns && j < frame.size
    ensures |Columns(frame, moduleWidth, moduleHeight, columns)| == columns * frame.size
    ensures i * frame.size + j < columns * frame.size
    ensures Columns(frame, moduleWidth, moduleHeight, columns)[i * frame.size + j]
         == ModuleAt(frame, moduleWidth, moduleHeight, i, j)
  {
    var n := frame.size;
    var last := columns - 1;
    var prefix := Columns(frame, moduleWidth, moduleHeight, last);
    var column := ColumnPrefix(frame, moduleWidth, moduleHeight, last, n);
    ColumnsLength(frame, moduleWidth, moduleHeight, columns);
    ColumnsLength(frame, moduleWidth, moduleHeight, last);
    ColumnPrefixAt(frame, moduleWidth, moduleHeight, last, n, j);
    AppendRowAt(prefix, column, n, last, i, j);
    if i < last {
      ColumnsAt(frame, moduleWidth, moduleHeight, last, i, j);
    }
  }

  /** The nested loop of the renderer: column `i` outer, row `j` inner, appending one
      module per step. The result has one module per cell, and column `i`, row `j` is
      found at position `i * size + j`. */
  method CollectModules(frame: Frame, moduleWidth: real, moduleHeight: real)
    returns (rectangles: seq<ModuleCell>)
    requires IsFrame(frame)
    ensures |rectangles| == frame.size * frame.size
    ensures forall i, j :: 0 <= i < frame.size && 0 <= j < frame.size ==>
      At(rectangles, frame.size, i, j) == ModuleAt(frame, moduleWidth, moduleHeight, i, j)
  {
    var size := frame.size;
    rectangles := [];
    var i := 0;
    while i < size
      invariant 0 <= i <= size
      invariant rectangles == Columns(frame, moduleWidth, moduleHeight, i)
    {
      var j := 0;
      while j < size
        invariant 0 <= j <= size
        invariant rectangles == Columns(frame, moduleWidth, moduleHeight, i)
                                + ColumnPrefix(frame, moduleWidth, moduleHeight, i, j)
      {
        RowMajorInBounds(size, j, i);
        rectangles := rectangles + [ModuleCell(
          moduleWidth * (i as real),
          moduleHeight * (j as real),
          frame.buffer[j * size + i] == 1)];
        assert rectangles[|rectangles| - 1] == ModuleAt(frame, moduleWidth, moduleHeight, i, j);
        j := j + 1;
      }
      i := i + 1;
    }
    ColumnsLayout(frame, moduleWidth, moduleHeight);
  }

  /** All `size` columns: `size * size` modules, column `i`, row `j` at `i * size + j`. */
  lemma ColumnsLayout(frame: Frame, moduleWidth: real, moduleHeight: real)
    requires IsFrame(frame)
    ensures var all := Columns(frame, moduleWidth, moduleHeight, frame.size);
      |all| == frame.size * frame.size &&
      forall i, j :: 0 <= i < frame.size && 0 <= j < frame.size ==>
        At(all, frame.size, i, j) == ModuleAt(frame, moduleWidth, moduleHeight, i, j)
  {
    var n := frame.size;
    ColumnsAt(frame, moduleWidth, moduleHeight, n, 0, 0);
    forall i, j | 0 <= i < n && 0 <= j < n
      ensures At(Columns(frame, moduleWidth, moduleHeight, n), n, i, j)
           == ModuleAt(frame, moduleWidth, moduleHeight, i, j)
    {
      ColumnsAt(frame, moduleWidth, moduleHeight, n, i, j);
    }
  }

  /** The rectangle drawn for column `i`, row `j`: a `width/size` by `height/size` box at
      `(width/size * i, height/size * j)`, in the foreground style iff the buffer holds 1
      in row `j`, column `i`. */
  function RectOf(options: SvgOptions, frame: Frame, i: nat, j: nat): Rect
    requires IsFrame(frame) && i < frame.size && j < frame.size
  {
    RowMajorInBounds(frame.size, j, i);
    var w, h := ModuleWidth(options, frame), ModuleHeight(options, frame);
    Rect(w, h, w * (i as real), h * (j as real),
         GenerateStyle(options, frame.buffer[j * frame.size + i] == 1))
  }

  /** The final `map`: each module becomes a rectangle of the module's size, styled from
      its enabled flag, inside a document of the configured size. */
  function Markup(options: SvgOptions, moduleWidth: real, moduleHeight: real, rectangles: seq<ModuleCell>)
    : SvgDocument
  {
    SvgDocument(options.width, options.height,
      seq(|rectangles|, k requires 0 <= k < |rectangles| =>
        Rect(moduleWidth, moduleHeight, rectangles[k].x, rectangles[k].y,
             GenerateStyle(options, rectangles[k].enabled))))
  }

  /** Renders the frame that `generateFrame` returns for the processed options: a document
      of the configured size holding `size * size` rectangles, column `i`, row `j` at
      position `i * size + j`. */
  method RenderSvg(options: Input<SvgOverrides>, frameDefaults: ProviderOptions,
                   generateFrame: SvgOptions -> Frame)
    returns (doc: SvgDocument)
    requires IsFrame(generateFrame(ProcessOptions(options, frameDefaults)))
    ensures var processed := ProcessOptions(options, frameDefaults);
      var frame := generateFrame(processed);
      doc.width == processed.width && doc.height == processed.height &&
      |doc.rects| == frame.size * frame.size &&
      forall i, j :: 0 <= i < frame.size && 0 <= j < frame.size ==>
        At(doc.rects, frame.size, i, j) == RectOf(processed, frame, i, j)
  {
    var processed := ProcessOptions(options, frameDefaults);
    var frame := generateFrame(processed);
    var moduleSizeWidth := processed.width / (frame.size as real);
    var moduleSizeHeight := processed.height / (frame.size as real);
    var rectangles := CollectModules(frame, moduleSizeWidth, moduleSizeHeight);
    doc := Markup(processed, moduleSizeWidth, moduleSizeHeight, rectangles);
    MarkupAt(processed, frame, rectangles);
  }

  /** Styling the collected modules gives, cell for cell, the rectangles `RectOf` describes. */
  lemma MarkupAt(options: SvgOptions, frame: Frame, rectangles: seq<ModuleCell>)
    requires IsFrame(frame) && |rectangles| == frame.size * frame.size
    requires forall i, j :: 0 <= i < frame.size && 0 <= j < frame.size ==>
      At(rectangles, frame.size, i, j)
        == ModuleAt(frame, ModuleWidth(options, frame), ModuleHeight(options, frame), i, j)
    ensures var doc := Markup(options, ModuleWidth(options, frame), ModuleHeight(options, frame), rectangles);
      |doc.rects| == frame.size * frame.size &&
      forall i, j :: 0 <= i < frame.size && 0 <= j < frame.size ==>
        At(doc.rects, frame.size, i, j) == RectOf(options, frame, i, j)
  {
    var w, h := ModuleWidth(options, frame), ModuleHeight(options, frame);
    var doc := Markup(options, w, h, rectangles);
    forall i, j | 0 <= i < frame.size && 0 <= j < frame.size
      ensures At(doc.rects, frame.size, i, j) == RectOf(options, frame, i, j)
    {
      RowMajorInBounds(frame.size, i, j);
      var k := i * frame.size + j;
      assert rectangles[k] == At(rectangles, frame.size, i, j);
    }
  }

  /** Every rectangle has the same size: the document's size divided by the frame's side. */
  lemma UniformModuleSize(options: SvgOptions, frame: Frame, i: nat, j: nat)
    requires IsFrame(frame) && i < frame.size && j < frame.size
    ensures RectOf(options, frame, i, j).width * (frame.size as real) == options.width
    ensures RectOf(options, frame, i, j).height * (frame.size as real) == options.height
  {
  }

  /** With a positive document size no two cells share a rectangle position. */
  lemma PositionsDistinct(options: SvgOptions, frame: Frame, i1: nat, j1: nat, i2: nat, j2: nat)
    requires IsFrame(frame) && options.width > 0.0 && options.height > 0.0
    requires i1 < frame.size && j1 < frame.size && i2 < frame.size && j2 < frame.size
    requires i1 != i2 || j1 != j2
    ensures RectOf(options, frame, i1, j1).x != RectOf(options, frame, i2, j2).x
         || RectOf(options, frame, i1, j1).y != RectOf(options, frame, i2, j2).y
  {
    CellRecovered(options, frame, i1, j1);
    CellRecovered(options, frame, i2, j2);
  }

  /** For a positive document size the rectangle's position gives back its cell: `x` is
      `i` module widths and `y` is `j` module heights. */
  lemma CellRecovered(options: SvgOptions, frame: Frame, i: nat, j: nat)
    requires IsFrame(frame) && options.width > 0.0 && options.height > 0.0
    requires i < frame.size && j < frame.size
    ensures RectOf(options, frame, i, j).x / ModuleWidth(options, frame) == i as real
    ensures RectOf(options, frame, i, j).y / ModuleHeight(options, frame) == j as real
  {
    assert RectOf(options, frame, i, j).x == ModuleWidth(options, frame) * (i as real);
    assert RectOf(options, frame, i, j).y == ModuleHeight(options, frame) * (j as real);
    PositiveShare(options.width, frame.size);
    PositiveShare(options.height, frame.size);
  }

  /** A positive length shared between `n` modules gives each a positive share. */
  lemma PositiveShare(length: real, n: nat)
    requires length > 0.0 && n > 0
    ensures length / (n as real) > 0.0
  {
  }

  /** Every buffer cell `b` is read by exactly one rectangle: the one for column
      `b % size`, row `b / size`, which is drawn in the foreground style iff cell `b` is 1. */
  lemma EachCellDrawnOnce(options: SvgOptions, frame: Frame, b: nat, i: nat, j: nat)
    requires IsFrame(frame) && b < frame.size * frame.size && i < frame.size && j < frame.size
    ensures j * frame.size + i == b <==> (i == b % frame.size && j == b / frame.size)
    ensures b % frame.size < frame.size && b / frame.size < frame.size
    ensures RectOf(options, frame, b % frame.size, b / frame.size).style
         == GenerateStyle(options, frame.buffer[b] == 1)
  {
    var n := frame.size;
    DivInRange(n, b);
    RowMajorDivMod(n, j, i);
    RowMajorDivMod(n, b / n, b % n);
    assert b == (b / n) * n + b % n;
  }

  /** With the default options an unset module is white at opacity 1 and a set module
      black at opacity 1. */
  lemma DefaultStyles(s: string, frameDefaults: ProviderOptions)
    ensures GenerateStyle(ProcessOptions(Text(s), frameDefaults), false) == Style("white", 1.0)
    ensures GenerateStyle(ProcessOptions(Text(s), frameDefaults), true) == Style("black", 1.0)
  {
  }
}
