/**
 * Text rendering for gallery watermarks: `convert` lays text out line by
 * line from a font's metrics, and `loadFont` looks for a font file.
 * Glyph outlines are not modelled: the advance width of a line and the
 * vertical extent of its outline (at the requested size, drawn at the
 * origin) are given as functions. All arithmetic is over exact reals.
 */
module Font {
  import opened Wrappers
  import JsString
  import Paths

  type PositiveReal = r: real | r > 0.0 witness 1.0

  /** The metrics `convert` reads from an opentype font, in font units. */
  datatype FontMetrics = FontMetrics(ascender: real, descender: real, unitsPerEm: PositiveReal, height: real)

  /** The vertical extent of an outline: `top` is its smallest y, `bottom` its largest. */
  datatype Extent = Extent(top: real, bottom: real)

  /** The options a caller may pass; `None` when a key is absent. */
  datatype Options = Options(
    attr: Option<string>,
    lineHeight: Option<real>,
    align: Option<string>,
    useSvg: Option<bool>,
    padding: Option<real>,
    prepend: Option<string>,
    append: Option<string>,
    color: Option<string>)

  const NoOptions := Options(None, None, None, None, None, None, None, None)

  /** The options after `{...Default, ...options}`. */
  datatype Settings = Settings(
    attr: string,
    lineHeight: real,
    align: string,
    useSvg: bool,
    padding: real,
    prepend: string,
    append: string,
    color: string)

  /**
   * `{ ...Default, ...options }`: every option the caller gives
   * replaces its default; the default line height is the font's, scaled to
   * `size`. MergeDefaults, MergeAllGiven and MergeFontOnlyLineHeight state
   * what the merge means.
   */
  function Merge(font: FontMetrics, size: real, o: Options): Settings {
    Settings(
      o.attr.GetOr(""),
      o.lineHeight.GetOr(font.height / font.unitsPerEm * size),
      o.align.GetOr("left"),
      o.useSvg.GetOr(false),
      o.padding.GetOr(0.0),
      o.prepend.GetOr(""),
      o.append.GetOr(""),
      o.color.GetOr("black"))
  }

  /** The `Default` object of `convert`. */
  function Defaults(font: FontMetrics, size: real): Settings {
    Settings("", font.height / font.unitsPerEm * size, "left", false, 0.0, "", "", "black")
  }

  /** Options that name every key, with the values of `s`. */
  function Given(s: Settings): Options {
    Options(Some(s.attr), Some(s.lineHeight), Some(s.align), Some(s.useSvg), Some(s.padding), Some(s.prepend), Some(s.append), Some(s.color))
  }

  /** Without options, `convert` works with its `Default` object. */
  lemma MergeDefaults(font: FontMetrics, size: real)
    ensures Merge(font, size, NoOptions) == Defaults(font, size)
  {
  }

  /** Options that name every key are taken as they are, whatever the font and the size. */
  lemma MergeAllGiven(font: FontMetrics, size: real, s: Settings)
    ensures Merge(font, size, Given(s)) == s
  {
  }

  /** The font and the size reach the settings only through the default line height. */
  lemma MergeFontOnlyLineHeight(f1: FontMetrics, f2: FontMetrics, size1: real, size2: real, o: Options)
    ensures Merge(f1, size1, o).(lineHeight := 0.0) == Merge(f2, size2, o).(lineHeight := 0.0)
    ensures o.lineHeight.Some? ==> Merge(f1, size1, o) == Merge(f2, size2, o)
  {
  }

  /** One `<path>` of the SVG: the outline of `line` moved by (`dx`, `dy`); `dx` is `None` when the alignment is not recognised. */
  datatype PathElement = PathElement(fill: string, line: string, dx: Option<real>, dy: real, attr: string)

  /** The SVG document, with `prepend` and `append` as their lines. */
  datatype Svg = Svg(width: real, height: real, prepend: seq<string>, paths: seq<PathElement>, append: seq<string>)

  /** What the promise of `convert` settles with. */
  datatype Rendered = SvgBuffer(svg: Svg) | PngBuffer(svg: Svg, top: real) | RasterError

  /** The lines of `text`: split at every `\n`, or the text as one line when it has none. */
  function Lines(text: string): seq<string> {
    if JsString.Contains(text, "\n") then JsString.Split(text, '\n') else [text]
  }

  /** The test for `\n` changes nothing: there are always one more line than newlines. */
  lemma LinesAreSplit(text: string)
    ensures Lines(text) == JsString.Split(text, '\n')
    ensures |Lines(text)| == JsString.Count(text, '\n') + 1
  {
    JsString.ContainsIffOccurs(text, "\n");
    JsString.SplitCount(text, '\n');
    if !JsString.Contains(text, "\n") {
      assert '\n' !in text by {
        if '\n' in text {
          var i :| 0 <= i < |text| && text[i] == '\n';
          assert text[i..i + 1] == "\n";
          assert JsString.OccursAt(text, "\n", i);
        }
      }
      JsString.SplitWithoutSeparator(text, '\n');
    }
  }

  function Max(a: real, b: real): real { if a >= b then a else b }

  function Min(a: real, b: real): real { if a <= b then a else b }

  /** The widest line (`Math.max` from 0 over the advance widths). */
  function MaxAdvance(lines: seq<string>, advance: string -> real): real {
    if lines == [] then 0.0 else Max(MaxAdvance(lines[..|lines| - 1], advance), advance(lines[|lines| - 1]))
  }

  /** `MaxAdvance` bounds every advance from above and is one of them, or 0. */
  lemma {:induction false} MaxAdvanceIsMax(lines: seq<string>, advance: string -> real)
    ensures MaxAdvance(lines, advance) >= 0.0
    ensures forall i :: 0 <= i < |lines| ==> advance(lines[i]) <= MaxAdvance(lines, advance)
    ensures MaxAdvance(lines, advance) == 0.0 || exists i :: 0 <= i < |lines| && MaxAdvance(lines, advance) == advance(lines[i])
    decreases |lines|
  {
    if lines != [] {
      var init := lines[..|lines| - 1];
      MaxAdvanceIsMax(init, advance);
      forall i | 0 <= i < |lines| ensures advance(lines[i]) <= MaxAdvance(lines, advance) {
        if i < |init| {
          assert lines[i] == init[i];
        }
      }
      if MaxAdvance(lines, advance) != 0.0 && MaxAdvance(lines, advance) == MaxAdvance(init, advance) {
        var i :| 0 <= i < |init| && MaxAdvance(init, advance) == advance(init[i]);
        assert lines[i] == init[i];
      }
    }
  }

  /** The x offset of a line of width `w` for a lower-cased alignment, in a box `maxWidth` wide starting at `x`. */
  function XAlign(align: string, maxWidth: real, w: real, x: real): Option<real> {
    if align == "center" then Some((maxWidth - w) / 2.0 + x)
    else if align == "left" || align == "start" then Some(x)
    else if align == "right" || align == "end" then Some(maxWidth - w + x)
    else None
  }

  /** Left-aligned lines start at `x`, right-aligned lines end at `x + maxWidth`, centred lines share their midpoint. */
  lemma AlignmentEdges(maxWidth: real, w: real, x: real)
    ensures XAlign("left", maxWidth, w, x) == XAlign("start", maxWidth, w, x) == Some(x)
    ensures XAlign("right", maxWidth, w, x) == XAlign("end", maxWidth, w, x)
    ensures XAlign("right", maxWidth, w, x).value + w == x + maxWidth
    ensures XAlign("center", maxWidth, w, x).value + w / 2.0 == x + maxWidth / 2.0
  {
  }

  /** Only the five recognised alignments give an offset. */
  lemma XAlignDefinedIff(align: string, maxWidth: real, w: real, x: real)
    ensures XAlign(align, maxWidth, w, x).Some? <==> align in {"center", "left", "start", "right", "end"}
  {
  }

  /** The baseline of line `i`: the scaled ascender − descender below `y`, plus `i` line heights. */
  function Baseline(ascender: real, descender: real, y: real, lineHeight: real, i: nat): real {
    ascender - descender + y + lineHeight * (i as real)
  }

  /** Consecutive baselines are exactly one line height apart. */
  lemma BaselineSpacing(ascender: real, descender: real, y: real, lineHeight: real, i: nat)
    ensures Baseline(ascender, descender, y, lineHeight, i + 1) - Baseline(ascender, descender, y, lineHeight, i) == lineHeight
  {
  }

  /** The largest bottom over the placed lines, plus twice the padding, from 0 (`maxHeight`). */
  function MaxBottom(boxes: seq<Extent>, padding: real): real {
    if boxes == [] then 0.0 else Max(MaxBottom(boxes[..|boxes| - 1], padding), boxes[|boxes| - 1].bottom + padding * 2.0)
  }

  /** The smallest top over the placed lines (`yMin`); `None` stands for the initial `Infinity`. */
  function MinTop(boxes: seq<Extent>): Option<real> {
    if boxes == [] then None
    else
      var t := boxes[|boxes| - 1].top;
      match MinTop(boxes[..|boxes| - 1])
      case None => Some(t)
      case Some(m) => Some(Min(m, t))
  }

  lemma {:induction false} MinTopIsMin(boxes: seq<Extent>)
    ensures boxes != [] <==> MinTop(boxes).Some?
    ensures MinTop(boxes).Some? ==>
      (forall i :: 0 <= i < |boxes| ==> MinTop(boxes).value <= boxes[i].top) &&
      exists i :: 0 <= i < |boxes| && MinTop(boxes).value == boxes[i].top
    decreases |boxes|
  {
    if boxes != [] {
      var init := boxes[..|boxes| - 1];
      MinTopIsMin(init);
      forall i | 0 <= i < |boxes| ensures MinTop(boxes).value <= boxes[i].top {
        if i < |init| {
          assert boxes[i] == init[i];
        }
      }
      if init != [] && MinTop(boxes).value == MinTop(init).value {
        var i :| 0 <= i < |init| && MinTop(init).value == init[i].top;
        assert boxes[i] == init[i];
      }
    }
  }

  /** The extent of an outline once moved down by `dy`. */
  function Placed(box: Extent, dy: real): Extent {
    Extent(box.top + dy, box.bottom + dy)
  }

  /** What `convert` has fixed before it places the lines: settings, lower-cased alignment, padded origin, scaled metrics, box width. */
  datatype Frame = Frame(settings: Settings, align: string, x: real, y: real, ascender: real, descender: real, maxWidth: real)

  /**
   * The frame of one call. `toLowerCase` is modelled on ASCII letters only:
   * no other character lower-cases to one of the letters of the five
   * recognised alignments, so which alignment is recognised is the same,
   * but `align` may differ from the source's on other letters.
   */
  function FrameOf(font: FontMetrics, text: string, x0: real, y0: real, size: real, options: Options, advance: string -> real): Frame {
    var s := Merge(font, size, options);
    var pad := if s.padding > 0.0 then s.padding else 0.0;
    Frame(
      s, JsString.ToLowerAscii(s.align), x0 + pad, y0 + pad,
      font.ascender / font.unitsPerEm * size, font.descender / font.unitsPerEm * size,
      MaxAdvance(Lines(text), advance) + 2.0 * pad)
  }

  /** ` attr` after the path data when `attr` is not empty. */
  function AttrSuffix(attr: string): string {
    if attr != "" then " " + attr else ""
  }

  /** The `<path>` of line `i`, whose advance width is `w`. */
  function PathOf(f: Frame, line: string, w: real, i: nat): PathElement {
    PathElement(
      f.settings.color, line, XAlign(f.align, f.maxWidth, w, f.x),
      Baseline(f.ascender, f.descender, f.y, f.settings.lineHeight, i), AttrSuffix(f.settings.attr))
  }

  /** The extents of the placed lines. */
  function Boxes(f: Frame, lines: seq<string>, outline: string -> Extent): seq<Extent> {
    seq(|lines|, i requires 0 <= i < |lines| =>
      Placed(outline(lines[i]), Baseline(f.ascender, f.descender, f.y, f.settings.lineHeight, i)))
  }

  /** The SVG `convert` builds. */
  function SvgOf(f: Frame, lines: seq<string>, advance: string -> real, outline: string -> Extent): Svg {
    Svg(
      f.maxWidth, MaxBottom(Boxes(f, lines, outline), f.settings.padding),
      JsString.Split(f.settings.prepend, '\n'),
      seq(|lines|, i requires 0 <= i < |lines| => PathOf(f, lines[i], advance(lines[i]), i)),
      JsString.Split(f.settings.append, '\n'))
  }

  /**
   * `convert(font, text, x, y, size, options)`. `advance(line)` is
   * `font.getAdvanceWidth(line, size)`, `outline(line)` the extent of
   * `font.getPath(line, 0, 0, size)`, and `rasterOk` whether sharp turns
   * the SVG into a PNG.
   */
  method Convert(
    font: FontMetrics, text: string, x0: real, y0: real, size: real, options: Options,
    advance: string -> real, outline: string -> Extent, rasterOk: bool)
    returns (out: Rendered)
    ensures var s := Merge(font, size, options);
      (out.SvgBuffer? <==> s.useSvg) && (out.RasterError? <==> !s.useSvg && !rasterOk)
    ensures !out.RasterError? ==> out.svg == SvgOf(FrameOf(font, text, x0, y0, size, options, advance), Lines(text), advance, outline)
    ensures out.PngBuffer? ==> Some(out.top) == MinTop(Boxes(FrameOf(font, text, x0, y0, size, options, advance), Lines(text), outline))
  {
    var f, lines, widths := Layout(font, text, x0, y0, size, options, advance);
    var s := f.settings;
    var paths, yMin, maxHeight := PlaceLines(f, lines, widths, outline);
    var svg := Svg(f.maxWidth, maxHeight, JsString.Split(s.prepend, '\n'), paths, JsString.Split(s.append, '\n'));
    assert svg == SvgOf(f, lines, advance, outline);
    if s.useSvg {
      return SvgBuffer(svg);
    }
    if !rasterOk {
      return RasterError;
    }
    // there is always a line, so `yMin` is no longer Infinity
    MinTopIsMin(Boxes(f, lines, outline));
    out := PngBuffer(svg, yMin.value);
  }

  /**
   * The start of `convert`: the scaled ascender and descender, the merged
   * options, the padded origin, the lines and, through the first loop,
   * their advance widths and the padded box width.
   */
  method Layout(font: FontMetrics, text: string, x0: real, y0: real, size: real, options: Options, advance: string -> real)
    returns (f: Frame, lines: seq<string>, widths: seq<real>)
    ensures f == FrameOf(font, text, x0, y0, size, options, advance) && lines == Lines(text)
    ensures |widths| == |lines| && forall k :: 0 <= k < |lines| ==> widths[k] == advance(lines[k])
  {
    var ascender := font.ascender / font.unitsPerEm * size;
    var descender := font.descender / font.unitsPerEm * size;
    var s := Merge(font, size, options);
    var align := JsString.ToLowerAscii(s.align);
    var x, y := x0, y0;
    if s.padding > 0.0 {
      x := x + s.padding;
      y := y + s.padding;
    }
    lines := if JsString.Contains(text, "\n") then JsString.Split(text, '\n') else [text];
    var maxWidth;
    widths, maxWidth := MeasureLines(lines, advance);
    if s.padding > 0.0 {
      maxWidth := maxWidth + s.padding * 2.0;
    }
    f := Frame(s, align, x, y, ascender, descender, maxWidth);
  }

  /** The first loop of `convert`: the advance width of every line and the widest. */
  method MeasureLines(lines: seq<string>, advance: string -> real) returns (widths: seq<real>, maxWidth: real)
    ensures |widths| == |lines| && forall k :: 0 <= k < |lines| ==> widths[k] == advance(lines[k])
    ensures maxWidth == MaxAdvance(lines, advance)
  {
    widths := [];
    maxWidth := 0.0;
    for i := 0 to |lines|
      invariant |widths| == i
      invariant forall k :: 0 <= k < i ==> widths[k] == advance(lines[k])
      invariant maxWidth == MaxAdvance(lines[..i], advance)
    {
      assert lines[..i + 1][..i] == lines[..i];
      widths := widths + [advance(lines[i])];
      maxWidth := Max(maxWidth, advance(lines[i]));
    }
    assert lines[..|lines|] == lines;
  }

  /** The second loop of `convert`: each line's offsets and `<path>`, the highest top and the lowest bottom. */
  method PlaceLines(f: Frame, lines: seq<string>, widths: seq<real>, outline: string -> Extent)
    returns (paths: seq<PathElement>, yMin: Option<real>, maxHeight: real)
    requires |widths| == |lines|
    ensures |paths| == |lines| && forall k :: 0 <= k < |lines| ==> paths[k] == PathOf(f, lines[k], widths[k], k)
    ensures yMin == MinTop(Boxes(f, lines, outline))
    ensures maxHeight == MaxBottom(Boxes(f, lines, outline), f.settings.padding)
  {
    var s := f.settings;
    yMin := None;
    paths := [];
    maxHeight := 0.0;
    for i := 0 to |lines|
      invariant |paths| == i
      invariant forall k :: 0 <= k < i ==> paths[k] == PathOf(f, lines[k], widths[k], k)
      invariant yMin == MinTop(Boxes(f, lines[..i], outline))
      invariant maxHeight == MaxBottom(Boxes(f, lines[..i], outline), s.padding)
    {
      var path, box := PlaceLine(f, lines[i], widths[i], i, outline);
      BoxesStep(f, lines, i, outline);
      yMin := match yMin case None => Some(box.top) case Some(m) => Some(Min(m, box.top));
      paths := paths + [path];
      maxHeight := Max(maxHeight, box.bottom + s.padding * 2.0);
    }
    assert lines[..|lines|] == lines;
  }

  /** The extents of one more line extend the extents of the lines before it. */
  lemma BoxesStep(f: Frame, lines: seq<string>, i: nat, outline: string -> Extent)
    requires i < |lines|
    ensures var b := Boxes(f, lines[..i + 1], outline);
      |b| == i + 1 && b[..i] == Boxes(f, lines[..i], outline) &&
      b[i] == Placed(outline(lines[i]), Baseline(f.ascender, f.descender, f.y, f.settings.lineHeight, i))
  {
    var b := Boxes(f, lines[..i + 1], outline);
    var a := Boxes(f, lines[..i], outline);
    assert |b[..i]| == |a|;
    forall k | 0 <= k < i
      ensures b[..i][k] == a[k]
    {
      assert lines[..i + 1][k] == lines[..i][k];
    }
  }

  /** One pass of the second loop: the line's offsets, its `<path>` and its placed extent. */
  method PlaceLine(f: Frame, line: string, w: real, i: nat, outline: string -> Extent) returns (path: PathElement, box: Extent)
    ensures path == PathOf(f, line, w, i)
    ensures box == Placed(outline(line), Baseline(f.ascender, f.descender, f.y, f.settings.lineHeight, i))
  {
    var s := f.settings;
    var yAlign := f.ascender - f.descender + f.y;
    yAlign := yAlign + s.lineHeight * (i as real);
    var xAlign: Option<real> := None;
    if f.align == "center" {
      xAlign := Some((f.maxWidth - w) / 2.0 + f.x);
    } else if f.align == "left" || f.align == "start" {
      xAlign := Some(f.x);
    } else if f.align == "right" || f.align == "end" {
      xAlign := Some(f.maxWidth - w + f.x);
    }
    box := Placed(outline(line), yAlign);
    path := PathElement(s.color, line, xAlign, yAlign, AttrSuffix(s.attr));
  }

  /** One path per line, one more than there are newlines, each for its own line. */
  lemma SvgLines(f: Frame, text: string, advance: string -> real, outline: string -> Extent)
    ensures var svg := SvgOf(f, Lines(text), advance, outline);
      |svg.paths| == JsString.Count(text, '\n') + 1 &&
      forall i :: 0 <= i < |svg.paths| ==> svg.paths[i].line == Lines(text)[i]
  {
    LinesAreSplit(text);
  }

  /** The SVG is as wide as the widest line plus the padding on both sides. */
  lemma SvgWidth(font: FontMetrics, text: string, x0: real, y0: real, size: real, options: Options, advance: string -> real, outline: string -> Extent)
    ensures
      var f := FrameOf(font, text, x0, y0, size, options, advance);
      var svg := SvgOf(f, Lines(text), advance, outline);
      var pad := if f.settings.padding > 0.0 then f.settings.padding else 0.0;
      svg.width == MaxAdvance(Lines(text), advance) + 2.0 * pad &&
      forall i :: 0 <= i < |Lines(text)| ==> advance(Lines(text)[i]) + 2.0 * pad <= svg.width
  {
    MaxAdvanceIsMax(Lines(text), advance);
  }

  /**
   * Line i sits on baseline ascender − descender + y + i · lineHeight, where
   * `FrameOf` scales the font's ascender and descender to the size and pads
   * y; so baselines are one line height apart.
   */
  lemma SvgBaselines(f: Frame, lines: seq<string>, advance: string -> real, outline: string -> Extent)
    ensures var svg := SvgOf(f, lines, advance, outline);
      (forall i :: 0 <= i < |svg.paths| ==>
        svg.paths[i].dy == f.ascender - f.descender + f.y + f.settings.lineHeight * (i as real)) &&
      (forall i :: 0 < i < |svg.paths| ==> svg.paths[i].dy - svg.paths[i - 1].dy == f.settings.lineHeight)
  {
    var svg := SvgOf(f, lines, advance, outline);
    forall i | 0 < i < |svg.paths| ensures svg.paths[i].dy - svg.paths[i - 1].dy == f.settings.lineHeight {
      BaselineSpacing(f.ascender, f.descender, f.y, f.settings.lineHeight, i - 1);
    }
  }

  /** Left and start lines begin at the padded x, right and end lines end at the right edge of the box, centred lines share its midpoint. */
  lemma SvgAlignment(f: Frame, lines: seq<string>, advance: string -> real, outline: string -> Extent)
    ensures var svg := SvgOf(f, lines, advance, outline);
      (forall i :: 0 <= i < |lines| && f.align in {"left", "start"} ==> svg.paths[i].dx == Some(f.x)) &&
      (forall i :: 0 <= i < |lines| && f.align in {"right", "end"} ==>
        svg.paths[i].dx.Some? && svg.paths[i].dx.value + advance(lines[i]) == f.x + svg.width) &&
      (forall i :: 0 <= i < |lines| && f.align == "center" ==>
        svg.paths[i].dx.Some? && svg.paths[i].dx.value + advance(lines[i]) / 2.0 == f.x + svg.width / 2.0) &&
      (forall i :: 0 <= i < |lines| && f.align !in {"center", "left", "start", "right", "end"} ==> svg.paths[i].dx.None?)
  {
    var svg := SvgOf(f, lines, advance, outline);
    forall i | 0 <= i < |lines|
      ensures f.align in {"right", "end"} ==> svg.paths[i].dx.Some? && svg.paths[i].dx.value + advance(lines[i]) == f.x + svg.width
      ensures f.align == "center" ==> svg.paths[i].dx.Some? && svg.paths[i].dx.value + advance(lines[i]) / 2.0 == f.x + svg.width / 2.0
    {
      AlignmentEdges(f.maxWidth, advance(lines[i]), f.x);
    }
    forall i | 0 <= i < |lines| ensures svg.paths[i].dx.Some? <==> f.align in {"center", "left", "start", "right", "end"} {
      XAlignDefinedIff(f.align, f.maxWidth, advance(lines[i]), f.x);
    }
  }

  /** A text without a newline is one line. */
  lemma SingleLine(text: string)
    requires '\n' !in text
    ensures Lines(text) == [text]
  {
    LinesAreSplit(text);
    JsString.SplitWithoutSeparator(text, '\n');
  }

  /** The directories `loadFont` searches. */
  const CheckPaths: seq<string> := ["."]

  /** The extensions tried for a font name that has none. */
  const FontExtensions: seq<string> := [".ttf", ".otf", ".woff2", ".TTF", ".OTF", ".WOFF2"]

  /** The suffixes `loadFont` appends to `name`, as written: a name with an extension gets that extension again. */
  function ExtensionsAsWritten(name: string): seq<string> {
    if Paths.ExtName(name) == "" then FontExtensions else [Paths.ExtName(name)]
  }

  /** The suffixes as evidently intended: a name with an extension is tried as it is. */
  function ExtensionsFixed(name: string): seq<string> {
    if Paths.ExtName(name) == "" then FontExtensions else [""]
  }

  /** A file `loadFont` tries: `name + ext` in directory `checkPath`. */
  datatype FontFile = FontFile(checkPath: string, name: string, ext: string)

  /** `path.resolve(path.join(checkPath, name + ext))`, without normalisation. */
  function Resolve(cwd: string, ff: FontFile): string {
    Paths.Join(cwd, Paths.Join(ff.checkPath, ff.name + ff.ext))
  }

  /** The files tried for one name in one directory, extension by extension. */
  function ForExtensions(checkPath: string, name: string, exts: seq<string>): seq<FontFile> {
    if exts == [] then []
    else ForExtensions(checkPath, name, exts[..|exts| - 1]) + [FontFile(checkPath, name, exts[|exts| - 1])]
  }

  /** The files tried for one name, directory by directory. */
  function ForCheckPaths(checkPaths: seq<string>, name: string, exts: seq<string>): seq<FontFile> {
    if checkPaths == [] then []
    else ForCheckPaths(checkPaths[..|checkPaths| - 1], name, exts) + ForExtensions(checkPaths[|checkPaths| - 1], name, exts)
  }

  /** Every file `loadFont(...names)` tries, in the order it tries them. */
  function Candidates(names: seq<string>, extensions: string -> seq<string>): seq<FontFile> {
    if names == [] then []
    else
      var last := names[|names| - 1];
      Candidates(names[..|names| - 1], extensions) + ForCheckPaths(CheckPaths, last, extensions(last))
  }

  /** A font that was found: `font.path` and the metrics with `height` set to ascender − descender. */
  datatype LoadedFont = LoadedFont(path: string, metrics: FontMetrics)

  function Loaded(path: string, load: string -> FontMetrics): LoadedFont {
    LoadedFont(path, load(path).(height := load(path).ascender - load(path).descender))
  }

  /** The first candidate that exists, loaded; `None` when none exists. */
  function FirstExisting(cwd: string, cands: seq<FontFile>, onDisk: string -> bool, load: string -> FontMetrics): (r: Option<LoadedFont>)
    ensures r.None? <==> forall i :: 0 <= i < |cands| ==> !onDisk(Resolve(cwd, cands[i]))
    ensures r.Some? ==>
      exists k :: 0 <= k < |cands| && onDisk(Resolve(cwd, cands[k])) && r.value == Loaded(Resolve(cwd, cands[k]), load) &&
        forall i :: 0 <= i < k ==> !onDisk(Resolve(cwd, cands[i]))
  {
    if cands == [] then None
    else if onDisk(Resolve(cwd, cands[0])) then Some(Loaded(Resolve(cwd, cands[0]), load))
    else
      var r := FirstExisting(cwd, cands[1..], onDisk, load);
      assert forall i :: 1 <= i < |cands| ==> cands[i] == cands[1..][i - 1];
      if r.Some? then
        var k :| 0 <= k < |cands[1..]| && onDisk(Resolve(cwd, cands[1..][k])) && r.value == Loaded(Resolve(cwd, cands[1..][k]), load) &&
          forall i :: 0 <= i < k ==> !onDisk(Resolve(cwd, cands[1..][i]));
        assert forall i :: 0 <= i < k + 1 ==> !onDisk(Resolve(cwd, cands[i])) by {
          forall i | 0 <= i < k + 1 ensures !onDisk(Resolve(cwd, cands[i])) {
            if i > 0 {
              assert cands[i] == cands[1..][i - 1];
            }
          }
        }
        r
      else r
  }

  predicate IsPrefix(a: seq<FontFile>, b: seq<FontFile>) {
    |a| <= |b| && b[..|a|] == a
  }

  lemma PrefixTrans(a: seq<FontFile>, b: seq<FontFile>, c: seq<FontFile>)
    requires IsPrefix(a, b) && IsPrefix(b, c)
    ensures IsPrefix(a, c)
  {
    assert c[..|a|] == c[..|b|][..|a|];
  }

  lemma PrefixAppend(p: seq<FontFile>, a: seq<FontFile>, b: seq<FontFile>)
    requires IsPrefix(a, b)
    ensures IsPrefix(p + a, p + b)
  {
    assert (p + b)[..|p + a|] == p + b[..|a|];
  }

  lemma {:induction false} ForExtensionsPrefix(cp: string, name: string, exts: seq<string>, j: nat)
    requires j <= |exts|
    ensures IsPrefix(ForExtensions(cp, name, exts[..j]), ForExtensions(cp, name, exts))
    decreases |exts|
  {
    if j < |exts| {
      var init := exts[..|exts| - 1];
      assert exts[..j] == init[..j];
      ForExtensionsPrefix(cp, name, init, j);
      PrefixTrans(ForExtensions(cp, name, exts[..j]), ForExtensions(cp, name, init), ForExtensions(cp, name, exts));
    } else {
      assert exts[..j] == exts;
    }
  }

  lemma {:induction false} ForCheckPathsPrefix(cps: seq<string>, name: string, exts: seq<string>, k: nat)
    requires k <= |cps|
    ensures IsPrefix(ForCheckPaths(cps[..k], name, exts), ForCheckPaths(cps, name, exts))
    decreases |cps|
  {
    if k < |cps| {
      var init := cps[..|cps| - 1];
      assert cps[..k] == init[..k];
      ForCheckPathsPrefix(init, name, exts, k);
      PrefixTrans(ForCheckPaths(cps[..k], name, exts), ForCheckPaths(init, name, exts), ForCheckPaths(cps, name, exts));
    } else {
      assert cps[..k] == cps;
    }
  }

  lemma {:induction false} CandidatesPrefix(names: seq<string>, extensions: string -> seq<string>, i: nat)
    requires i <= |names|
    ensures IsPrefix(Candidates(names[..i], extensions), Candidates(names, extensions))
    decreases |names|
  {
    if i < |names| {
      var init := names[..|names| - 1];
      assert names[..i] == init[..i];
      CandidatesPrefix(init, extensions, i);
      PrefixTrans(Candidates(names[..i], extensions), Candidates(init, extensions), Candidates(names, extensions));
    } else {
      assert names[..i] == names;
    }
  }

  /** `FirstExisting` of a concatenation looks in the second part only when the first has no hit. */
  lemma {:induction false} FirstExistingAppend(cwd: string, a: seq<FontFile>, b: seq<FontFile>, onDisk: string -> bool, load: string -> FontMetrics)
    ensures FirstExisting(cwd, a + b, onDisk, load) ==
      if FirstExisting(cwd, a, onDisk, load).Some? then FirstExisting(cwd, a, onDisk, load) else FirstExisting(cwd, b, onDisk, load)
    decreases |a|
  {
    if a == [] {
      assert a + b == b;
    } else {
      assert (a + b)[0] == a[0];
      assert (a + b)[1..] == a[1..] + b;
      FirstExistingAppend(cwd, a[1..], b, onDisk, load);
    }
  }

  /** A hit within a prefix is the hit of the whole list. */
  lemma FirstExistingOfPrefix(cwd: string, p: seq<FontFile>, all: seq<FontFile>, onDisk: string -> bool, load: string -> FontMetrics)
    requires IsPrefix(p, all) && FirstExisting(cwd, p, onDisk, load).Some?
    ensures FirstExisting(cwd, all, onDisk, load) == FirstExisting(cwd, p, onDisk, load)
  {
    assert all == p + all[|p|..];
    FirstExistingAppend(cwd, p, all[|p|..], onDisk, load);
  }

  /** The innermost loop of `loadFont`: one name in one directory, extension by extension. */
  method SearchDirectory(cwd: string, checkPath: string, name: string, exts: seq<string>, onDisk: string -> bool, load: string -> FontMetrics)
    returns (r: Option<LoadedFont>)
    ensures r == FirstExisting(cwd, ForExtensions(checkPath, name, exts), onDisk, load)
  {
    for j := 0 to |exts|
      invariant FirstExisting(cwd, ForExtensions(checkPath, name, exts[..j]), onDisk, load) == None
    {
      var file := FontFile(checkPath, name, exts[j]);
      assert exts[..j + 1][..j] == exts[..j];
      var upTo := ForExtensions(checkPath, name, exts[..j + 1]);
      assert upTo == ForExtensions(checkPath, name, exts[..j]) + [file];
      FirstExistingAppend(cwd, ForExtensions(checkPath, name, exts[..j]), [file], onDisk, load);
      if onDisk(Resolve(cwd, file)) {
        ForExtensionsPrefix(checkPath, name, exts, j + 1);
        FirstExistingOfPrefix(cwd, upTo, ForExtensions(checkPath, name, exts), onDisk, load);
        return Some(Loaded(Resolve(cwd, file), load));
      }
    }
    assert exts[..|exts|] == exts;
    r := None;
  }

  /** The middle loop of `loadFont`: one name, directory by directory. */
  method SearchName(cwd: string, name: string, exts: seq<string>, onDisk: string -> bool, load: string -> FontMetrics)
    returns (r: Option<LoadedFont>)
    ensures r == FirstExisting(cwd, ForCheckPaths(CheckPaths, name, exts), onDisk, load)
  {
    for k := 0 to |CheckPaths|
      invariant FirstExisting(cwd, ForCheckPaths(CheckPaths[..k], name, exts), onDisk, load) == None
    {
      var checkPath := CheckPaths[k];
      assert CheckPaths[..k + 1][..k] == CheckPaths[..k];
      var upTo := ForCheckPaths(CheckPaths[..k + 1], name, exts);
      assert upTo == ForCheckPaths(CheckPaths[..k], name, exts) + ForExtensions(checkPath, name, exts);
      FirstExistingAppend(cwd, ForCheckPaths(CheckPaths[..k], name, exts), ForExtensions(checkPath, name, exts), onDisk, load);
      var found := SearchDirectory(cwd, checkPath, name, exts, onDisk, load);
      if found.Some? {
        ForCheckPathsPrefix(CheckPaths, name, exts, k + 1);
        FirstExistingOfPrefix(cwd, upTo, ForCheckPaths(CheckPaths, name, exts), onDisk, load);
        return found;
      }
    }
    assert CheckPaths[..|CheckPaths|] == CheckPaths;
    r := None;
  }

  /** The outer loop of `loadFont`: name by name, the first hit wins. */
  method Search(cwd: string, names: seq<string>, extensions: string -> seq<string>, onDisk: string -> bool, load: string -> FontMetrics)
    returns (r: Option<LoadedFont>)
    ensures r == FirstExisting(cwd, Candidates(names, extensions), onDisk, load)
  {
    for i := 0 to |names|
      invariant FirstExisting(cwd, Candidates(names[..i], extensions), onDisk, load) == None
    {
      var name := names[i];
      var exts := extensions(name);
      assert names[..i + 1][..i] == names[..i];
      var upTo := Candidates(names[..i + 1], extensions);
      assert upTo == Candidates(names[..i], extensions) + ForCheckPaths(CheckPaths, name, exts);
      FirstExistingAppend(cwd, Candidates(names[..i], extensions), ForCheckPaths(CheckPaths, name, exts), onDisk, load);
      var found := SearchName(cwd, name, exts, onDisk, load);
      if found.Some? {
        CandidatesPrefix(names, extensions, i + 1);
        FirstExistingOfPrefix(cwd, upTo, Candidates(names, extensions), onDisk, load);
        return found;
      }
    }
    assert names[..|names|] == names;
    r := None;
  }

  /** `loadFont(...fontPaths)` as written: the first candidate that exists, or `undefined`. */
  method LoadFont(cwd: string, fontPaths: seq<string>, onDisk: string -> bool, load: string -> FontMetrics)
    returns (r: Option<LoadedFont>)
    ensures r == FirstExisting(cwd, Candidates(fontPaths, ExtensionsAsWritten), onDisk, load)
  {
    r := Search(cwd, fontPaths, ExtensionsAsWritten, onDisk, load);
  }

  /** `loadFont` with a name that has an extension tried as it is. */
  method LoadFontFixed(cwd: string, fontPaths: seq<string>, onDisk: string -> bool, load: string -> FontMetrics)
    returns (r: Option<LoadedFont>)
    ensures r == FirstExisting(cwd, Candidates(fontPaths, ExtensionsFixed), onDisk, load)
  {
    r := Search(cwd, fontPaths, ExtensionsFixed, onDisk, load);
  }

  /** One directory, one name: the files tried are the extensions in order. */
  lemma {:induction false} ForExtensionsInOrder(cp: string, name: string, exts: seq<string>)
    ensures ForExtensions(cp, name, exts) == seq(|exts|, e requires 0 <= e < |exts| => FontFile(cp, name, exts[e]))
    decreases |exts|
  {
    if exts != [] {
      ForExtensionsInOrder(cp, name, exts[..|exts| - 1]);
    }
  }

  /** `loadFont(name)` tries `name` with each of its suffixes, in order, in `.`. */
  lemma CandidatesOfOneName(name: string, extensions: string -> seq<string>)
    ensures Candidates([name], extensions) ==
      seq(|extensions(name)|, e requires 0 <= e < |extensions(name)| => FontFile(".", name, extensions(name)[e]))
  {
    assert [name][..0] == [];
    assert CheckPaths[..0] == [] && CheckPaths[0] == ".";
    assert ForCheckPaths(CheckPaths, name, extensions(name)) == ForExtensions(".", name, extensions(name));
    assert Candidates([name], extensions) == ForCheckPaths(CheckPaths, name, extensions(name));
    ForExtensionsInOrder(".", name, extensions(name));
  }

  /** Later names are only tried once every candidate of the earlier ones is missing. */
  lemma EarlierNamesFirst(names: seq<string>, more: seq<string>, extensions: string -> seq<string>)
    ensures IsPrefix(Candidates(names, extensions), Candidates(names + more, extensions))
  {
    assert (names + more)[..|names|] == names;
    CandidatesPrefix(names + more, extensions, |names|);
  }

  /** With either rule, a name without extension is tried with the six font extensions, in order. */
  lemma CandidatesWithoutExtension(name: string)
    requires Paths.ExtName(name) == ""
    ensures Candidates([name], ExtensionsAsWritten) == Candidates([name], ExtensionsFixed)
      == seq(6, e requires 0 <= e < 6 => FontFile(".", name, FontExtensions[e]))
  {
    CandidatesOfOneName(name, ExtensionsAsWritten);
    CandidatesOfOneName(name, ExtensionsFixed);
  }

  lemma ExtOfRoboto()
    ensures Paths.ExtName("Roboto.ttf") == ".ttf"
  {
    var stem, ext := "Roboto", ".ttf";
    assert '.' !in ext[1..] && '/' !in stem && '/' !in ext;
    Paths.ExtNameOf("", stem, ext);
    assert "" + stem + ext == "Roboto.ttf";
  }

  /** As written, `Roboto.ttf` is looked for only as `Roboto.ttf.ttf`, so an existing `Roboto.ttf` is never found. */
  lemma DoubledExtension(cwd: string, onDisk: string -> bool, load: string -> FontMetrics)
    requires forall p :: onDisk(p) <==> p == Resolve(cwd, FontFile(".", "Roboto.ttf", ""))
    ensures Candidates(["Roboto.ttf"], ExtensionsAsWritten) == [FontFile(".", "Roboto.ttf", ".ttf")]
    ensures FirstExisting(cwd, Candidates(["Roboto.ttf"], ExtensionsAsWritten), onDisk, load) == None
  {
    RobotoCandidates();
    RobotoPathsDiffer(cwd);
  }

  lemma RobotoCandidates()
    ensures Candidates(["Roboto.ttf"], ExtensionsAsWritten) == [FontFile(".", "Roboto.ttf", ".ttf")]
  {
    ExtOfRoboto();
    CandidatesOfOneName("Roboto.ttf", ExtensionsAsWritten);
  }

  lemma RobotoPathsDiffer(cwd: string)
    ensures Resolve(cwd, FontFile(".", "Roboto.ttf", ".ttf")) != Resolve(cwd, FontFile(".", "Roboto.ttf", ""))
  {
    assert Paths.Join(".", "Roboto.ttf" + ".ttf") == "./Roboto.ttf.ttf";
    assert Paths.Join(".", "Roboto.ttf" + "") == "./Roboto.ttf";
    JoinLength(cwd, "./Roboto.ttf.ttf");
    JoinLength(cwd, "./Roboto.ttf");
  }

  /** Fixed, a name with an extension is the one candidate, so an existing file of that name is found. */
  lemma FixedFindsNamedFile(cwd: string, name: string, onDisk: string -> bool, load: string -> FontMetrics)
    requires Paths.ExtName(name) != ""
    requires onDisk(Resolve(cwd, FontFile(".", name, "")))
    ensures Candidates([name], ExtensionsFixed) == [FontFile(".", name, "")]
    ensures Resolve(cwd, FontFile(".", name, "")) == Paths.Join(cwd, Paths.Join(".", name))
    ensures FirstExisting(cwd, Candidates([name], ExtensionsFixed), onDisk, load) == Some(Loaded(Resolve(cwd, FontFile(".", name, "")), load))
  {
    CandidatesOfOneName(name, ExtensionsFixed);
    assert name + "" == name;
  }

  /** A join with a non-empty second segment is the first segment, maybe a `/`, and the second. */
  lemma JoinLength(a: string, b: string)
    ensures b != [] ==> |Paths.Join(a, b)| == |b| + (if a == [] then 0 else if a[|a| - 1] == '/' then |a| else |a| + 1)
    ensures |Paths.Join(a, b)| >= |b|
  {
  }
}
