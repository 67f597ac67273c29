# ComputerGraphics wireframe core, modelled in Dafny

This project models the core of the ComputerGraphics wireframe viewer, and
proves properties of that model. The core has three steps:

1. `ObjFileParser.ParseFile` reads a Wavefront OBJ file line by line. It fills
   lists of vertices, texture coordinates and normals, and three parallel
   lists of face indices.
2. `Converter.ApplyTransformations` takes every model vertex through these
   stages: an optional uniform scale, the world, view and projection matrices
   (`Vector4.Transform`, a row vector times a matrix), the division by `w`, and
   the viewport map to pixel coordinates. `Converter.Transform` multiplies a
   vertex list by one matrix in place.
3. `Drawer.Draw` draws every polygon as a closed cycle of segments. It walks
   each segment with `DrawLineDda` and writes BGRA pixels into the locked
   32-bit bitmap buffer.

Modules, one per concern:

- `Wrappers` (wrappers.dfy) holds `Option` and `Result`. A C# exception
  becomes an `Err`, or a `false` result; only the bitmap size check of
  the `Drawer` constructor is a precondition instead.
- `Geometry` (geometry.dfy) holds the System.Numerics vectors and 4x4
  matrices over `real`, `Transform`, `Scale` and the matrix product.
- `ObjText` (obj_text.dfy) covers the text operations `ParseFile` uses:
  `Trim`, `Replace('.', ',')`, `Regex.Replace(s, @"\s+", " ")`, `Split` and
  `int.Parse`.
- `ObjParsing` (obj_parser.dfy) covers the OBJ lines, as a per-line step
  function and its run over a file. It also holds the class `ObjFileParser`,
  whose `ParseFile` loop is proved against that run.
- `Transforms` (converter.dfy) holds the per-vertex pipeline as functions,
  and the class `Converter`, whose loops over arrays are proved against them.
- `Rendering` (drawer.dfy) covers four things:
  - banker's rounding;
  - the DDA walk;
  - the byte buffer of the bitmap, with `Format32bppArgb`: 4 bytes per pixel
    and a row stride;
  - the order in which polygons and edges are drawn.

  It also holds the class `Drawer`, whose methods are proved against these
  functions.

Each OBJ line is atomic: an exception thrown while handling a line leaves
the lists as they were before that line. The first exception ends the
parse. The model returns which line threw, and with which exception.

Four facts about the code shape the model:

- **Relative face indices.** A relative (negative) face index `-k` resolves
  to `Count - (-k)`, that is `Count + k`, which lies past the end of its list
  (see `ObjParsing.RelativeIndexOvershoots`). The OBJ convention counts such
  an index back from the end of the list, `Count - k`.
- **Indices shifted twice.** The parser already stores indices zero-based.
  `Draw` reads `pointsArray[index - 1]`, which shifts each index a second
  time (see `Rendering.ParsedIndexShift`).
- **Polygons of any size.** A face may list any number of corners, and
  `Draw` joins them all into one closed cycle.
- **Pixel bounds.** The pixel guard tests the unrounded point, while the
  write goes to the rounded pixel. A point in the last half pixel of a row
  writes into the first pixel of the next row, and one in the last half pixel
  of the bottom row can write past the end of the buffer (see Findings).
  The model makes every in-buffer write the code makes, and reports the
  writes past the end as `escaped`.

## Model

| member | source | states |
|---|---|---|
| Geometry.TransformIdentity | ComputerGraphics.Algorithms/Converter.cs:18-22 | transforming by the identity matrix returns the vector unchanged |
| Geometry.TransformScale | ComputerGraphics.Algorithms/Converter.cs:36-40 | `CreateScale(s)` multiplies x, y and z by s and keeps w |
| Geometry.TransformCompose | ComputerGraphics.Algorithms/Converter.cs:18-22 | transforming by a and then by b equals one transform by the product a * b, for every vector and both matrices |
| Transforms.PerspectiveDivide | ComputerGraphics.Algorithms/Converter.cs:23 | for w != 0, the result has w = 1, and each of x, y, z times the old w gives back the old component |
| Transforms.ViewportCorners | ComputerGraphics.Algorithms/Converter.cs:25-26 | NDC (-1, 1) maps to pixel (0, 0) and (1, -1) maps to (width, height); z and w pass through |
| Transforms.ViewportRoundTrip | ComputerGraphics.Algorithms/Converter.cs:25-26 | for non-zero sizes, inverting the viewport map recovers the NDC vector exactly |
| Transforms.StagesCompose | ComputerGraphics.Algorithms/Converter.cs:18-26 | the world, view and projection stages applied one by one equal one transform by world * view * projection, followed by the divide and the viewport |
| Transforms.ScaledIsScaleThenWorld | ComputerGraphics.Algorithms/Converter.cs:36-51 | the scaled overload computes the unscaled pipeline with world matrix `Scale(s) * world` |
| Transforms.Converter.constructor | ComputerGraphics.Algorithms/Converter.cs:8 | `WorldVertices` starts empty |
| Transforms.Converter.ApplyTransformations | ComputerGraphics.Algorithms/Converter.cs:10-28 | each output entry i becomes the screen position of model vertex i, and later entries are unchanged; it fails exactly when the output list is shorter, keeping the entries already rewritten; the model list (when distinct) and `WorldVertices` are untouched |
| Transforms.Converter.ApplyScaledTransformations | ComputerGraphics.Algorithms/Converter.cs:30-54 | `WorldVertices` is rebuilt with the scale-then-world position of each vertex, in order; output entry i is that position taken through view, projection, divide and viewport; fails exactly when the output list is shorter |
| Transforms.Converter.ProjectToScreen | ComputerGraphics.Algorithms/Converter.cs:45-51 | the stages after the world matrix, in the code's order, give the stage function `FromWorld` |
| Transforms.Converter.Transform | ComputerGraphics.Algorithms/Converter.cs:56-64 | every entry is replaced by its transform by the matrix, and nothing else changes |
| ObjText.TrimStart | ComputerGraphics.Algorithms/ObjFileParser.cs:87 | the result is a suffix of the input that starts with a non-whitespace character; every character dropped is whitespace |
| ObjText.TrimEnd | ComputerGraphics.Algorithms/ObjFileParser.cs:87 | the result is a prefix of the input that ends with a non-whitespace character; every character dropped is whitespace |
| ObjText.Trim | ComputerGraphics.Algorithms/ObjFileParser.cs:87 | the result is empty, or starts and ends with a non-whitespace character |
| ObjText.ReplaceDots | ComputerGraphics.Algorithms/ObjFileParser.cs:87 | same length, no '.', every '.' becomes ',' and every other character is kept |
| ObjText.Collapse | ComputerGraphics.Algorithms/ObjFileParser.cs:87 | the only whitespace left is single plain spaces, never two in a row; empty exactly when the input is; starts with a space exactly when the input starts with whitespace; its meaning between words is fixed by CollapseWord and CollapseWordThenRun |
| ObjText.CollapseWord | ComputerGraphics.Algorithms/ObjFileParser.cs:87 | a word without whitespace comes out of `Regex.Replace` unchanged |
| ObjText.CollapseWordThenRun | ComputerGraphics.Algorithms/ObjFileParser.cs:87 | a word followed by a non-empty whitespace run is kept, and the run becomes exactly one space in its place, before the collapsed rest |
| ObjText.CollapseSplitsWords | ComputerGraphics.Algorithms/ObjFileParser.cs:87-91 | after collapsing, the split on ' ' yields the first whitespace-separated word and then the words of the rest, so a line splits word by word into its whitespace-separated words |
| ObjText.CollapseVisible | ComputerGraphics.Algorithms/ObjFileParser.cs:87 | collapsing keeps every non-whitespace character, in order |
| ObjText.CollapseLast | ComputerGraphics.Algorithms/ObjFileParser.cs:87 | the collapsed text ends in a space exactly when the input ends in whitespace |
| ObjText.NormalizedShape | ComputerGraphics.Algorithms/ObjFileParser.cs:87 | a normalised line has no '.', only single plain spaces, none at either end, and the visible characters of the trimmed line with dots replaced |
| ObjText.Split | ComputerGraphics.Algorithms/ObjFileParser.cs:90 | at least one piece, and no piece contains the separator |
| ObjText.SplitPiecesFromText | ComputerGraphics.Algorithms/ObjFileParser.cs:90 | every character of every piece comes from the split text |
| ObjText.JoinSplit | ComputerGraphics.Algorithms/ObjFileParser.cs:90 | joining the pieces with the separator gives back the text |
| ObjText.SplitJoin | ComputerGraphics.Algorithms/ObjFileParser.cs:116 | splitting the join of separator-free pieces gives back the pieces |
| ObjText.SplitPiecesNonEmpty | ComputerGraphics.Algorithms/ObjFileParser.cs:90 | a text that neither starts nor ends with the separator, and never repeats it, splits into non-empty pieces only |
| ObjText.NormalizedTokens | ComputerGraphics.Algorithms/ObjFileParser.cs:87-91 | the tokens of a non-empty normalised line are non-empty, free of whitespace and free of '.' |
| ObjText.ParseInt | ComputerGraphics.Algorithms/ObjFileParser.cs:117-119 | a value is always in the 32-bit range; FormatException exactly when the text is not an optional sign, at least one digit and then only '\0' characters; otherwise a value or OverflowException, the latter exactly for out-of-range values (ParseFormatRoundTrip, ParseFormatOverflow) |
| ObjText.DropTrailingNuls | ComputerGraphics.Algorithms/ObjFileParser.cs:117-119 | the result is a prefix of the text that does not end in '\0', and everything dropped is '\0' |
| ObjText.ParseIntIgnoresTrailingNuls | ComputerGraphics.Algorithms/ObjFileParser.cs:117-119 | appending any run of '\0' characters to a field changes nothing `int.Parse` gives, so "1\0" parses to 1 |
| ObjText.Digits | ComputerGraphics.Algorithms/ObjFileParser.cs:117 | the decimal text of a number is non-empty and all digits |
| ObjText.ParseFormatRoundTrip | ComputerGraphics.Algorithms/ObjFileParser.cs:117-119 | `int.Parse` reads back every 32-bit value written in decimal |
| ObjText.ParseFormatOverflow | ComputerGraphics.Algorithms/ObjFileParser.cs:117-119 | `int.Parse` raises OverflowException for every decimal integer outside the 32-bit range, such as "2147483648" |
| ObjParsing.Wrap32 | ComputerGraphics.Algorithms/ObjFileParser.cs:120-122 | the result is in the 32-bit range; in-range values are kept and a one-word overflow wraps by 2^32 |
| ObjParsing.ResolvedIndexValid | ComputerGraphics.Algorithms/ObjFileParser.cs:120-122 | a resolved index is a valid list position if and only if the file index was in 1 .. Count, overflow included |
| ObjParsing.RelativeIndexOvershoots | ComputerGraphics.Algorithms/ObjFileParser.cs:120-122 | a relative index -k resolves to Count + k, past the end, where the OBJ convention means Count - k |
| ObjParsing.ParseCorner | ComputerGraphics.Algorithms/ObjFileParser.cs:116-122 | a face token fails only with the exceptions `int.Parse` and array indexing raise, never with a vector-size error |
| ObjParsing.CornerRoundTrip | ComputerGraphics.Algorithms/ObjFileParser.cs:116-122 | a `v/t/n` token written from three 32-bit indices parses back to them; field 0 is the vertex, field 1 the texture, field 2 the normal, each resolved against its own list |
| ObjParsing.CornerNeedsThreeFields | ComputerGraphics.Algorithms/ObjFileParser.cs:116-118 | a token with fewer than three '/'-fields throws |
| ObjParsing.EmptyTextureFieldFails | ComputerGraphics.Algorithms/ObjFileParser.cs:119 | a `v//n` token throws FormatException |
| ObjParsing.Corners | ComputerGraphics.Algorithms/ObjFileParser.cs:114-123 | one outcome per token |
| ObjParsing.Collect | ComputerGraphics.Algorithms/ObjFileParser.cs:114-123 | on success, three equally long lists whose entry k is the corner of outcome k |
| ObjParsing.CollectFailure | ComputerGraphics.Algorithms/ObjFileParser.cs:114-123 | collecting fails exactly when some outcome is an exception, and then with the first one |
| ObjParsing.ParseFace | ComputerGraphics.Algorithms/ObjFileParser.cs:109-126 | on success, entry k of each of the three lists comes from token k |
| ObjParsing.ParseFaceFailure | ComputerGraphics.Algorithms/ObjFileParser.cs:114-123 | a face throws exactly when one of its tokens does, and then with the first such token's exception |
| ObjParsing.NonEmptyTokens | ComputerGraphics.Algorithms/ObjFileParser.cs:94 | the filter keeps no empty value, and keeps the list as it is when no value is empty |
| ObjParsing.ParseFloats | ComputerGraphics.Algorithms/ObjFileParser.cs:94-95 | on success, one number per value, in order; FormatException exactly when some value does not parse |
| ObjParsing.Tokens | ComputerGraphics.Algorithms/ObjFileParser.cs:90 | splitting a line yields at least one token, so `split[0]` exists |
| ObjParsing.ValuesNonEmpty | ComputerGraphics.Algorithms/ObjFileParser.cs:91-94 | the values of a non-empty line are non-empty, so the `Where` filter keeps them all |
| ObjParsing.IgnoredLine | ComputerGraphics.Algorithms/ObjFileParser.cs:88-109 | a blank line, or one whose keyword is not v, vt, vn or f, changes nothing |
| ObjParsing.VertexLine | ComputerGraphics.Algorithms/ObjFileParser.cs:92-97 | a `v` line appends (x, y, z, 1) from its first three values and changes no other list; FormatException when a value does not parse; IndexOutOfRange when fewer than three values |
| ObjParsing.TextureLine | ComputerGraphics.Algorithms/ObjFileParser.cs:98-102 | a `vt` line succeeds if and only if it has at least two values and all parse, and then appends one coordinate pair and changes no other list |
| ObjParsing.NormalLine | ComputerGraphics.Algorithms/ObjFileParser.cs:103-108 | a `vn` line succeeds if and only if it has at least three values and all parse, and then appends one normal and changes no other list |
| ObjParsing.FaceLine | ComputerGraphics.Algorithms/ObjFileParser.cs:109-127 | an `f` line with k tokens appends one list of length k to each polygon list; entry j comes from token j, resolved against the list sizes before the line; nothing else changes; it fails if and only if some token fails |
| ObjParsing.RunLines | ComputerGraphics.Algorithms/ObjFileParser.cs:85-130 | a reported failure names a line of the input |
| ObjParsing.LineKeepsParallel | ComputerGraphics.Algorithms/ObjFileParser.cs:109-127 | one line keeps the three polygon lists parallel, and only appends |
| ObjParsing.ParseLinesKeepsParallel | ComputerGraphics.Algorithms/ObjFileParser.cs:85-130 | parsing any lines keeps the polygon lists parallel; every list of the result extends the same list before |
| ObjParsing.FailureIsFinal | ComputerGraphics.Algorithms/ObjFileParser.cs:85-130 | once a line throws, later lines change nothing |
| ObjParsing.ObjFileParser.constructor | ComputerGraphics.Algorithms/ObjFileParser.cs:10-19 | all six lists start empty |
| ObjParsing.ObjFileParser.ParseFile | ComputerGraphics.Algorithms/ObjFileParser.cs:85-130 | the lists after the loop, and the exception (with its line) that stopped it, are those of the per-line specification run over the lines |
| ObjParsing.ObjFileParser.ParseFaceTokens | ComputerGraphics.Algorithms/ObjFileParser.cs:111-123 | the `foreach` over an `f` line's tokens yields exactly the face specification's result, failures included |
| Rendering.RoundEven | ComputerGraphics.View/Drawer.cs:53-54 | `float.Round` is within 1/2 of its argument, and is even on a tie |
| Rendering.StepCount | ComputerGraphics.View/Drawer.cs:42 | the step count is the largest integer not above max(abs(dx), abs(dy)) |
| Rendering.DdaPoints | ComputerGraphics.View/Drawer.cs:47-66 | the loop visits stepCount + 1 points, starting with the first point |
| Rendering.Walk | ComputerGraphics.View/Drawer.cs:65-66 | n steps give n + 1 points, starting at the start point |
| Rendering.WalkStep | ComputerGraphics.View/Drawer.cs:65-66 | consecutive points of a walk differ by exactly the increments |
| Rendering.WalkAt | ComputerGraphics.View/Drawer.cs:65-66 | point k of a walk is the start plus k increments |
| Rendering.DdaEvenSteps | ComputerGraphics.View/Drawer.cs:44-66 | consecutive visited points differ by exactly (dx / stepCount, dy / stepCount) |
| Rendering.DdaReachesSecond | ComputerGraphics.View/Drawer.cs:42-66 | with at least one step, the last visited point is the second point exactly |
| Rendering.DdaIncrementBounds | ComputerGraphics.View/Drawer.cs:42-45 | both increments are below 2 in absolute value, and the longer axis moves by at least 1 per step |
| Rendering.WrittenGuardOvershoot | ComputerGraphics.View/Drawer.cs:52-56 | under the guard as written, the rounded pixel is at most one column and one row outside the bitmap |
| Rendering.WrittenGuardEscapes | ComputerGraphics.View/Drawer.cs:52-56 | a point that passes the guard as written can address bytes past the end of the buffer |
| Rendering.PixelGuardAgrees | ComputerGraphics.View/Drawer.cs:56 | below the last half pixel of each axis, the completed guard and the written one agree |
| Rendering.PixelGuardInBuffer | ComputerGraphics.View/Drawer.cs:52-61 | under the completed guard, all four bytes of the pixel lie inside the `stride * height` buffer |
| Rendering.Plot | ComputerGraphics.View/Drawer.cs:52-63 | plotting keeps the buffer's length; the write is decided by the guard as written, and `PlotWritesOnePixel` gives its bytes |
| Rendering.PlotWritesOnePixel | ComputerGraphics.View/Drawer.cs:52-61 | when the unrounded point passes the guard and its pixel is in the buffer, the pixel's four bytes become blue, green, red and 255 and no other byte changes; off the guard, or for a write past the buffer's end, nothing changes |
| Rendering.WrittenAddressNonNegative | ComputerGraphics.View/Drawer.cs:52-56 | under the guard as written, the pixel's address is not before the start of the buffer |
| Rendering.WrittenGuardWraps | ComputerGraphics.View/Drawer.cs:52-56 | with rows packed at `stride == 4 * width`, a point that rounds to column `width` addresses the first pixel of the next row |
| Rendering.UpperRowInBuffer | ComputerGraphics.View/Drawer.cs:52-56 | a point the guard as written lets through and that rounds above the last row has all four bytes inside the buffer |
| Rendering.EscapeNeedsLastRow | ComputerGraphics.View/Drawer.cs:52-56 | a write past the buffer's end comes only from a point that rounds into the last row or below it |
| Rendering.PointsEscapeIffSome | ComputerGraphics.View/Drawer.cs:50-66 | the walk's escape report holds exactly when some visited point's write runs past the buffer's end |
| Rendering.LinesEscapeIffSome | ComputerGraphics.View/Drawer.cs:88-107 | the escape report over several lines holds exactly when one of the lines escapes |
| Rendering.Lookup | ComputerGraphics.View/Drawer.cs:95-96 | `pointsArray[index - 1]` succeeds if and only if 1 <= index <= count, and then gives that point |
| Rendering.Edges | ComputerGraphics.View/Drawer.cs:90-107 | a polygon has as many edges as indices |
| Rendering.EdgesFormCycle | ComputerGraphics.View/Drawer.cs:90-107 | edge i joins index i to index (i + 1) mod n |
| Rendering.EdgesChain | ComputerGraphics.View/Drawer.cs:90-107 | each edge ends where the next edge, cyclically, begins |
| Rendering.Chain | ComputerGraphics.View/Drawer.cs:90-99 | the `for` loop joins n - 1 pairs, pair i being (index i, index i + 1) |
| Rendering.ChainThenClosing | ComputerGraphics.View/Drawer.cs:90-107 | the loop's pairs followed by the closing pair (last, first) are exactly the cycle of edges |
| Rendering.Close | ComputerGraphics.View/Drawer.cs:101-107 | the closing line is drawn if and only if both of its indices are in range, after the other lines; otherwise the polygon throws |
| Rendering.PolygonPlanFollowsCycle | ComputerGraphics.View/Drawer.cs:88-107 | a polygon is drawn exactly as looking up its cycle of edges in order, stopping at the first index out of range |
| Rendering.LookupEdgesComplete | ComputerGraphics.View/Drawer.cs:90-107 | a list of edges is drawn in full if and only if every index is in range; then segment k joins the points of edge k |
| Rendering.LookupEdgesStops | ComputerGraphics.View/Drawer.cs:95-96 | an edge with an index out of range ends the polygon, after the lines already drawn |
| Rendering.ChainInRangeIffDrawable | ComputerGraphics.View/Drawer.cs:90-105 | the loop's pairs and the closing pair are in range if and only if every index of the polygon is |
| Rendering.PolygonPlanComplete | ComputerGraphics.View/Drawer.cs:88-107 | a polygon is drawn in full if and only if it is non-empty with all indices in range, and then as one segment per index |
| Rendering.PolygonSegmentsFollowCycle | ComputerGraphics.View/Drawer.cs:88-107 | a drawable polygon is drawn as segment k from the point of index k to the point of the next index, cyclically |
| Rendering.RunPolygonsComplete | ComputerGraphics.View/Drawer.cs:88-108 | the `foreach` runs to the end if and only if every polygon completes |
| Rendering.RunPolygonsStops | ComputerGraphics.View/Drawer.cs:88-108 | a polygon that throws ends the drawing, after the segments drawn so far |
| Rendering.DrawPlanComplete | ComputerGraphics.View/Drawer.cs:77-111 | `Draw` completes if and only if every polygon is drawable |
| Rendering.DrawPlanCount | ComputerGraphics.View/Drawer.cs:77-111 | a complete `Draw` draws exactly one segment per polygon index, summed over the polygons |
| Rendering.DrawLinesConcat | ComputerGraphics.View/Drawer.cs:88-108 | drawing two lists of segments one after the other equals drawing their concatenation |
| Rendering.ParsedIndexShift | ComputerGraphics.View/Drawer.cs:95-96 | a positive file index i, stored by the parser as i - 1, reaches point i - 2; file index 1 is never drawable, and index count + 1 is |
| Rendering.Drawer.constructor | ComputerGraphics.View/Drawer.cs:24-32 | a `width x height` 32-bit bitmap, stride 4 * width, every byte 0, and the given foreground |
| Rendering.Drawer.DrawLineDda | ComputerGraphics.View/Drawer.cs:37-68 | the buffer afterwards is the old buffer with every visited DDA point plotted under the guard as written, in order; `escaped` holds iff some visited point's write runs past the buffer's end |
| Rendering.Drawer.PlotPixel | ComputerGraphics.View/Drawer.cs:52-63 | one loop iteration: the buffer becomes `Plot` of the old buffer at (x, y), and `escaped` holds iff the guard passes with the pixel past the buffer's end |
| Rendering.Drawer.Draw | ComputerGraphics.View/Drawer.cs:77-111 | the buffer afterwards is the old buffer with the plan's segments drawn in order; `ok` reports whether the `foreach` ran to the end, `escaped` whether a drawn segment wrote past the buffer's end |
| Rendering.Drawer.DrawPolygon | ComputerGraphics.View/Drawer.cs:88-107 | one polygon's segments are drawn in order; `ok` reports whether the polygon was drawn in full, `escaped` whether one of its segments wrote past the buffer's end |
| Rendering.Drawer.DrawClosingEdge | ComputerGraphics.View/Drawer.cs:101-107 | after the loop's lines, the closing line completes the polygon's plan, or the polygon throws with those lines kept; the escape report covers all the polygon's lines |

## Left out

- File reading. `ParseFile` takes the file's lines as a sequence: the `StreamReader` is not modelled.
- Texture, mirror and normal maps. The loading of these maps in `ParseFile` (ObjFileParser.cs:131-168) is left out. It is `Bitmap` I/O, and its normal-map loop stores nothing.
- `float.Parse` is the parameter `parseFloat`. Its culture-dependent handling of the ',' that replaced '.' is not modelled.
- Floating point. Coordinates, matrices and the DDA walk are over the reals: single-precision rounding, drift from accumulating `x += xIncrement`, NaN and infinity are not modelled.
- Transforms.PerspectiveDivide: for w = 0 it returns the vector unchanged. C# would produce NaN or infinity components, which the reals cannot represent.
- Rendering.Increment: with zero steps the increment is taken as 0. C# divides by zero, but that value is never used to plot a point.
- Rendering.PixelAddress: it does not model the runtime-dependent `(int)` cast of a rounded coordinate outside the 32-bit range, nor 32-bit overflow of the byte offset.
- Rendering.Drawer.PlotPixel: the `pixel != null` test is dropped, because the locked buffer is never null.
- Rendering.Plot: a write whose bytes would run past the end of the buffer is not made. The C# code writes through the pointer beyond the locked bitmap, which is undefined behaviour; the model reports it as `escaped` (see `Escapes`) and carries on with the next point. Writes that wrap into the next row are made, as in the code.
- Rendering.Drawer.PlotPixel: it writes as `Rendering.Plot` does, with the same treatment of a write past the buffer's end.
- Rendering.StepCount: the `(int)` cast of the longer extent is the unbounded floor. For an extent of 2^31 or more (a vertex projected near w = 0) the C# cast leaves the 32-bit range and its result depends on the runtime, so the loop either never runs or never ends; the model walks the floor's number of steps instead.
- Rendering.Drawer.Draw: it takes the transformed vertices and the polygons as parameters. `Model.cs` is not part of this model.
- Rendering.Drawer.Draw: `LockBits`/`UnlockBits` and the `Bitmap` object are left out. The buffer is an array of `stride * height` bytes.
- Rendering.Drawer.Draw: the `pointsArray` is built in an array and then read through a sequence copy of it. Nothing writes to it after it is built.
- Rendering.Drawer.constructor: its `requires 0 < width && 0 < height` stands in for the ArgumentException that `new Bitmap(width, height)` raises for a non-positive size (Drawer.cs:28); the model has no failing constructor.
- Rendering.Drawer.constructor: also, it does not call `Update()`. `Clear` is a GDI+ call that fills the bitmap with the background colour. `Draw` is modelled on its own.
- `Drawer.Update`, `Drawer.Clear`, `MainWindow` and the benchmarks are not part of this model.
- Transforms.Converter.ApplyTransformations returns `false` where C# throws on a too-short output span. The entries rewritten before that point are kept.
- Transforms.Converter.constructor: `WorldVertices` starts empty, not `null`.
- ObjText.IsWhiteSpace: it covers the ASCII whitespace, U+0085 and U+00A0. The other Unicode space separators that `Trim()` and `\s` also match are not modelled.
- ObjText.ParseInt: it models the invariant culture's '-' and '+' signs only. Surrounding whitespace is never present after normalisation.
- ObjParsing.ObjFileParser.ParseFile parses a `vn` line's values once. The C# code parses them twice with the same result.

## Findings

| source | as written | input that shows it | evidently intended | confidence | as-written member | corrected member |
|---|---|---|---|---|---|---|
| ComputerGraphics.View/Drawer.cs:52-56 | the guard tests the unrounded `x`, `y` against `Width`, `Height`, but the address uses the rounded coordinates | a 1 x 1 bitmap (stride 4) and the point (0, 0.75): the guard passes, `Round(0.75)` is 1, and the 4 bytes written start at offset 4, past the 4-byte buffer | write only when the rounded pixel lies inside the bitmap | not executed | Rendering.WrittenGuardEscapes | Rendering.PixelGuardInBuffer |
