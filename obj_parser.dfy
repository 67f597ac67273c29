/**
 * `ObjFileParser.ParseFile`: the loop over the lines of a Wavefront OBJ
 * file that fills the vertex, texture-coordinate, normal and face lists.
 *
 * `float.Parse` (culture dependent, applied after '.' became ',') is the
 * parameter `parseFloat`; coordinates are reals. Face indices go through
 * the model of `int.Parse` in ObjText and are resolved in 32-bit arithmetic.
 */
module ObjParsing {
  import opened Wrappers
  import opened Geometry
  import opened ObjText

  /** The six lists `ParseFile` appends to, as one value. */
  datatype ObjData = ObjData(
    vertices: seq<Vec4>,
    textures: seq<Vec2>,
    normals: seq<Vec3>,
    polygons: seq<seq<int>>,
    polygonsTextures: seq<seq<int>>,
    polygonsNormals: seq<seq<int>>)

  function EmptyData(): ObjData {
    ObjData([], [], [], [], [], [])
  }

  /** The three zero-based indices one `v/t/n` face token resolves to. */
  datatype Corner = Corner(vertex: int, texture: int, normal: int)

  /** The three index lists one `f` line produces, kept in parallel. */
  datatype Face = Face(vertices: seq<int>, textures: seq<int>, normals: seq<int>)

  /** The exception that stopped the parse, and the (zero-based) line it came from. */
  datatype LineFailure = LineFailure(line: nat, fault: Fault)

  /** The lists after a run over some lines, and the exception that ended it, if any. */
  datatype Run = Run(data: ObjData, failure: Option<LineFailure>)

  /** C#'s unchecked 32-bit `int` arithmetic: x reduced into the `int` range. */
  function Wrap32(x: int): (r: int)
    ensures Int32Min <= r <= Int32Max
    ensures Int32Min <= x <= Int32Max ==> r == x
    ensures Int32Max < x <= Int32Max + 0x1_0000_0000 ==> r == x - 0x1_0000_0000
  {
    (x - Int32Min) % 0x1_0000_0000 + Int32Min
  }

  /**
   * `i > 0 ? i - 1 : count - i`: the conversion of a one-based OBJ index
   * into a list of `count` entries, as the code writes it for every field.
   */
  function ResolveIndex(i: int, count: nat): int {
    if i > 0 then i - 1 else Wrap32(count - i)
  }

  /**
   * A resolved index is a valid position exactly when the file index was
   * positive and at most `count`: a zero or negative (relative) index never
   * resolves to a valid position, with or without 32-bit overflow.
   */
  lemma ResolvedIndexValid(i: int, count: nat)
    requires Int32Min <= i <= Int32Max && count <= Int32Max
    ensures 0 <= ResolveIndex(i, count) < count <==> 0 < i <= count
  {
    if i <= 0 {
      var x := count - i;
      assert count <= x <= Int32Max + 0x8000_0000;
      if x > Int32Max {
        assert Wrap32(x) == x - 0x1_0000_0000 < 0;
      }
    }
  }

  /**
   * The OBJ convention resolves a relative index -k (1 <= k <= count) to
   * count - k; the code gives count + k, which is past the end of the list.
   */
  lemma RelativeIndexOvershoots(i: int, count: nat)
    requires -(count as int) <= i < 0 && count - i <= Int32Max
    ensures ResolveIndex(i, count) == count + (-i)
    ensures 0 <= count + i < count && ResolveIndex(i, count) >= count
  {
  }

  /**
   * One face token: `value.Split('/')`, then `int.Parse` of field 0, of
   * field 2 and of field 1, in that order, each resolved against the count
   * of its own list (vertices, normals, textures).
   */
  function ParseCorner(token: string, vertexCount: nat, textureCount: nat, normalCount: nat)
    : (r: Result<Corner, Fault>)
    ensures r.Err? ==> r.error != ArgumentOutOfRange
  {
    var fields := Split(token, '/');
    match ParseInt(fields[0])
    case Err(e) => Err(e)
    case Ok(v) =>
      if |fields| < 3 then Err(IndexOutOfRange)
      else
        match ParseInt(fields[2])
        case Err(e) => Err(e)
        case Ok(n) =>
          match ParseInt(fields[1])
          case Err(e) => Err(e)
          case Ok(t) =>
            Ok(Corner(ResolveIndex(v, vertexCount), ResolveIndex(t, textureCount),
                      ResolveIndex(n, normalCount)))
  }

  /** The text of a `v/t/n` face token. */
  function FormatCorner(v: int, t: int, n: int): string {
    Join([FormatInt(v), FormatInt(t), FormatInt(n)], '/')
  }

  /**
   * Field 0 is the vertex, field 1 the texture and field 2 the normal
   * index: a token written from three 32-bit indices parses back to them,
   * each resolved against its own list.
   */
  lemma CornerRoundTrip(v: int, t: int, n: int, vc: nat, tc: nat, nc: nat)
    requires Int32Min <= v <= Int32Max && Int32Min <= t <= Int32Max && Int32Min <= n <= Int32Max
    ensures ParseCorner(FormatCorner(v, t, n), vc, tc, nc)
         == Ok(Corner(ResolveIndex(v, vc), ResolveIndex(t, tc), ResolveIndex(n, nc)))
  {
    var parts := [FormatInt(v), FormatInt(t), FormatInt(n)];
    forall k | 0 <= k < 3 ensures '/' !in parts[k] {
      FormatIntHasNoSlash(if k == 0 then v else if k == 1 then t else n);
    }
    SplitJoin(parts, '/');
    ParseFormatRoundTrip(v);
    ParseFormatRoundTrip(t);
    ParseFormatRoundTrip(n);
  }

  lemma FormatIntHasNoSlash(n: int)
    ensures '/' !in FormatInt(n)
  {
    var s := FormatInt(n);
    var ds := if n < 0 then Digits(-n) else Digits(n);
    assert s == if n < 0 then "-" + ds else ds;
    assert forall i :: 0 <= i < |s| ==> s[i] == '-' || IsDigit(s[i]);
  }

  /** A face token with fewer than three '/'-separated fields throws. */
  lemma CornerNeedsThreeFields(token: string, vc: nat, tc: nat, nc: nat)
    requires |Split(token, '/')| < 3
    ensures ParseCorner(token, vc, tc, nc).Err?
  {
  }

  /** A token such as `v//n`, with an empty texture field, throws a FormatException. */
  lemma EmptyTextureFieldFails(v: int, n: int, vc: nat, tc: nat, nc: nat)
    requires Int32Min <= v <= Int32Max && Int32Min <= n <= Int32Max
    ensures ParseCorner(Join([FormatInt(v), "", FormatInt(n)], '/'), vc, tc, nc) == Err(FormatError)
  {
    var parts := [FormatInt(v), "", FormatInt(n)];
    FormatIntHasNoSlash(v);
    FormatIntHasNoSlash(n);
    SplitJoin(parts, '/');
    ParseFormatRoundTrip(v);
    ParseFormatRoundTrip(n);
    assert !IsIntegerText("");
  }

  /** The outcome of every token of a face, in token order. */
  function Corners(values: seq<string>, vc: nat, tc: nat, nc: nat): (r: seq<Result<Corner, Fault>>)
    ensures |r| == |values|
  {
    seq(|values|, k requires 0 <= k < |values| => ParseCorner(values[k], vc, tc, nc))
  }

  /**
   * The three index lists built from corner outcomes in order, stopping at
   * the first exception.
   */
  function Collect(cs: seq<Result<Corner, Fault>>): (r: Result<Face, Fault>)
    ensures r.Ok? ==>
      |r.value.vertices| == |cs| && |r.value.textures| == |cs| && |r.value.normals| == |cs|
      && forall k :: 0 <= k < |cs| ==>
        cs[k] == Ok(Corner(r.value.vertices[k], r.value.textures[k], r.value.normals[k]))
  {
    if cs == [] then Ok(Face([], [], []))
    else
      var n := |cs| - 1;
      match Collect(cs[..n])
      case Err(e) => Err(e)
      case Ok(f) =>
        match cs[n]
        case Err(e) => Err(e)
        case Ok(c) =>
          assert forall k :: 0 <= k < n ==> cs[..n][k] == cs[k];
          Ok(Face(f.vertices + [c.vertex], f.textures + [c.texture], f.normals + [c.normal]))
  }

  /**
   * Collecting fails exactly when some outcome is an exception, and then
   * with the first one.
   */
  lemma {:induction false} CollectFailure(cs: seq<Result<Corner, Fault>>)
    ensures Collect(cs).Err? ==>
      exists k :: 0 <= k < |cs| && cs[k] == Err(Collect(cs).error)
        && forall j :: 0 <= j < k ==> cs[j].Ok?
    ensures (forall k :: 0 <= k < |cs| ==> cs[k].Ok?) ==> Collect(cs).Ok?
  {
    if cs != [] {
      var n := |cs| - 1;
      var pre := cs[..n];
      CollectFailure(pre);
      var r := Collect(cs);
      if Collect(pre).Err? {
        var k :| 0 <= k < |pre| && pre[k] == Err(r.error) && forall j :: 0 <= j < k ==> pre[j].Ok?;
        assert cs[k] == pre[k];
        assert forall j :: 0 <= j < k ==> cs[j] == pre[j];
      } else if r.Err? {
        assert cs[n] == Err(r.error);
        assert forall j :: 0 <= j < n ==> cs[j] == pre[j];
      }
      if forall k :: 0 <= k < |cs| ==> cs[k].Ok? {
        assert forall k :: 0 <= k < |pre| ==> pre[k] == cs[k];
      }
    }
  }

  /**
   * The `foreach` over the values of an `f` line: one corner per token, in
   * token order, or the exception of the first token that throws.
   */
  function ParseFace(values: seq<string>, vc: nat, tc: nat, nc: nat): (r: Result<Face, Fault>)
    ensures r.Ok? ==>
      |r.value.vertices| == |values| && |r.value.textures| == |values| && |r.value.normals| == |values|
      && forall k :: 0 <= k < |values| ==>
        ParseCorner(values[k], vc, tc, nc)
          == Ok(Corner(r.value.vertices[k], r.value.textures[k], r.value.normals[k]))
  {
    var cs := Corners(values, vc, tc, nc);
    assert forall k :: 0 <= k < |values| ==> cs[k] == ParseCorner(values[k], vc, tc, nc);
    Collect(cs)
  }

  /**
   * A face throws exactly when one of its tokens does, and then with the
   * exception of the first such token.
   */
  lemma ParseFaceFailure(values: seq<string>, vc: nat, tc: nat, nc: nat)
    ensures var r := ParseFace(values, vc, tc, nc);
      r.Err? ==>
        exists k :: 0 <= k < |values| && ParseCorner(values[k], vc, tc, nc) == Err(r.error)
          && forall j :: 0 <= j < k ==> ParseCorner(values[j], vc, tc, nc).Ok?
    ensures (forall k :: 0 <= k < |values| ==> ParseCorner(values[k], vc, tc, nc).Ok?)
         ==> ParseFace(values, vc, tc, nc).Ok?
  {
    var cs := Corners(values, vc, tc, nc);
    CollectFailure(cs);
    assert forall k :: 0 <= k < |values| ==> cs[k] == ParseCorner(values[k], vc, tc, nc);
  }

  /** `values.Where(x => x != "")`. */
  function NonEmptyTokens(values: seq<string>): (r: seq<string>)
    ensures forall k :: 0 <= k < |r| ==> r[k] != []
    ensures (forall k :: 0 <= k < |values| ==> values[k] != []) ==> r == values
  {
    if values == [] then []
    else if values[0] == [] then NonEmptyTokens(values[1..])
    else [values[0]] + NonEmptyTokens(values[1..])
  }

  /** `.Select(float.Parse).ToArray()`: every value parsed, or a FormatException. */
  function ParseFloats(values: seq<string>, parseFloat: string -> Option<real>)
    : (r: Result<seq<real>, Fault>)
    ensures r.Ok? ==> |r.value| == |values|
    ensures r.Ok? ==> forall k :: 0 <= k < |values| ==> parseFloat(values[k]) == Some(r.value[k])
    ensures r.Err? <==> exists k :: 0 <= k < |values| && parseFloat(values[k]).None?
    ensures r.Err? ==> r.error == FormatError
  {
    if values == [] then Ok([])
    else
      match parseFloat(values[0])
      case None => Err(FormatError)
      case Some(x) =>
        match ParseFloats(values[1..], parseFloat)
        case Err(e) => Err(e)
        case Ok(xs) => Ok([x] + xs)
  }

  /** `line.Split(' ')` of the normalised line. */
  function Tokens(line: string): (r: seq<string>)
    ensures |r| >= 1
  {
    Split(Normalize(line), ' ')
  }

  /** The first token of the normalised line. */
  function Keyword(line: string): string {
    Tokens(line)[0]
  }

  /** `split[1..]`: the tokens after the keyword. */
  function Values(line: string): seq<string> {
    Tokens(line)[1..]
  }

  /** After normalisation no value is empty, so the `Where` filter keeps them all. */
  lemma ValuesNonEmpty(line: string)
    requires Normalize(line) != []
    ensures forall k :: 0 <= k < |Values(line)| ==> Values(line)[k] != []
    ensures NonEmptyTokens(Values(line)) == Values(line)
  {
    NormalizedTokens(line);
    var t := Tokens(line);
    assert t == Split(Normalize(line), ' ');
    forall k | 0 <= k < |Values(line)| ensures Values(line)[k] != [] {
      assert Values(line)[k] == t[k + 1];
      assert t[k + 1] != [];
    }
  }

  predicate IsKnownKeyword(kw: string) {
    kw == "v" || kw == "vt" || kw == "vn" || kw == "f"
  }

  /** A `v` line: `new Vector4(arr[0], arr[1], arr[2], 1)` appended to `Vertices`. */
  function AddVertex(d: ObjData, values: seq<string>, parseFloat: string -> Option<real>)
    : Result<ObjData, Fault>
  {
    match ParseFloats(NonEmptyTokens(values), parseFloat)
    case Err(e) => Err(e)
    case Ok(xs) =>
      if |xs| < 3 then Err(IndexOutOfRange)
      else Ok(d.(vertices := d.vertices + [Vec4(xs[0], xs[1], xs[2], 1.0)]))
  }

  /** A `vt` line: `new Vector2(floats.ToArray())` appended to `textures`. */
  function AddTexture(d: ObjData, values: seq<string>, parseFloat: string -> Option<real>)
    : Result<ObjData, Fault>
  {
    match ParseFloats(NonEmptyTokens(values), parseFloat)
    case Err(e) => Err(e)
    case Ok(xs) =>
      if |xs| < 2 then Err(ArgumentOutOfRange)
      else Ok(d.(textures := d.textures + [Vec2(xs[0], xs[1])]))
  }

  /** A `vn` line: `new Vector3(floats.ToArray())` appended to `Normals`. */
  function AddNormal(d: ObjData, values: seq<string>, parseFloat: string -> Option<real>)
    : Result<ObjData, Fault>
  {
    match ParseFloats(NonEmptyTokens(values), parseFloat)
    case Err(e) => Err(e)
    case Ok(xs) =>
      if |xs| < 3 then Err(ArgumentOutOfRange)
      else Ok(d.(normals := d.normals + [Vec3(xs[0], xs[1], xs[2])]))
  }

  /** An `f` line: one list appended to each of the three polygon lists. */
  function AddFace(d: ObjData, values: seq<string>): Result<ObjData, Fault> {
    match ParseFace(values, |d.vertices|, |d.textures|, |d.normals|)
    case Err(e) => Err(e)
    case Ok(f) =>
      Ok(d.(polygons := d.polygons + [f.vertices],
            polygonsNormals := d.polygonsNormals + [f.normals],
            polygonsTextures := d.polygonsTextures + [f.textures]))
  }

  /**
   * The body of the `while` loop for one line: the lists after it, or the
   * exception it throws (in which case nothing was appended).
   */
  function ParseLine(d: ObjData, line: string, parseFloat: string -> Option<real>)
    : (r: Result<ObjData, Fault>)
  {
    if Normalize(line) == [] then Ok(d)
    else if Keyword(line) == "v" then AddVertex(d, Values(line), parseFloat)
    else if Keyword(line) == "vt" then AddTexture(d, Values(line), parseFloat)
    else if Keyword(line) == "vn" then AddNormal(d, Values(line), parseFloat)
    else if Keyword(line) == "f" then AddFace(d, Values(line))
    else Ok(d)
  }

  /**
   * The whole loop, for any per-line step: lines are handled in order and
   * the first exception ends the run, keeping what the earlier lines appended.
   */
  function RunLines(d: ObjData, lines: seq<string>, step: (ObjData, string) -> Result<ObjData, Fault>)
    : (r: Run)
    ensures r.failure.Some? ==> r.failure.value.line < |lines|
  {
    if lines == [] then Run(d, None)
    else
      var n := |lines| - 1;
      var prev := RunLines(d, lines[..n], step);
      if prev.failure.Some? then prev
      else
        match step(prev.data, lines[n])
        case Ok(d') => Run(d', None)
        case Err(e) => Run(prev.data, Some(LineFailure(n, e)))
  }

  /** `ParseLine` as the step of `RunLines`. */
  function LineStep(parseFloat: string -> Option<real>): (ObjData, string) -> Result<ObjData, Fault> {
    (d: ObjData, line: string) => ParseLine(d, line, parseFloat)
  }

  /** The loop of `ParseFile` over all its lines. */
  function ParseLines(d: ObjData, lines: seq<string>, parseFloat: string -> Option<real>): Run {
    RunLines(d, lines, LineStep(parseFloat))
  }

  // ----- properties of one line -----

  /** A blank line, or one whose keyword is not v, vt, vn or f, changes nothing. */
  lemma IgnoredLine(d: ObjData, line: string, parseFloat: string -> Option<real>)
    requires Normalize(line) == [] || !IsKnownKeyword(Keyword(line))
    ensures ParseLine(d, line, parseFloat) == Ok(d)
  {
  }

  /**
   * A `v` line appends one vertex made of its first three values and w = 1,
   * ignoring further values; it throws when a value does not parse or when
   * there are fewer than three; no other list changes.
   */
  lemma VertexLine(d: ObjData, line: string, parseFloat: string -> Option<real>)
    requires Normalize(line) != [] && Keyword(line) == "v"
    ensures var r := ParseLine(d, line, parseFloat); var vs := Values(line);
      (exists k :: 0 <= k < |vs| && parseFloat(vs[k]).None?) ==> r == Err(FormatError)
    ensures var r := ParseLine(d, line, parseFloat); var vs := Values(line);
      (forall k :: 0 <= k < |vs| ==> parseFloat(vs[k]).Some?) ==>
        if |vs| < 3 then r == Err(IndexOutOfRange)
        else r == Ok(d.(vertices := d.vertices
               + [Vec4(parseFloat(vs[0]).value, parseFloat(vs[1]).value, parseFloat(vs[2]).value, 1.0)]))
  {
    ValuesNonEmpty(line);
  }

  /** A `vt` line appends exactly one texture coordinate and changes no other list. */
  lemma TextureLine(d: ObjData, line: string, parseFloat: string -> Option<real>)
    requires Normalize(line) != [] && Keyword(line) == "vt"
    ensures var r := ParseLine(d, line, parseFloat); var vs := Values(line);
      r.Ok? <==> (|vs| >= 2 && forall k :: 0 <= k < |vs| ==> parseFloat(vs[k]).Some?)
    ensures var r := ParseLine(d, line, parseFloat); var vs := Values(line);
      r.Ok? ==> r.value == d.(textures := d.textures + [Vec2(parseFloat(vs[0]).value, parseFloat(vs[1]).value)])
  {
    ValuesNonEmpty(line);
  }

  /** A `vn` line appends exactly one normal and changes no other list. */
  lemma NormalLine(d: ObjData, line: string, parseFloat: string -> Option<real>)
    requires Normalize(line) != [] && Keyword(line) == "vn"
    ensures var r := ParseLine(d, line, parseFloat); var vs := Values(line);
      r.Ok? <==> (|vs| >= 3 && forall k :: 0 <= k < |vs| ==> parseFloat(vs[k]).Some?)
    ensures var r := ParseLine(d, line, parseFloat); var vs := Values(line);
      r.Ok? ==> r.value == d.(normals := d.normals
        + [Vec3(parseFloat(vs[0]).value, parseFloat(vs[1]).value, parseFloat(vs[2]).value)])
  {
    ValuesNonEmpty(line);
  }

  /**
   * An `f` line with k values appends one list of length k to each of the
   * polygon lists; entry j of the three lists comes from token j, resolved
   * against the list sizes before the line. Nothing else changes.
   */
  lemma FaceLine(d: ObjData, line: string, parseFloat: string -> Option<real>)
    requires Normalize(line) != [] && Keyword(line) == "f"
    ensures var r := ParseLine(d, line, parseFloat); var vs := Values(line);
      r.Ok? ==>
        r.value.vertices == d.vertices && r.value.textures == d.textures && r.value.normals == d.normals
        && |r.value.polygons| == |d.polygons| + 1 && r.value.polygons[..|d.polygons|] == d.polygons
        && |r.value.polygonsTextures| == |d.polygonsTextures| + 1
        && r.value.polygonsTextures[..|d.polygonsTextures|] == d.polygonsTextures
        && |r.value.polygonsNormals| == |d.polygonsNormals| + 1
        && r.value.polygonsNormals[..|d.polygonsNormals|] == d.polygonsNormals
        && var p, t, n := r.value.polygons[|d.polygons|], r.value.polygonsTextures[|d.polygonsTextures|],
                          r.value.polygonsNormals[|d.polygonsNormals|];
           |p| == |vs| && |t| == |vs| && |n| == |vs|
           && forall j :: 0 <= j < |vs| ==>
                ParseCorner(vs[j], |d.vertices|, |d.textures|, |d.normals|) == Ok(Corner(p[j], t[j], n[j]))
    ensures var r := ParseLine(d, line, parseFloat); var vs := Values(line);
      r.Err? <==> exists j :: 0 <= j < |vs| && ParseCorner(vs[j], |d.vertices|, |d.textures|, |d.normals|).Err?
  {
    ParseFaceFailure(Values(line), |d.vertices|, |d.textures|, |d.normals|);
  }

  // ----- properties of the whole loop -----

  /** The three polygon lists have one entry per face and equally long entries. */
  predicate PolygonsParallel(d: ObjData) {
    |d.polygons| == |d.polygonsTextures| == |d.polygonsNormals|
    && forall j :: 0 <= j < |d.polygons| ==>
         |d.polygonsTextures[j]| == |d.polygons[j]| && |d.polygonsNormals[j]| == |d.polygons[j]|
  }

  /** Each list of d is a prefix of the same list of e: nothing is ever removed or rewritten. */
  predicate Extends(d: ObjData, e: ObjData) {
    d.vertices <= e.vertices && d.textures <= e.textures && d.normals <= e.normals
    && d.polygons <= e.polygons && d.polygonsTextures <= e.polygonsTextures
    && d.polygonsNormals <= e.polygonsNormals
  }

  lemma LineKeepsParallel(d: ObjData, line: string, parseFloat: string -> Option<real>)
    requires PolygonsParallel(d)
    ensures var r := ParseLine(d, line, parseFloat); r.Ok? ==> PolygonsParallel(r.value) && Extends(d, r.value)
  {
    var r := ParseLine(d, line, parseFloat);
    if r.Ok? && Normalize(line) != [] {
      var e, values := r.value, Values(line);
      if Keyword(line) == "v" {
        assert r == AddVertex(d, values, parseFloat);
      } else if Keyword(line) == "vt" {
        assert r == AddTexture(d, values, parseFloat);
      } else if Keyword(line) == "vn" {
        assert r == AddNormal(d, values, parseFloat);
      } else if Keyword(line) == "f" {
        assert r == AddFace(d, values);
        var f := ParseFace(values, |d.vertices|, |d.textures|, |d.normals|).value;
        assert e.polygons == d.polygons + [f.vertices];
        assert e.polygonsTextures == d.polygonsTextures + [f.textures];
        assert e.polygonsNormals == d.polygonsNormals + [f.normals];
        forall j | 0 <= j < |e.polygons|
          ensures |e.polygonsTextures[j]| == |e.polygons[j]| && |e.polygonsNormals[j]| == |e.polygons[j]|
        {
          if j < |d.polygons| {
            assert e.polygons[j] == d.polygons[j];
            assert e.polygonsTextures[j] == d.polygonsTextures[j];
            assert e.polygonsNormals[j] == d.polygonsNormals[j];
          }
        }
      }
    }
  }

  /** Parsing any lines keeps the polygon lists parallel and only appends. */
  lemma {:induction false} ParseLinesKeepsParallel(d: ObjData, lines: seq<string>,
                                                   parseFloat: string -> Option<real>)
    requires PolygonsParallel(d)
    ensures PolygonsParallel(ParseLines(d, lines, parseFloat).data)
    ensures Extends(d, ParseLines(d, lines, parseFloat).data)
  {
    if lines != [] {
      var n := |lines| - 1;
      var prev := ParseLines(d, lines[..n], parseFloat);
      ParseLinesKeepsParallel(d, lines[..n], parseFloat);
      if prev.failure.None? {
        LineKeepsParallel(prev.data, lines[n], parseFloat);
      }
    }
  }

  /** Once a line throws, later lines are never read. */
  lemma {:induction false} FailureIsFinal(d: ObjData, lines: seq<string>, k: nat,
                                          step: (ObjData, string) -> Result<ObjData, Fault>)
    requires k <= |lines| && RunLines(d, lines[..k], step).failure.Some?
    ensures RunLines(d, lines, step) == RunLines(d, lines[..k], step)
  {
    if k < |lines| {
      var n := |lines| - 1;
      assert lines[..n][..k] == lines[..k];
      FailureIsFinal(d, lines[..n], k, step);
    } else {
      assert lines[..k] == lines;
    }
  }

  /** Advancing the loop by one line that does not throw. */
  lemma StepOk(d: ObjData, lines: seq<string>, i: nat, e: ObjData, e': ObjData,
               parseFloat: string -> Option<real>)
    requires i < |lines|
    requires ParseLines(d, lines[..i], parseFloat) == Run(e, None)
    requires ParseLine(e, lines[i], parseFloat) == Ok(e')
    ensures ParseLines(d, lines[..i + 1], parseFloat) == Run(e', None)
  {
    assert LineStep(parseFloat)(e, lines[i]) == Ok(e');
    RunStepOk(d, lines, i, e, e', LineStep(parseFloat));
  }

  /** `StepOk` for any step function. */
  lemma RunStepOk(d: ObjData, lines: seq<string>, i: nat, e: ObjData, e': ObjData,
                  step: (ObjData, string) -> Result<ObjData, Fault>)
    requires i < |lines|
    requires RunLines(d, lines[..i], step) == Run(e, None)
    requires step(e, lines[i]) == Ok(e')
    ensures RunLines(d, lines[..i + 1], step) == Run(e', None)
  {
    assert lines[..i + 1][..i] == lines[..i];
  }

  /** Ending the loop at a line that throws. */
  lemma StepFail(d: ObjData, lines: seq<string>, i: nat, e: ObjData, f: Fault,
                 parseFloat: string -> Option<real>)
    requires i < |lines|
    requires ParseLines(d, lines[..i], parseFloat) == Run(e, None)
    requires ParseLine(e, lines[i], parseFloat) == Err(f)
    ensures ParseLines(d, lines, parseFloat) == Run(e, Some(LineFailure(i, f)))
  {
    assert lines[..i + 1][..i] == lines[..i];
    FailureIsFinal(d, lines, i + 1, LineStep(parseFloat));
  }

  /** Outcome k is an exception after outcomes 0..k-1 were not: collecting stops there. */
  lemma CollectStops(cs: seq<Result<Corner, Fault>>, k: nat)
    requires k < |cs| && Collect(cs[..k]).Ok? && cs[k].Err?
    ensures Collect(cs) == Err(cs[k].error)
  {
    forall j | 0 <= j < k ensures cs[j].Ok? {
      assert cs[..k][j] == cs[j];
    }
    CollectFailure(cs);
    var m :| 0 <= m < |cs| && cs[m] == Err(Collect(cs).error) && forall j :: 0 <= j < m ==> cs[j].Ok?;
    assert m == k;
  }

  /** One more corner that parses extends the collected face by its three indices. */
  lemma CollectStep(cs: seq<Result<Corner, Fault>>, k: nat, f: Face, c: Corner)
    requires k < |cs| && Collect(cs[..k]) == Ok(f) && cs[k] == Ok(c)
    ensures Collect(cs[..k + 1]) == Ok(Face(f.vertices + [c.vertex], f.textures + [c.texture], f.normals + [c.normal]))
  {
    assert cs[..k + 1][..k] == cs[..k];
  }

  /** The parser object: its six public lists, filled in place by `ParseFile`. */
  class ObjFileParser {
    var vertices: seq<Vec4>
    var normals: seq<Vec3>
    var polygonsNormals: seq<seq<int>>
    var polygons: seq<seq<int>>
    var textures: seq<Vec2>
    var polygonsTextures: seq<seq<int>>

    function Data(): ObjData
      reads this
    {
      ObjData(vertices, textures, normals, polygons, polygonsTextures, polygonsNormals)
    }

    constructor ()
      ensures Data() == EmptyData()
    {
      vertices, normals, polygonsNormals := [], [], [];
      polygons, textures, polygonsTextures := [], [], [];
    }

    /**
     * Reads the given lines in order, appending to the lists; returns the
     * exception that stopped it, if any, with the lists as that line found them.
     */
    method ParseFile(lines: seq<string>, parseFloat: string -> Option<real>)
      returns (failure: Option<LineFailure>)
      modifies this
      ensures Data() == ParseLines(old(Data()), lines, parseFloat).data
      ensures failure == ParseLines(old(Data()), lines, parseFloat).failure
    {
      ghost var start := Data();
      var i := 0;
      while i < |lines|
        invariant 0 <= i <= |lines|
        invariant ParseLines(start, lines[..i], parseFloat) == Run(Data(), None)
      {
        ghost var before := Data();
        var line := Normalize(lines[i]);
        if |line| > 0 {
          var split := Split(line, ' ');
          var values := split[1..];
          if split[0] == "v" {
            var floats := ParseFloats(NonEmptyTokens(values), parseFloat);
            if floats.Err? {
              StepFail(start, lines, i, before, floats.error, parseFloat);
              return Some(LineFailure(i, floats.error));
            }
            var arr := floats.value;
            if |arr| < 3 {
              StepFail(start, lines, i, before, IndexOutOfRange, parseFloat);
              return Some(LineFailure(i, IndexOutOfRange));
            }
            vertices := vertices + [Vec4(arr[0], arr[1], arr[2], 1.0)];
          } else if split[0] == "vt" {
            var floats := ParseFloats(NonEmptyTokens(values), parseFloat);
            if floats.Err? {
              StepFail(start, lines, i, before, floats.error, parseFloat);
              return Some(LineFailure(i, floats.error));
            }
            if |floats.value| < 2 {
              StepFail(start, lines, i, before, ArgumentOutOfRange, parseFloat);
              return Some(LineFailure(i, ArgumentOutOfRange));
            }
            textures := textures + [Vec2(floats.value[0], floats.value[1])];
          } else if split[0] == "vn" {
            var floats := ParseFloats(NonEmptyTokens(values), parseFloat);
            if floats.Err? {
              StepFail(start, lines, i, before, floats.error, parseFloat);
              return Some(LineFailure(i, floats.error));
            }
            if |floats.value| < 3 {
              StepFail(start, lines, i, before, ArgumentOutOfRange, parseFloat);
              return Some(LineFailure(i, ArgumentOutOfRange));
            }
            normals := normals + [Vec3(floats.value[0], floats.value[1], floats.value[2])];
          } else if split[0] == "f" {
            var face := ParseFaceTokens(values);
            if face.Err? {
              StepFail(start, lines, i, before, face.error, parseFloat);
              return Some(LineFailure(i, face.error));
            }
            polygons := polygons + [face.value.vertices];
            polygonsNormals := polygonsNormals + [face.value.normals];
            polygonsTextures := polygonsTextures + [face.value.textures];
          }
        }
        StepOk(start, lines, i, before, Data(), parseFloat);
        i := i + 1;
      }
      failure := None;
      assert lines[..i] == lines;
    }

    /**
     * The `foreach` over the tokens of an `f` line, building the three index
     * lists against the current list sizes.
     */
    method ParseFaceTokens(values: seq<string>) returns (r: Result<Face, Fault>)
      ensures r == ParseFace(values, |vertices|, |textures|, |normals|)
    {
      ghost var cs := Corners(values, |vertices|, |textures|, |normals|);
      var vertexIndexes, textureIndexes, normalsIndexes := [], [], [];
      for k := 0 to |values|
        invariant Collect(cs[..k]) == Ok(Face(vertexIndexes, textureIndexes, normalsIndexes))
      {
        assert cs[k] == ParseCorner(values[k], |vertices|, |textures|, |normals|);
        var indexes := Split(values[k], '/');
        var vertexIndex := ParseInt(indexes[0]);
        if vertexIndex.Err? {
          CollectStops(cs, k);
          return Err(vertexIndex.error);
        }
        if |indexes| < 3 {
          CollectStops(cs, k);
          return Err(IndexOutOfRange);
        }
        var normalIndex := ParseInt(indexes[2]);
        if normalIndex.Err? {
          CollectStops(cs, k);
          return Err(normalIndex.error);
        }
        var textureIndex := ParseInt(indexes[1]);
        if textureIndex.Err? {
          CollectStops(cs, k);
          return Err(textureIndex.error);
        }
        ghost var corner := Corner(ResolveIndex(vertexIndex.value, |vertices|),
                                   ResolveIndex(textureIndex.value, |textures|),
                                   ResolveIndex(normalIndex.value, |normals|));
        CollectStep(cs, k, Face(vertexIndexes, textureIndexes, normalsIndexes), corner);
        vertexIndexes := vertexIndexes + [ResolveIndex(vertexIndex.value, |vertices|)];
        textureIndexes := textureIndexes + [ResolveIndex(textureIndex.value, |textures|)];
        normalsIndexes := normalsIndexes + [ResolveIndex(normalIndex.value, |normals|)];
      }
      assert cs[..|values|] == cs;
      r := Ok(Face(vertexIndexes, textureIndexes, normalsIndexes));
    }
  }
}
