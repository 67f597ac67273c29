/**
 * `Converter`: the per-vertex transform pipeline. Each model vertex goes
 * through (scale,) world, view and projection matrices, the division by w
 * and the viewport map, and the result overwrites the vertex at the same
 * index of the output list. Lists are arrays here, as the C# code works on
 * `CollectionsMarshal.AsSpan`, a fixed-length view of each list.
 */
module Transforms {
  import opened Geometry

  /**
   * `v /= v.W`: every component, w included, divided by w. Over the reals a
   * zero w has no quotient; the vertex is then left as it is.
   */
  function PerspectiveDivide(v: Vec4): (r: Vec4)
    ensures v.w != 0.0 ==> r.w == 1.0 && r.x * v.w == v.x && r.y * v.w == v.y && r.z * v.w == v.z
  {
    if v.w == 0.0 then v else Vec4(v.x / v.w, v.y / v.w, v.z / v.w, v.w / v.w)
  }

  /** The two viewport assignments: x := (x + 1) * width / 2, then y := (-y + 1) * height / 2. */
  function Viewport(v: Vec4, width: int, height: int): Vec4 {
    var v1 := v.(x := (v.x + 1.0) * width as real / 2.0);
    v1.(y := (-v1.y + 1.0) * height as real / 2.0)
  }

  /** Pixel coordinates back to normalised device coordinates. */
  function InverseViewport(p: Vec4, width: int, height: int): Vec4
    requires width != 0 && height != 0
  {
    p.(x := 2.0 * p.x / width as real - 1.0, y := 1.0 - 2.0 * p.y / height as real)
  }

  /**
   * The viewport maps the top-left NDC corner (-1, 1) to pixel (0, 0) and
   * the bottom-right corner (1, -1) to (width, height); z and w pass through.
   */
  lemma ViewportCorners(z: real, w: real, width: int, height: int)
    ensures Viewport(Vec4(-1.0, 1.0, z, w), width, height) == Vec4(0.0, 0.0, z, w)
    ensures Viewport(Vec4(1.0, -1.0, z, w), width, height) == Vec4(width as real, height as real, z, w)
  {
  }

  /** Inverting the viewport map recovers the NDC x and y. */
  lemma ViewportRoundTrip(v: Vec4, width: int, height: int)
    requires width != 0 && height != 0
    ensures InverseViewport(Viewport(v, width, height), width, height) == v
  {
    HalfScaleCancels(v.x + 1.0, width as real);
    HalfScaleCancels(-v.y + 1.0, height as real);
  }

  /** Scaling by r / 2 and then by 2 / r is the identity. */
  lemma HalfScaleCancels(a: real, r: real)
    requires r != 0.0
    ensures 2.0 * (a * r / 2.0) / r == a
  {
    assert 2.0 * (a * r / 2.0) == a * r;
    assert (a * r) / r == a;
  }

  /** The stages after the world transform: view, projection, division by w, viewport. */
  function FromWorld(v: Vec4, view: Matrix, projection: Matrix, width: int, height: int): Vec4 {
    Viewport(PerspectiveDivide(Transform(Transform(v, view), projection)), width, height)
  }

  /** The screen position of a model vertex: world, then `FromWorld`. */
  function ToScreen(v: Vec4, world: Matrix, view: Matrix, projection: Matrix, width: int, height: int): Vec4 {
    FromWorld(Transform(v, world), view, projection, width, height)
  }

  /** The world-space position captured by the scaled overload: scale, then world. */
  function WorldStage(v: Vec4, scale: real, world: Matrix): Vec4 {
    Transform(Transform(v, Scale(scale)), world)
  }

  /**
   * The three matrix stages, applied one after the other, equal one
   * transform by world * view * projection: world comes first.
   */
  lemma StagesCompose(v: Vec4, world: Matrix, view: Matrix, projection: Matrix, width: int, height: int)
    ensures ToScreen(v, world, view, projection, width, height)
         == Viewport(PerspectiveDivide(Transform(v, Mul(Mul(world, view), projection))), width, height)
  {
    TransformCompose(v, world, view);
    TransformCompose(v, Mul(world, view), projection);
  }

  /**
   * The scaled pipeline is the unscaled one with the world matrix preceded
   * by the uniform scale.
   */
  lemma ScaledIsScaleThenWorld(v: Vec4, scale: real, world: Matrix, view: Matrix, projection: Matrix,
                               width: int, height: int)
    ensures FromWorld(WorldStage(v, scale, world), view, projection, width, height)
         == ToScreen(v, Mul(Scale(scale), world), view, projection, width, height)
  {
    TransformCompose(v, Scale(scale), world);
  }

  /** The object whose `WorldVertices` list the scaled overload rebuilds. */
  class Converter {
    /** `WorldVertices`; null in C# until the first scaled call, empty here. */
    var worldVertices: seq<Vec4>

    constructor ()
      ensures worldVertices == []
    {
      worldVertices := [];
    }

    /**
     * The unscaled `ApplyTransformations`: entry i of `vertices` becomes the
     * screen position of entry i of `modelVertices`. Returns false where C#
     * throws, when `vertices` is shorter, after rewriting the entries it has.
     */
    method ApplyTransformations(modelVertices: array<Vec4>, vertices: array<Vec4>,
                                world: Matrix, view: Matrix, projection: Matrix,
                                width: int, height: int) returns (ok: bool)
      modifies vertices
      ensures ok == (modelVertices.Length <= vertices.Length)
      ensures worldVertices == old(worldVertices)
      ensures forall i :: 0 <= i < modelVertices.Length && i < vertices.Length ==>
                vertices[i] == ToScreen(old(modelVertices[i]), world, view, projection, width, height)
      ensures forall i :: modelVertices.Length <= i < vertices.Length ==> vertices[i] == old(vertices[i])
      ensures modelVertices != vertices ==> modelVertices[..] == old(modelVertices[..])
    {
      for i := 0 to modelVertices.Length
        invariant i <= vertices.Length
        invariant forall k :: 0 <= k < i ==>
                    vertices[k] == ToScreen(old(modelVertices[k]), world, view, projection, width, height)
        invariant forall k :: i <= k < vertices.Length ==> vertices[k] == old(vertices[k])
        invariant forall k :: i <= k < modelVertices.Length ==> modelVertices[k] == old(modelVertices[k])
        invariant modelVertices != vertices ==> modelVertices[..] == old(modelVertices[..])
      {
        if i == vertices.Length {
          return false;
        }
        var v := Geometry.Transform(modelVertices[i], world);
        v := ProjectToScreen(v, view, projection, width, height);
        vertices[i] := v;
      }
      ok := true;
    }

    /**
     * The scaled `ApplyTransformations`: as above with the uniform scale
     * first, and `worldVertices` rebuilt with one copy per vertex of its
     * position after scale and world, taken before view and projection.
     */
    method ApplyScaledTransformations(modelVertices: array<Vec4>, vertices: array<Vec4>, scale: real,
                                      world: Matrix, view: Matrix, projection: Matrix,
                                      width: int, height: int) returns (ok: bool)
      modifies this, vertices
      ensures ok == (modelVertices.Length <= vertices.Length)
      ensures |worldVertices| == if ok then modelVertices.Length else vertices.Length
      ensures forall i :: 0 <= i < |worldVertices| ==>
                worldVertices[i] == WorldStage(old(modelVertices[i]), scale, world)
                && vertices[i] == FromWorld(worldVertices[i], view, projection, width, height)
      ensures forall i :: modelVertices.Length <= i < vertices.Length ==> vertices[i] == old(vertices[i])
      ensures modelVertices != vertices ==> modelVertices[..] == old(modelVertices[..])
    {
      worldVertices := [];
      var scaleMatrix := Scale(scale);
      for i := 0 to modelVertices.Length
        invariant i <= vertices.Length && |worldVertices| == i
        invariant forall k :: 0 <= k < i ==> worldVertices[k] == WorldStage(old(modelVertices[k]), scale, world)
        invariant forall k :: 0 <= k < i ==> vertices[k] == FromWorld(worldVertices[k], view, projection, width, height)
        invariant forall k :: i <= k < vertices.Length ==> vertices[k] == old(vertices[k])
        invariant forall k :: i <= k < modelVertices.Length ==> modelVertices[k] == old(modelVertices[k])
        invariant modelVertices != vertices ==> modelVertices[..] == old(modelVertices[..])
      {
        if i == vertices.Length {
          return false;
        }
        var v := Geometry.Transform(modelVertices[i], scaleMatrix);
        v := Geometry.Transform(v, world);
        var w := v;
        assert w == WorldStage(old(modelVertices[i]), scale, world);
        worldVertices := worldVertices + [Vec4(v.x, v.y, v.z, v.w)];
        assert worldVertices[i] == w;
        v := ProjectToScreen(v, view, projection, width, height);
        vertices[i] := v;
      }
      ok := true;
    }

    /**
     * The stages both overloads apply to a world-space vertex: view,
     * projection, division by w, then the viewport map of x and y.
     */
    static method ProjectToScreen(v: Vec4, view: Matrix, projection: Matrix, width: int, height: int)
      returns (r: Vec4)
      ensures r == FromWorld(v, view, projection, width, height)
    {
      r := Geometry.Transform(v, view);
      r := Geometry.Transform(r, projection);
      r := PerspectiveDivide(r);
      r := Viewport(r, width, height);
    }

    /** `Transform`: every entry of `vertices` multiplied by the matrix, in place. */
    method Transform(vertices: array<Vec4>, matrix: Matrix)
      modifies vertices
      ensures forall i :: 0 <= i < vertices.Length ==> vertices[i] == Geometry.Transform(old(vertices[i]), matrix)
    {
      for i := 0 to vertices.Length
        invariant forall k :: 0 <= k < i ==> vertices[k] == Geometry.Transform(old(vertices[k]), matrix)
        invariant forall k :: i <= k < vertices.Length ==> vertices[k] == old(vertices[k])
      {
        vertices[i] := Geometry.Transform(vertices[i], matrix);
      }
    }
  }
}
