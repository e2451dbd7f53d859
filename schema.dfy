/** The display-list schema: the closed union of primitive kinds, frames,
    group definitions, the display list itself, the manifest of frame files,
    and the demo display list shipped with the viewer.  Numbers that the
    source keeps as floating point are `real` here; nothing in the model
    computes with them. */
module Schema {
  import opened Wrappers

  /** A position or direction, `[number, number, number]`. */
  datatype Vec3 = Vec3(x: real, y: real, z: real)

  /** An RGB or RGBA colour: exactly three or four numeric channels. */
  datatype Color = Rgb(r: real, g: real, b: real) | Rgba(r: real, g: real, b: real, a: real)

  /** The channels of a colour as the array the source stores. */
  function Channels(c: Color): (cs: seq<real>)
    ensures |cs| == 3 || |cs| == 4
    ensures |cs| == 4 <==> c.Rgba?
    ensures cs[..3] == [c.r, c.g, c.b]
  {
    match c
    case Rgb(r, g, b) => [r, g, b]
    case Rgba(r, g, b, a) => [r, g, b, a]
  }

  /** One drawable shape.  Every kind carries an optional colour and an
      optional group tag; the remaining fields are kind-specific.  The
      optional `width` of `line` and `lineSegments` is named `lineWidth`
      here, because a field name shared by several variants must have one
      type and the `width` of `rect` is required. */
  datatype Primitive =
    | LineSegments(segments: seq<real>, color: Option<Color>, lineWidth: Option<real>, group: Option<string>)
    | PointCloud(points: seq<real>, color: Option<Color>, size: Option<real>, group: Option<string>)
    | Cylinder(start: Vec3, end: Vec3, radius: real, color: Option<Color>, solid: Option<bool>, group: Option<string>)
    | PolygonMesh(vertices: seq<real>, polygons: seq<real>, polygonSizes: seq<real>, color: Option<Color>,
                  vertexColors: Option<seq<real>>, group: Option<string>)
    | Point(position: Vec3, color: Option<Color>, size: Option<real>, group: Option<string>)
    | Line(start: Vec3, end: Vec3, color: Option<Color>, lineWidth: Option<real>, group: Option<string>)
    | Sphere(center: Vec3, radius: real, color: Option<Color>, solid: Option<bool>, group: Option<string>)
    | Cone(tip: Vec3, direction: Vec3, length: real, radius: real, color: Option<Color>, group: Option<string>)
    | Rect(corner: Vec3, width: real, height: real, color: Option<Color>, solid: Option<bool>, group: Option<string>)
    | Text(position: Vec3, text: string, color: Option<Color>, fontFamily: Option<string>,
           fontSize: Option<real>, group: Option<string>)

  /** The `kind` literal that tags each variant. */
  function Kind(p: Primitive): string
  {
    match p
    case LineSegments(_, _, _, _) => "lineSegments"
    case PointCloud(_, _, _, _) => "pointCloud"
    case Cylinder(_, _, _, _, _, _) => "cylinder"
    case PolygonMesh(_, _, _, _, _, _) => "polygonMesh"
    case Point(_, _, _, _) => "point"
    case Line(_, _, _, _, _) => "line"
    case Sphere(_, _, _, _, _) => "sphere"
    case Cone(_, _, _, _, _, _) => "cone"
    case Rect(_, _, _, _, _, _) => "rect"
    case Text(_, _, _, _, _, _) => "text"
  }

  /** The position of a variant in the union, 0 to 9. */
  function VariantIndex(p: Primitive): (i: nat)
    ensures i < 10
  {
    match p
    case LineSegments(_, _, _, _) => 0
    case PointCloud(_, _, _, _) => 1
    case Cylinder(_, _, _, _, _, _) => 2
    case PolygonMesh(_, _, _, _, _, _) => 3
    case Point(_, _, _, _) => 4
    case Line(_, _, _, _, _) => 5
    case Sphere(_, _, _, _, _) => 6
    case Cone(_, _, _, _, _, _) => 7
    case Rect(_, _, _, _, _, _) => 8
    case Text(_, _, _, _, _, _) => 9
  }

  /** The ten `kind` literals are pairwise distinct: the literal alone
      identifies the variant. */
  lemma KindIdentifiesVariant(p: Primitive, q: Primitive)
    ensures Kind(p) == Kind(q) <==> VariantIndex(p) == VariantIndex(q)
  {
  }

  /** One scene of the animation. */
  datatype Frame = Frame(id: int, primitives: seq<Primitive>, annotation: Option<string>)

  /** A toggleable group: internal id and button label (`label` in the source; the word is reserved in Dafny). */
  datatype GroupDef = GroupDef(id: string, caption: string)

  /** The top-level container. */
  datatype DisplayList = DisplayList(groups: Option<seq<GroupDef>>, frames: seq<Frame>)

  /** One entry of an on-disk playlist. */
  datatype ManifestFrameEntry = ManifestFrameEntry(index: real, file: string, timePs: Option<real>)

  /** An on-disk playlist that names the frame files. */
  datatype ManifestFile = ManifestFile(name: Option<string>, description: Option<string>,
                                       groups: Option<seq<GroupDef>>, frames: seq<ManifestFrameEntry>)

  /** The demo display list: three explicit groups and two frames. */
  const Demo: DisplayList := DisplayList(
    Some([GroupDef("points", "Points"), GroupDef("lines", "Lines"), GroupDef("spheres", "Spheres")]),
    [
      Frame(0, [
        Point(Vec3(-1.0, 0.0, 0.0), Some(Rgb(1.0, 0.0, 0.0)), Some(0.1), Some("points")),
        Point(Vec3(1.0, 0.0, 0.0), Some(Rgb(0.0, 1.0, 0.0)), Some(0.1), Some("points")),
        Line(Vec3(-1.0, 0.0, 0.0), Vec3(1.0, 0.0, 0.0), Some(Rgb(0.0, 0.5, 1.0)), Some(1.0), Some("lines")),
        Sphere(Vec3(0.0, 1.0, 0.0), 0.3, Some(Rgb(1.0, 1.0, 0.0)), None, Some("spheres")),
        Point(Vec3(0.0, 0.0, 0.0), Some(Rgb(1.0, 1.0, 1.0)), Some(0.02), Some("points")),
        Cone(Vec3(0.0, 0.0, 0.0), Vec3(0.0, 1.0, 1.0), 2.0, 0.3, Some(Rgb(1.0, 0.0, 0.0)), Some("cones")),
        Text(Vec3(0.0, 0.0, 1.0), "Origin", Some(Rgb(1.0, 1.0, 0.0)), Some("sans-serif"), Some(24.0), Some("labels")),
        Sphere(Vec3(2.0, 0.0, 0.0), 0.5, Some(Rgb(0.0, 0.0, 1.0)), Some(true), Some("spheres")),
        Rect(Vec3(-1.0, -1.0, 0.0), 2.0, 1.0, Some(Rgb(0.5, 0.5, 0.5)), Some(true), Some("rects"))
      ], None),
      Frame(1, [
        Point(Vec3(0.0, 0.0, 0.0), Some(Rgb(1.0, 1.0, 1.0)), Some(0.15), Some("points")),
        Sphere(Vec3(0.0, 0.0, 0.0), 0.8, Some(Rgb(0.0, 0.8, 0.8)), None, Some("spheres"))
      ], None)
    ])

  /** The demo has two frames of nine and two primitives and three explicit
      groups, `points`, `lines` and `spheres`. */
  lemma DemoShape()
    ensures |Demo.frames| == 2
    ensures |Demo.frames[0].primitives| == 9 && |Demo.frames[1].primitives| == 2
    ensures Demo.groups.Some? && [Demo.groups.value[0].id, Demo.groups.value[1].id, Demo.groups.value[2].id]
                                 == ["points", "lines", "spheres"]
    ensures |Demo.groups.value| == 3
  {
  }

  /** The demo's cone, text and rect carry the tags `cones`, `labels` and
      `rects`, none of which is an explicit group id. */
  lemma DemoExtraTags()
    ensures Demo.frames[0].primitives[5].Cone? && Demo.frames[0].primitives[5].group == Some("cones")
    ensures Demo.frames[0].primitives[6].Text? && Demo.frames[0].primitives[6].group == Some("labels")
    ensures Demo.frames[0].primitives[8].Rect? && Demo.frames[0].primitives[8].group == Some("rects")
    ensures forall g :: g in Demo.groups.value ==> g.id !in {"cones", "labels", "rects"}
  {
  }
}
