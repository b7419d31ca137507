// The geometry part of the KML reader: the dispatch on a geometry tag, the
// tokenising of a `<coordinates>` element into points, and the choice of
// the altitude symbol from a geometry's `altitudeMode` (KML 2.2, with the
// `gx:` extension modes).

module KML {
  import opened Wrappers
  import opened Strings

  // ---------------------------------------------------------------------
  // The document

  /** An element of the KML document: its tag, its text value and its child
      nodes. */
  datatype XmlNode = XmlNode(name: string, value: string, children: seq<XmlNode>)

  /** Whether a node has the given lower-case name, compared without regard
      to ASCII case as the reader's case-insensitive lookups compare it. */
  predicate NameIs(n: XmlNode, lowerName: string) {
    ToLower(n.name) == lowerName
  }

  /** `first_node(name, 0, false)`: the first child with the name, ignoring
      case, or None. */
  function FirstChildNamed(children: seq<XmlNode>, lowerName: string): (r: Option<nat>)
    ensures r.Some? ==> r.value < |children| && NameIs(children[r.value], lowerName)
    ensures r.Some? ==> forall j :: 0 <= j < r.value ==> !NameIs(children[j], lowerName)
    ensures r.None? ==> forall j :: 0 <= j < |children| ==> !NameIs(children[j], lowerName)
    decreases |children|
  {
    if |children| == 0 then None
    else if NameIs(children[0], lowerName) then Some(0)
    else match FirstChildNamed(children[1..], lowerName)
      case Some(i) => Some(i + 1)
      case None => None
  }

  /** The text of the first child element with the name, or the empty
      string when there is none. */
  function GetValue(node: XmlNode, lowerName: string): (r: string)
    ensures FirstChildNamed(node.children, lowerName).None? ==> r == ""
  {
    match FirstChildNamed(node.children, lowerName)
    case Some(i) => node.children[i].value
    case None => ""
  }

  // ---------------------------------------------------------------------
  // Geometry

  datatype Point = Point(x: real, y: real, z: real)

  /** The component type of a geometry. */
  datatype GeomKind = PointSet | LineString | Ring | Polygon | MultiGeometry

  /** A geometry: its points, and for a multi-geometry its components. */
  datatype Geom = Geom(kind: GeomKind, points: seq<Point>, parts: seq<Geom>)

  /** The geometry tags `buildChild` knows, lower-cased. */
  predicate KnownTag(tag: string) {
    tag in {"point", "linestring", "linearring", "gx:latlonquad", "polygon", "multigeometry", "model"}
  }

  /** The kind of geometry a lower-cased tag builds: a model is placed at a
      point, and a `gx:LatLonQuad` is read as a linear ring. */
  function TagKind(tag: string): (r: Option<GeomKind>)
    ensures r.Some? <==> KnownTag(tag)
    ensures r == Some(MultiGeometry) <==> tag == "multigeometry"
    ensures r == Some(Polygon) <==> tag == "polygon"
  {
    if tag == "point" || tag == "model" then Some(PointSet)
    else if tag == "linestring" then Some(LineString)
    else if tag == "linearring" || tag == "gx:latlonquad" then Some(Ring)
    else if tag == "polygon" then Some(Polygon)
    else if tag == "multigeometry" then Some(MultiGeometry)
    else None
  }

  // ---------------------------------------------------------------------
  // Coordinates

  /** A coordinate tuple split at its commas, empty parts dropped. */
  function TupleParts(t: string): seq<string> {
    Tokenize(t, {','}, {}, false)
  }

  /** The point a tuple gives, when it has at least two parts: `x` and `y`
      from the first two, `z` from the third when there is one and zero
      otherwise. Numbers are read by `num`. */
  function TuplePoint(t: string, num: string -> real): Option<Point> {
    var parts := TupleParts(t);
    if |parts| >= 2 then Some(Point(num(parts[0]), num(parts[1]), if |parts| >= 3 then num(parts[2]) else 0.0))
    else None
  }

  /** The points of a run of tuples, in order, the short tuples skipped. */
  function TuplesPoints(tuples: seq<string>, num: string -> real): seq<Point>
    decreases |tuples|
  {
    if |tuples| == 0 then []
    else
      var last := match TuplePoint(tuples[|tuples| - 1], num) case Some(p) => [p] case None => [];
      TuplesPoints(tuples[..|tuples| - 1], num) + last
  }

  /** The tuples of a coordinates text: split at spaces and newlines, empty
      tokens dropped. */
  function TextTuples(text: string): seq<string> {
    Tokenize(text, {' ', '\n'}, {}, false)
  }

  /** The points of the text nodes of a `<coordinates>` element, in order. */
  function ChildrenPoints(children: seq<XmlNode>, num: string -> real): seq<Point>
    decreases |children|
  {
    if |children| == 0 then []
    else TuplesPoints(TextTuples(children[0].value), num) + ChildrenPoints(children[1..], num)
  }

  /** The points of an element's `<coordinates>` child, none when it has
      no such child. */
  function CoordinatesPoints(node: XmlNode, num: string -> real): seq<Point> {
    match FirstChildNamed(node.children, "coordinates")
    case Some(i) => ChildrenPoints(node.children[i].children, num)
    case None => []
  }

  /** The element once its coordinates have been read: the `<coordinates>`
      child has lost all its children. */
  function ConsumeCoordinates(node: XmlNode): XmlNode {
    match FirstChildNamed(node.children, "coordinates")
    case Some(i) => node.(children := node.children[i := node.children[i].(children := [])])
    case None => node
  }

  /** Reading the tuples one at a time appends the points of each. */
  lemma {:induction false} TuplesPointsAppend(a: seq<string>, b: seq<string>, num: string -> real)
    ensures TuplesPoints(a + b, num) == TuplesPoints(a, num) + TuplesPoints(b, num)
    decreases |b|
  {
    if |b| == 0 {
      assert a + b == a;
    } else {
      var b' := b[..|b| - 1];
      assert (a + b)[..|a + b| - 1] == a + b';
      assert (a + b)[|a + b| - 1] == b[|b| - 1];
      TuplesPointsAppend(a, b', num);
    }
  }

  /** Each tuple gives at most one point, and the tuples give one point
      each exactly when none of them has fewer than two parts. */
  lemma {:induction false} TuplesPointsCount(tuples: seq<string>, num: string -> real)
    ensures |TuplesPoints(tuples, num)| <= |tuples|
    ensures |TuplesPoints(tuples, num)| == |tuples| <==> forall i :: 0 <= i < |tuples| ==> |TupleParts(tuples[i])| >= 2
    decreases |tuples|
  {
    if |tuples| > 0 {
      var init := tuples[..|tuples| - 1];
      TuplesPointsCount(init, num);
      assert forall i :: 0 <= i < |init| ==> init[i] == tuples[i];
    }
  }

  /** A tuple `x,y` gives the point `(x, y, 0)`. */
  lemma TwoPartTuple(x: string, y: string, num: string -> real)
    requires x != "" && y != "" && Plain(x, {','}, {}) && Plain(y, {','}, {})
    ensures TuplePoint(x + [','] + y, num) == Some(Point(num(x), num(y), 0.0))
  {
    TokenizeTwoWords(x, ',', y, {','}, {}, false);
  }

  /** A lone number is not a tuple: it gives no point. */
  lemma OnePartTuple(x: string, num: string -> real)
    requires x != "" && Plain(x, {','}, {})
    ensures TuplePoint(x, num) == None
  {
    TokenizeOneWord(x, {','}, {}, false);
  }

  /** Two tuples separated by a space or a newline are read in order. */
  lemma TwoTuplesText(a: string, sep: char, b: string, num: string -> real)
    requires sep == ' ' || sep == '\n'
    requires a != "" && b != "" && Plain(a, {' ', '\n'}, {}) && Plain(b, {' ', '\n'}, {})
    ensures TuplesPoints(TextTuples(a + [sep] + b), num) == TuplesPoints([a], num) + TuplesPoints([b], num)
  {
    TokenizeTwoWords(a, sep, b, {' ', '\n'}, {}, false);
    TuplesPointsAppend([a], [b], num);
    assert [a] + [b] == [a, b];
  }

  /** Once consumed, an element has no coordinates left: reading them again
      adds nothing, and nothing else of the element changes. */
  lemma ConsumedHasNoPoints(node: XmlNode, num: string -> real)
    ensures CoordinatesPoints(ConsumeCoordinates(node), num) == []
    ensures ConsumeCoordinates(node).name == node.name && |ConsumeCoordinates(node).children| == |node.children|
    ensures forall j :: 0 <= j < |node.children| && !NameIs(node.children[j], "coordinates") ==> ConsumeCoordinates(node).children[j] == node.children[j]
  {
    match FirstChildNamed(node.children, "coordinates")
    case Some(i) =>
      var c := ConsumeCoordinates(node).children;
      assert forall j :: 0 <= j < |c| ==> c[j].name == node.children[j].name;
      FirstChildSameNames(node.children, c, "coordinates");
    case None =>
  }

  /** The first child of a name depends on the children's names only. */
  lemma {:induction false} FirstChildSameNames(a: seq<XmlNode>, b: seq<XmlNode>, lowerName: string)
    requires |a| == |b|
    requires forall j :: 0 <= j < |a| ==> a[j].name == b[j].name
    ensures FirstChildNamed(a, lowerName) == FirstChildNamed(b, lowerName)
    decreases |a|
  {
    if |a| > 0 {
      FirstChildSameNames(a[1..], b[1..], lowerName);
    }
  }

  // ---------------------------------------------------------------------
  // Elevations

  /** `osg::equivalent` with its default tolerance. */
  const Epsilon: real := 0.000001

  predicate Equivalent(a: real, b: real) {
    var d := b - a;
    if d < 0.0 then d >= -Epsilon else d <= Epsilon
  }

  /** The largest finite double, `DBL_MAX`, exactly. */
  const DblMax: real := 179769313486231570814527423731704356798070567525844996598917476803157260780028538760589558632766878171540458953514382464234321326889464182768467546703537516986049910576551282076245490090389328944075868508455133942304583236903222948165808559332123348274797826204144723168738177180919299881250404026184124858368.0

  /** The z values of a geometry in the order a geometry iterator visits
      them: a multi-geometry's components depth first, holes not visited. */
  function Elevations(g: Geom): seq<real>
    decreases g, 1
  {
    if g.kind == MultiGeometry then PartsElevations(g.parts)
    else seq(|g.points|, i requires 0 <= i < |g.points| => g.points[i].z)
  }

  function PartsElevations(parts: seq<Geom>): seq<real>
    decreases parts, 0
  {
    if |parts| == 0 then [] else Elevations(parts[0]) + PartsElevations(parts[1..])
  }

  /** Every elevation is approximately zero. */
  predicate AllZero(zs: seq<real>) {
    forall i :: 0 <= i < |zs| ==> Equivalent(zs[i], 0.0)
  }

  /** Every elevation after the first is approximately the first. */
  predicate AllSame(zs: seq<real>) {
    forall i :: 0 < i < |zs| ==> Equivalent(zs[0], zs[i])
  }

  /** The loop of `parseStyle` over the geometry's points: whether every z
      is approximately zero, whether every z is approximately the first,
      and the largest z, starting from `-DBL_MAX`. */
  method ScanElevations(zs: seq<real>) returns (zeroElev: bool, sameElev: bool, maxElevation: real)
    ensures zeroElev <==> AllZero(zs)
    ensures sameElev <==> AllSame(zs)
    ensures maxElevation >= -DblMax && forall i :: 0 <= i < |zs| ==> zs[i] <= maxElevation
    ensures maxElevation == -DblMax || exists i :: 0 <= i < |zs| && zs[i] == maxElevation
  {
    zeroElev, sameElev := true, true;
    maxElevation := -DblMax;
    var first := true;
    var e := 0.0;
    var k := 0;
    while k < |zs|
      invariant 0 <= k <= |zs|
      invariant first <==> k == 0
      invariant k > 0 ==> e == zs[0]
      invariant zeroElev <==> AllZero(zs[..k])
      invariant sameElev <==> AllSame(zs[..k])
      invariant maxElevation >= -DblMax && forall i :: 0 <= i < k ==> zs[i] <= maxElevation
      invariant maxElevation == -DblMax || exists i :: 0 <= i < k && zs[i] == maxElevation
    {
      var z := zs[k];
      if !Equivalent(z, 0.0) {
        zeroElev := false;
      }
      if first {
        first := false;
        e := z;
      } else if !Equivalent(e, z) {
        sameElev := false;
      }
      if z > maxElevation {
        maxElevation := z;
      }
      assert zs[..k + 1] == zs[..k] + [z];
      k := k + 1;
    }
    assert zs[..k] == zs;
  }

  // ---------------------------------------------------------------------
  // Style

  datatype Clamping = ClampNone | ClampToTerrain | ClampRelativeToTerrain | ClampAbsolute
  datatype Technique = TechniqueMap | TechniqueDrape | TechniqueScene
  datatype Binding = BindingVertex | BindingCentroid

  /** The altitude symbol's properties this reader sets; an unset optional
      property is None. */
  datatype AltitudeSymbol = AltitudeSymbol(clamping: Clamping, technique: Option<Technique>, binding: Option<Binding>)

  /** The extrusion symbol's `flatten` property. */
  datatype ExtrusionSymbol = ExtrusionSymbol(flatten: Option<bool>)

  /** The symbols of a style this reader reads or changes: the altitude
      and extrusion symbols when present, and whether a polygon symbol is
      present. */
  datatype Style = Style(altitude: Option<AltitudeSymbol>, extrusion: Option<ExtrusionSymbol>, hasPolygon: bool)

  /** What a newly created altitude symbol holds. */
  const NewAltitude := AltitudeSymbol(ClampNone, None, None)

  /** The altitude mode an element asks for: clamp to ground when it gives
      none. */
  function AltitudeMode(text: string): (r: string)
    ensures text != "" ==> r == text
    ensures text == "" ==> r == "clampToGround" && ClampMode(r)
    ensures r != ""
  {
    if text == "" then "clampToGround" else text
  }

  predicate ClampMode(am: string) {
    am == "clampToGround" || am == "clampToSeaFloor"
  }

  predicate RelativeMode(am: string) {
    am == "relativeToGround" || am == "relativeToSeaFloor"
  }

  /** The decision of an altitude mode: the altitude symbol and whether the
      geometry is still extruded. */
  datatype Decision = Decision(alt: AltitudeSymbol, extrude: bool)

  /** The altitude table of `parseStyle`, applied to `alt` once its
      clamping is set to terrain. Lines and points get the same technique. */
  function AltitudeTable(am: string, extrude: bool, isPoly: bool, zeroElev: bool, sameElev: bool, alt: AltitudeSymbol): Decision {
    if ClampMode(am) then
      Decision(alt.(technique := Some(if extrude then TechniqueMap else if isPoly then TechniqueDrape else TechniqueScene)), false)
    else if RelativeMode(am) then
      var a := alt.(clamping := ClampRelativeToTerrain);
      if !isPoly then Decision(a, extrude)
      else
        var b := if sameElev then a.(binding := Some(BindingCentroid)) else a;
        if extrude then Decision(b.(technique := Some(TechniqueMap)), extrude)
        else if zeroElev then Decision(b.(clamping := ClampToTerrain, technique := Some(TechniqueDrape)), extrude)
        else Decision(b.(technique := Some(TechniqueScene)), extrude)
    else if am == "absolute" then
      Decision(alt.(clamping := ClampAbsolute), extrude)
    else
      Decision(alt, extrude)
  }

  /** Clamping to the ground or the sea floor keeps the clamping on the
      terrain, picks the technique from extrusion and polygon-ness, and
      turns extrusion off. */
  lemma ClampRow(am: string, extrude: bool, isPoly: bool, zeroElev: bool, sameElev: bool, alt: AltitudeSymbol)
    requires ClampMode(am) && alt.clamping == ClampToTerrain
    ensures var d := AltitudeTable(am, extrude, isPoly, zeroElev, sameElev, alt);
      && !d.extrude && d.alt.clamping == ClampToTerrain && d.alt.binding == alt.binding
      && (d.alt.technique == Some(TechniqueMap) <==> extrude)
      && (d.alt.technique == Some(TechniqueDrape) <==> !extrude && isPoly)
      && (d.alt.technique == Some(TechniqueScene) <==> !extrude && !isPoly)
  {
  }

  /** Relative modes clamp relative to the terrain; a polygon is bound at
      its centroid when its elevations agree, is mapped when extruded, and
      otherwise is drawn in the scene, or draped on the terrain when its
      elevations are all zero. Other geometries keep their technique. */
  lemma RelativeRow(am: string, extrude: bool, isPoly: bool, zeroElev: bool, sameElev: bool, alt: AltitudeSymbol)
    requires RelativeMode(am)
    ensures var d := AltitudeTable(am, extrude, isPoly, zeroElev, sameElev, alt);
      && d.extrude == extrude
      && (d.alt.clamping == ClampToTerrain <==> isPoly && !extrude && zeroElev)
      && (d.alt.clamping != ClampToTerrain ==> d.alt.clamping == ClampRelativeToTerrain)
      && (!isPoly ==> d.alt.technique == alt.technique && d.alt.binding == alt.binding)
      && (isPoly ==> d.alt.binding == (if sameElev then Some(BindingCentroid) else alt.binding))
      && (isPoly ==> d.alt.technique == Some(if extrude then TechniqueMap else if zeroElev then TechniqueDrape else TechniqueScene))
  {
  }

  /** `absolute` takes the z values as they are and changes nothing else;
      an unknown mode leaves the symbol as it was. */
  lemma OtherRows(am: string, extrude: bool, isPoly: bool, zeroElev: bool, sameElev: bool, alt: AltitudeSymbol)
    requires !ClampMode(am) && !RelativeMode(am)
    ensures var d := AltitudeTable(am, extrude, isPoly, zeroElev, sameElev, alt);
      && d.extrude == extrude && d.alt.technique == alt.technique && d.alt.binding == alt.binding
      && d.alt.clamping == (if am == "absolute" then ClampAbsolute else alt.clamping)
  {
  }

  /** Extrusion survives the table exactly when it was asked for and the
      mode does not clamp to the ground. */
  lemma ExtrusionSurvives(am: string, extrude: bool, isPoly: bool, zeroElev: bool, sameElev: bool, alt: AltitudeSymbol)
    ensures AltitudeTable(am, extrude, isPoly, zeroElev, sameElev, alt).extrude <==> extrude && !ClampMode(am)
  {
  }

  /** The table only drapes polygons that end up clamped to the terrain
      and not extruded. */
  lemma DrapeOnlyOnTerrain(am: string, extrude: bool, isPoly: bool, zeroElev: bool, sameElev: bool, alt: AltitudeSymbol)
    requires alt.clamping == ClampToTerrain && alt.technique != Some(TechniqueDrape)
    ensures var d := AltitudeTable(am, extrude, isPoly, zeroElev, sameElev, alt);
      d.alt.technique == Some(TechniqueDrape) ==> isPoly && !d.extrude && d.alt.clamping == ClampToTerrain
  {
  }

  /** What `parseStyle` leaves: the style, and the element's `extrude` and
      `tessellate` flags after the table. */
  datatype Parsed = Parsed(style: Style, extrude: bool, tessellate: bool)

  /** `parseStyle` on an element whose geometry is `g`. */
  function ParsedStyle(node: XmlNode, g: Option<Geom>, style: Style): Parsed {
    var extrude := GetValue(node, "extrude") == "1";
    var tessellate := GetValue(node, "tessellate") == "1";
    var am := AltitudeMode(GetValue(node, "altitudemode"));
    var isPoly := g.Some? && g.value.kind == Polygon;
    var alt := (if style.altitude.Some? then style.altitude.value else NewAltitude).(clamping := ClampToTerrain);
    var zs := if g.Some? then Elevations(g.value) else [];
    var d := AltitudeTable(am, extrude, isPoly, AllZero(zs), AllSame(zs), alt);
    var s := style.(altitude := Some(d.alt));
    if d.extrude then
      var es := if s.extrusion.Some? then s.extrusion.value else ExtrusionSymbol(None);
      Parsed(s.(extrusion := Some(es.(flatten := Some(false)))), true, tessellate)
    else if !isPoly then
      Parsed(s.(hasPolygon := false), false, tessellate)
    else
      Parsed(s, false, tessellate)
  }

  /** After `parseStyle` the style always has an altitude symbol; an
      extruded geometry's extrusion symbol does not flatten; an unextruded
      geometry other than a polygon loses its polygon symbol, and nothing
      else of the style changes. */
  lemma ParsedStyleSymbols(node: XmlNode, g: Option<Geom>, style: Style)
    ensures var p := ParsedStyle(node, g, style);
      var isPoly := g.Some? && g.value.kind == Polygon;
      && p.style.altitude.Some?
      && (p.extrude ==> p.style.extrusion.Some? && p.style.extrusion.value.flatten == Some(false) && p.style.hasPolygon == style.hasPolygon)
      && (!p.extrude ==> p.style.extrusion == style.extrusion)
      && (!p.extrude && !isPoly ==> !p.style.hasPolygon)
      && (!p.extrude && isPoly ==> p.style.hasPolygon == style.hasPolygon)
  {
  }

  /** An element with no `altitudeMode` is clamped to the terrain and is
      never extruded. It is mapped when it asked for extrusion, draped when
      it is a polygon, and drawn in the scene otherwise; the altitude
      symbol's binding is the one the style already had. */
  lemma DefaultModeClamps(node: XmlNode, g: Option<Geom>, style: Style)
    requires GetValue(node, "altitudemode") == ""
    ensures var p := ParsedStyle(node, g, style);
      !p.extrude && p.style.altitude.Some? && p.style.altitude.value.clamping == ClampToTerrain
    ensures var p := ParsedStyle(node, g, style);
      var isPoly := g.Some? && g.value.kind == Polygon;
      && p.style.altitude.Some?
      && p.style.altitude.value.technique ==
        Some(if GetValue(node, "extrude") == "1" then TechniqueMap else if isPoly then TechniqueDrape else TechniqueScene)
      && p.style.altitude.value.binding == (if style.altitude.Some? then style.altitude.value.binding else None)
  {
    var alt := (if style.altitude.Some? then style.altitude.value else NewAltitude).(clamping := ClampToTerrain);
    var zs := if g.Some? then Elevations(g.value) else [];
    ClampRow("clampToGround", GetValue(node, "extrude") == "1", g.Some? && g.value.kind == Polygon, AllZero(zs), AllSame(zs), alt);
  }

  // ---------------------------------------------------------------------
  // Building

  /** The geometry `buildChild` builds for an element: None for a tag it
      does not know, the valid components for a multi-geometry, and
      otherwise a geometry of the tag's kind holding the element's
      coordinates. */
  function Built(node: XmlNode, num: string -> real): Option<Geom>
    decreases node, 1
  {
    match TagKind(ToLower(node.name))
    case None => None
    case Some(k) =>
      if k == MultiGeometry then Some(Geom(MultiGeometry, [], BuiltParts(node.children, num)))
      else Some(Geom(k, CoordinatesPoints(node, num), []))
  }

  /** The sub-geometries of a multi-geometry: those of its children that
      build one, in order. */
  function BuiltParts(children: seq<XmlNode>, num: string -> real): seq<Geom>
    decreases children, 0
  {
    if |children| == 0 then []
    else
      var last := children[|children| - 1];
      BuiltParts(children[..|children| - 1], num) + match Built(last, num) case Some(g) => [g] case None => []
  }

  /** The style after `buildChild` of an element: each element other than a
      multi-geometry runs `parseStyle` once its coordinates are read, and a
      multi-geometry passes the one style to each child in turn. */
  function BuiltStyle(node: XmlNode, num: string -> real, style: Style): Style
    decreases node, 1
  {
    match TagKind(ToLower(node.name))
    case None => style
    case Some(k) =>
      if k == MultiGeometry then PartsStyle(node.children, num, style)
      else ParsedStyle(ConsumeCoordinates(node), Some(Geom(k, CoordinatesPoints(node, num), [])), style).style
  }

  function PartsStyle(children: seq<XmlNode>, num: string -> real, style: Style): Style
    decreases children, 0
  {
    if |children| == 0 then style
    else BuiltStyle(children[|children| - 1], num, PartsStyle(children[..|children| - 1], num, style))
  }

  /** The geometry left after `build` runs `buildChild` on each child of an
      element in turn, starting from `g`. */
  function LastBuilt(children: seq<XmlNode>, num: string -> real, g: Option<Geom>): Option<Geom>
    decreases |children|
  {
    if |children| == 0 then g
    else
      var before := LastBuilt(children[..|children| - 1], num, g);
      var b := Built(children[|children| - 1], num);
      if b.Some? then b else before
  }

  /** A tag builds a geometry exactly when it is one of the known geometry
      tags, whatever its case; a multi-geometry is built from its children
      and has no points of its own. */
  lemma BuiltIffKnown(node: XmlNode, num: string -> real)
    ensures Built(node, num).Some? <==> KnownTag(ToLower(node.name))
    ensures Built(node, num).Some? ==> (Built(node, num).value.kind == MultiGeometry <==> ToLower(node.name) == "multigeometry")
    ensures Built(node, num).Some? && Built(node, num).value.kind != MultiGeometry ==> Built(node, num).value.points == CoordinatesPoints(node, num)
  {
  }

  /** Some child of `children` builds `g`. */
  ghost predicate BuiltByChild(children: seq<XmlNode>, num: string -> real, g: Geom) {
    exists j :: 0 <= j < |children| && Built(children[j], num) == Some(g)
  }

  /** Every child of `children` builds a geometry. */
  ghost predicate AllBuild(children: seq<XmlNode>, num: string -> real) {
    forall j :: 0 <= j < |children| ==> Built(children[j], num).Some?
  }

  /** The last child adds one component exactly when it builds one. */
  lemma BuiltPartsLastLength(children: seq<XmlNode>, num: string -> real)
    requires |children| > 0
    ensures var n := |children| - 1;
      |BuiltParts(children, num)| == |BuiltParts(children[..n], num)| + (if Built(children[n], num).Some? then 1 else 0)
  {
  }

  /** Every child builds exactly when every child but the last does and
      the last does. */
  lemma AllBuildLast(children: seq<XmlNode>, num: string -> real)
    requires |children| > 0
    ensures var n := |children| - 1;
      AllBuild(children, num) <==> AllBuild(children[..n], num) && Built(children[n], num).Some?
  {
    var n := |children| - 1;
    assert forall j :: 0 <= j < n ==> children[..n][j] == children[j];
  }

  /** The count half of `BuiltPartsValid`. */
  lemma {:induction false} BuiltPartsCount(children: seq<XmlNode>, num: string -> real)
    ensures |BuiltParts(children, num)| <= |children|
    ensures |BuiltParts(children, num)| == |children| <==> AllBuild(children, num)
    decreases |children|
  {
    if |children| > 0 {
      BuiltPartsCount(children[..|children| - 1], num);
      BuiltPartsLastLength(children, num);
      AllBuildLast(children, num);
    }
  }

  /** The origin half of `BuiltPartsValid`. */
  lemma {:induction false} BuiltPartsFromChildren(children: seq<XmlNode>, num: string -> real)
    ensures forall k :: 0 <= k < |BuiltParts(children, num)| ==> BuiltByChild(children, num, BuiltParts(children, num)[k])
    decreases |children|
  {
    if |children| > 0 {
      var n := |children| - 1;
      var init := children[..n];
      BuiltPartsFromChildren(init, num);
      var before := BuiltParts(init, num);
      var parts := BuiltParts(children, num);
      assert parts == before + match Built(children[n], num) case Some(g) => [g] case None => [];
      forall k | 0 <= k < |parts|
        ensures BuiltByChild(children, num, parts[k])
      {
        if k < |before| {
          assert parts[k] == before[k];
          assert BuiltByChild(init, num, before[k]);
          var j :| 0 <= j < |init| && Built(init[j], num) == Some(before[k]);
          assert init[j] == children[j];
        } else {
          assert Built(children[n], num) == Some(parts[k]);
        }
      }
    }
  }

  /** A multi-geometry keeps only the children that build a geometry: it
      has no more components than children, each component is what one
      child builds, and it has as many as children exactly when every
      child's tag is known. */
  lemma BuiltPartsValid(children: seq<XmlNode>, num: string -> real)
    ensures |BuiltParts(children, num)| <= |children|
    ensures forall k :: 0 <= k < |BuiltParts(children, num)| ==>
      exists j :: 0 <= j < |children| && Built(children[j], num) == Some(BuiltParts(children, num)[k])
    ensures |BuiltParts(children, num)| == |children| <==> forall j :: 0 <= j < |children| ==> KnownTag(ToLower(children[j].name))
  {
    BuiltPartsCount(children, num);
    BuiltPartsFromChildren(children, num);
    forall j | 0 <= j < |children|
      ensures Built(children[j], num).Some? <==> KnownTag(ToLower(children[j].name))
    {
      BuiltIffKnown(children[j], num);
    }
  }

  /** No child from position `j` on has a known tag. */
  ghost predicate NoneBuiltFrom(children: seq<XmlNode>, num: string -> real, j: nat) {
    forall l :: j <= l < |children| ==> Built(children[l], num).None?
  }

  /** When no child has a known tag, `build` leaves the geometry as it was. */
  lemma {:induction false} NothingBuilt(children: seq<XmlNode>, num: string -> real, g: Option<Geom>)
    requires NoneBuiltFrom(children, num, 0)
    ensures LastBuilt(children, num, g) == g
    decreases |children|
  {
    if |children| > 0 {
      var n := |children| - 1;
      var init := children[..n];
      assert Built(children[n], num).None?;
      assert forall l :: 0 <= l < n ==> init[l] == children[l];
      NothingBuilt(init, num, g);
    }
  }

  /** When child `j` is the last with a known tag, `build` leaves its
      geometry. */
  lemma {:induction false} LastKnownBuilt(children: seq<XmlNode>, num: string -> real, g: Option<Geom>, j: nat)
    requires j < |children| && Built(children[j], num).Some? && NoneBuiltFrom(children, num, j + 1)
    ensures LastBuilt(children, num, g) == Built(children[j], num)
    decreases |children|
  {
    var n := |children| - 1;
    if j < n {
      var init := children[..n];
      assert Built(children[n], num).None?;
      assert forall l :: 0 <= l < n ==> init[l] == children[l];
      assert NoneBuiltFrom(init, num, j + 1);
      LastKnownBuilt(init, num, g, j);
    }
  }

  /** After `build`, the geometry is that of the last child whose tag is
      known, and is unchanged when no child has a known tag. */
  lemma LastBuiltIsLastKnown(children: seq<XmlNode>, num: string -> real, g: Option<Geom>)
    ensures NoneBuiltFrom(children, num, 0) ==> LastBuilt(children, num, g) == g
    ensures forall j :: 0 <= j < |children| && Built(children[j], num).Some? && NoneBuiltFrom(children, num, j + 1) ==>
      LastBuilt(children, num, g) == Built(children[j], num)
  {
    if NoneBuiltFrom(children, num, 0) {
      NothingBuilt(children, num, g);
    }
    forall j | 0 <= j < |children| && Built(children[j], num).Some? && NoneBuiltFrom(children, num, j + 1)
      ensures LastBuilt(children, num, g) == Built(children[j], num)
    {
      LastKnownBuilt(children, num, g, j);
    }
  }

  // ---------------------------------------------------------------------
  // The reader object

  /** A `KML_Geometry`: the geometry it has built, and the `extrude` and
      `tessellate` flags `parseStyle` reads. */
  class KMLGeometry {
    var geom: Option<Geom>
    var extrude: bool
    var tessellate: bool

    constructor()
      ensures geom == None && !extrude && !tessellate
    {
      geom := None;
      extrude := false;
      tessellate := false;
    }

    /** What each geometry element's own reader does before reading the
        coordinates: start an empty geometry of its kind. */
    method StartGeometry(kind: GeomKind)
      modifies this
      ensures geom == Some(Geom(kind, [], []))
      ensures extrude == old(extrude) && tessellate == old(tessellate)
    {
      geom := Some(Geom(kind, [], []));
    }

    /** `parseCoords`: every text node of the element's `<coordinates>`
        child is split into tuples, each tuple with two parts or more adds
        a point, and the text node is removed, until none is left. */
    method ParseCoords(node: XmlNode, num: string -> real) returns (consumed: XmlNode)
      requires geom.Some?
      modifies this
      ensures geom == Some(old(geom.value).(points := old(geom.value.points) + CoordinatesPoints(node, num)))
      ensures extrude == old(extrude) && tessellate == old(tessellate)
      ensures consumed == ConsumeCoordinates(node)
    {
      match FirstChildNamed(node.children, "coordinates")
      case None =>
        assert geom.value.points + CoordinatesPoints(node, num) == geom.value.points;
        consumed := node;
      case Some(i) =>
        var g := geom.value;
        var pts, coords := ConsumeChildren(g.points, node.children[i], num);
        geom := Some(g.(points := pts));
        consumed := node.(children := node.children[i := coords]);
    }

    /** `parseStyle`: the flags, then the altitude symbol from the altitude
        mode and the geometry's elevations, then the extrusion and polygon
        symbols. */
    method ParseStyle(node: XmlNode, style: Style) returns (style': Style)
      modifies this
      ensures geom == old(geom)
      ensures Parsed(style', extrude, tessellate) == ParsedStyle(node, geom, style)
    {
      extrude := GetValue(node, "extrude") == "1";
      tessellate := GetValue(node, "tessellate") == "1";
      var am := AltitudeMode(GetValue(node, "altitudemode"));
      var isPoly := geom.Some? && geom.value.kind == Polygon;
      var alt := (if style.altitude.Some? then style.altitude.value else NewAltitude).(clamping := ClampToTerrain);
      var zs := if geom.Some? then Elevations(geom.value) else [];
      var zeroElev, sameElev, maxElevation := ScanElevations(zs);
      var d := AltitudeTable(am, extrude, isPoly, zeroElev, sameElev, alt);
      extrude := d.extrude;
      style' := style.(altitude := Some(d.alt));
      if extrude {
        var es := if style'.extrusion.Some? then style'.extrusion.value else ExtrusionSymbol(None);
        style' := style'.(extrusion := Some(es.(flatten := Some(false))));
      } else if !isPoly {
        style' := style'.(hasPolygon := false);
      }
    }

    /** `buildChild`: dispatch on the lower-cased tag. A known geometry tag
        reads its coordinates and style into a new reader and takes its
        geometry; a multi-geometry builds each child with the same style
        and keeps the valid ones; any other tag changes nothing. */
    method BuildChild(node: XmlNode, num: string -> real, style: Style) returns (style': Style)
      modifies this
      ensures geom == (if Built(node, num).Some? then Built(node, num) else old(geom))
      ensures style' == BuiltStyle(node, num, style)
      ensures extrude == old(extrude) && tessellate == old(tessellate)
      decreases node, 2
    {
      match TagKind(ToLower(node.name))
      case None =>
        style' := style;
      case Some(k) =>
        var r;
        if k == MultiGeometry {
          r := BuildMulti(node, num, style);
        } else {
          r := BuildSingle(node, k, num, style);
        }
        geom := Some(r.0);
        style' := r.1;
    }

    /** A known tag other than a multi-geometry: a new reader starts an
        empty geometry of the tag's kind, reads the coordinates, hands its
        geometry over, and reads the style from the consumed element. */
    static method BuildSingle(node: XmlNode, k: GeomKind, num: string -> real, style: Style) returns (r: (Geom, Style))
      requires TagKind(ToLower(node.name)) == Some(k) && k != MultiGeometry
      ensures Some(r.0) == Built(node, num) && r.1 == BuiltStyle(node, num, style)
    {
      var g := new KMLGeometry();
      g.StartGeometry(k);
      var consumed := g.ParseCoords(node, num);
      var built := g.geom.value;
      assert built == Geom(k, CoordinatesPoints(node, num), []);
      var s := g.ParseStyle(consumed, style);
      r := (built, s);
    }

    /** A multi-geometry: a new reader starts an empty multi-geometry, and
        its components are built from the children. */
    static method BuildMulti(node: XmlNode, num: string -> real, style: Style) returns (r: (Geom, Style))
      requires TagKind(ToLower(node.name)) == Some(MultiGeometry)
      ensures Some(r.0) == Built(node, num) && r.1 == BuiltStyle(node, num, style)
      decreases node, 1
    {
      var g := new KMLGeometry();
      g.StartGeometry(MultiGeometry);
      var parts := BuildParts(node, num, style);
      r := (Geom(MultiGeometry, [], parts.0), parts.1);
    }

    /** The loop of a multi-geometry over its children: a new reader per
        child, kept when it built a geometry. */
    static method BuildParts(node: XmlNode, num: string -> real, style: Style) returns (r: (seq<Geom>, Style))
      ensures r == (BuiltParts(node.children, num), PartsStyle(node.children, num, style))
      decreases node, 0
    {
      var parts: seq<Geom> := [];
      var s := style;
      var i := 0;
      while i < |node.children|
        invariant 0 <= i <= |node.children|
        invariant parts == BuiltParts(node.children[..i], num)
        invariant s == PartsStyle(node.children[..i], num, style)
      {
        var child := node.children[i];
        var sub := new KMLGeometry();
        s := sub.BuildChild(child, num, s);
        assert node.children[..i + 1][..i] == node.children[..i];
        if sub.geom.Some? {
          parts := parts + [sub.geom.value];
        }
        i := i + 1;
      }
      assert node.children[..i] == node.children;
      r := (parts, s);
    }

    /** `build`: `buildChild` on each child of the element in turn, with
        the one style. */
    method Build(parent: XmlNode, num: string -> real, style: Style) returns (style': Style)
      modifies this
      ensures geom == LastBuilt(parent.children, num, old(geom))
      ensures style' == PartsStyle(parent.children, num, style)
      ensures extrude == old(extrude) && tessellate == old(tessellate)
    {
      style' := style;
      var i := 0;
      while i < |parent.children|
        invariant 0 <= i <= |parent.children|
        invariant geom == LastBuilt(parent.children[..i], num, old(geom))
        invariant style' == PartsStyle(parent.children[..i], num, style)
        invariant extrude == old(extrude) && tessellate == old(tessellate)
      {
        style' := BuildChild(parent.children[i], num, style');
        assert parent.children[..i + 1][..i] == parent.children[..i];
        i := i + 1;
      }
      assert parent.children[..i] == parent.children;
    }
  }

  /** The tuples of one text node, appended point by point. */
  /** The loop of `parseCoords` over the text children of a `<coordinates>`
      element: each child's points are appended and the child removed. */
  method ConsumeChildren(pts: seq<Point>, coords: XmlNode, num: string -> real) returns (r: seq<Point>, rest: XmlNode)
    ensures r == pts + ChildrenPoints(coords.children, num)
    ensures rest == coords.(children := [])
  {
    r, rest := pts, coords;
    while |rest.children| > 0
      invariant rest == coords.(children := rest.children)
      invariant r + ChildrenPoints(rest.children, num) == pts + ChildrenPoints(coords.children, num)
      decreases |rest.children|
    {
      var tuples := TextTuples(rest.children[0].value);
      assert ChildrenPoints(rest.children, num) == TuplesPoints(tuples, num) + ChildrenPoints(rest.children[1..], num);
      r := AppendTuples(r, tuples, num);
      rest := rest.(children := rest.children[1..]);
    }
    assert r + [] == r;
  }

  method AppendTuples(pts: seq<Point>, tuples: seq<string>, num: string -> real) returns (r: seq<Point>)
    ensures r == pts + TuplesPoints(tuples, num)
  {
    r := pts;
    var j := 0;
    while j < |tuples|
      invariant 0 <= j <= |tuples|
      invariant r == pts + TuplesPoints(tuples[..j], num)
    {
      var parts := TupleParts(tuples[j]);
      if |parts| >= 2 {
        var z := if |parts| >= 3 then num(parts[2]) else 0.0;
        r := r + [Point(num(parts[0]), num(parts[1]), z)];
      }
      assert tuples[..j + 1][..j] == tuples[..j];
      j := j + 1;
    }
    assert tuples[..j] == tuples;
  }
}
