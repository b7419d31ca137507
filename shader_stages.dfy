/** The text `ShaderFactory::createMains` writes for each stage, as
    functions of the header, the extensions, the parsed varyings and the
    registered functions.  The methods of `ShaderFactory` are proved to
    write exactly this; the lemmas below state what the text does. */
module ShaderStages {
  import opened Strings
  import opened ShaderText
  import opened ShaderTopology
  import OrderedSets

  // ---------------------------------------------------------------------
  // Header

  /** The platform facts `getGLSLHeader` consults: the GLSL version, whether
      the build targets GLES, whether NV GL is in use, and whether 64-bit
      integers are supported. */
  datatype Capabilities = Capabilities(glslVersion: int, gles: bool, useNVGL: bool, supportsInt64: bool)

  const PrecisionLine := "\nprecision highp float"
  const GpuShader5Line := "\n#extension GL_NV_gpu_shader5 : enable"
  const Int64Line := "\n#extension GL_ARB_gpu_shader_int64 : enable"

  /** What follows `#version N` in the header. */
  function HeaderTail(c: Capabilities): string {
    if c.gles then PrecisionLine
    else if c.useNVGL then GpuShader5Line
    else if c.glslVersion >= 130 && c.supportsInt64 then Int64Line
    else ""
  }

  /** The header every generated shader starts with. */
  function GLSLHeader(c: Capabilities): string {
    "#version " + IntToString(c.glslVersion) + HeaderTail(c)
  }

  /** The header is `#version N` and then at most one more line: the
      precision line exactly on GLES, the NV extension exactly when NV GL is
      used off GLES, and the int64 extension exactly for version 130 or
      later with int64 support when neither of those applies. */
  lemma HeaderLines(c: Capabilities)
    ensures GLSLHeader(c)[..9 + |IntToString(c.glslVersion)|] == "#version " + IntToString(c.glslVersion)
    ensures var tail := GLSLHeader(c)[9 + |IntToString(c.glslVersion)|..];
      (tail == PrecisionLine <==> c.gles) &&
      (tail == GpuShader5Line <==> !c.gles && c.useNVGL) &&
      (tail == Int64Line <==> !c.gles && !c.useNVGL && c.glslVersion >= 130 && c.supportsInt64) &&
      (tail == "" <==> !c.gles && !c.useNVGL && !(c.glslVersion >= 130 && c.supportsInt64))
  {
    var v := "#version " + IntToString(c.glslVersion);
    assert GLSLHeader(c) == v + HeaderTail(c);
    assert GLSLHeader(c)[|v|..] == HeaderTail(c);
    assert PrecisionLine[1] != GpuShader5Line[1] && PrecisionLine[1] != Int64Line[1];
    assert GpuShader5Line[15] != Int64Line[15];
  }

  // ---------------------------------------------------------------------
  // Pieces shared by several stages

  const MainSig := Begin("void", "main", "void")
  const ToView := Assign("vp_VertexView", "vp_Vertex.xyz")
  const ToClip := Assign("vp_Vertex", "gl_ProjectionMatrix * vp_Vertex")

  /** The model-to-view entry can be dereferenced: when present it is not
      empty. */
  predicate ModelToViewReady(fm: FunctionLocationMap) {
    VertexTransformModelToView in fm ==> |fm[VertexTransformModelToView]| > 0
  }

  lemma ReadyWhenUsed(fm: FunctionLocationMap)
    requires WellFormed(fm) && UsesModelToView(fm)
    ensures ModelToViewReady(fm)
  {
  }

  /** The first model-to-view function, if there is one. */
  function FirstModelToView(fm: FunctionLocationMap): seq<string>
    requires ModelToViewReady(fm)
  {
    if VertexTransformModelToView in fm then [fm[VertexTransformModelToView][0]] else []
  }

  /** Model to view space: a call to the first model-to-view function, or
      the fixed-function transform of the vertex and the normal. */
  function ModelToView(fm: FunctionLocationMap): seq<Line>
    requires ModelToViewReady(fm)
  {
    if VertexTransformModelToView in fm then Calls(FirstModelToView(fm), "")
    else [Assign("vp_Vertex", "gl_ModelViewMatrix * vp_Vertex"),
          Assign("vp_Normal", "normalize(gl_NormalMatrix * vp_Normal)")]
  }

  /** `void VP_LoadVertex(in int index)`: copies vertex `index` of the input
      block into the stage globals. */
  function LoadVertex(vars: seq<Variable>): seq<Line> {
    [Begin("void", "VP_LoadVertex", "in int index")] + Copies(vars, "", "vp_in[index].") + [End]
  }

  lemma ModelToViewCalls(fm: FunctionLocationMap)
    requires ModelToViewReady(fm)
    ensures CallNames(ModelToView(fm)) == FirstModelToView(fm)
  {
    if VertexTransformModelToView in fm {
      CallNamesCalls(FirstModelToView(fm), "");
    } else {
      CallNamesNone(ModelToView(fm));
    }
  }

  /** Projection to clip space, from view space or from model space. */
  function Project(fm: FunctionLocationMap, fromView: bool): seq<Line>
    requires ModelToViewReady(fm)
  {
    if fromView then [ToClip] else ModelToView(fm) + [ToView, ToClip]
  }

  lemma ProjectCalls(fm: FunctionLocationMap, fromView: bool)
    requires ModelToViewReady(fm)
    ensures CallNames(Project(fm, fromView)) == if fromView then [] else FirstModelToView(fm)
  {
    if !fromView {
      ModelToViewCalls(fm);
      CallNamesAppend(ModelToView(fm), [ToView, ToClip]);
      assert CallNames([ToView, ToClip]) == [];
    }
  }

  /** The view and clip functions of the tessellation-evaluation and
      geometry stages and the final transform (`space` tracking of
      `VP_EmitVertex` and `VP_EmitModelVertex`): the vertex starts in model
      space; `viewOn` moves it to view space and runs the view functions;
      `clipOn` moves it on to clip space and runs the clip functions;
      `resolve` finally brings a vertex not yet in clip space there. */
  function Routing(fm: FunctionLocationMap, viewOn: bool, clipOn: bool, resolve: bool): seq<Line>
    requires ModelToViewReady(fm)
  {
    RouteView(fm, viewOn) + RouteClip(fm, viewOn, clipOn) + (if resolve && !clipOn then Project(fm, viewOn) else [])
  }

  function RouteView(fm: FunctionLocationMap, viewOn: bool): seq<Line>
    requires ModelToViewReady(fm)
  {
    if viewOn then ModelToView(fm) + [ToView] + Calls(Names(fm, VertexView), "vp_Vertex") else []
  }

  function RouteClip(fm: FunctionLocationMap, viewOn: bool, clipOn: bool): seq<Line>
    requires ModelToViewReady(fm)
  {
    if clipOn then Project(fm, viewOn) + Calls(Names(fm, VertexClip), "vp_Vertex") else []
  }

  lemma RouteViewCalls(fm: FunctionLocationMap, viewOn: bool)
    requires ModelToViewReady(fm)
    ensures CallNames(RouteView(fm, viewOn)) == if viewOn then FirstModelToView(fm) + Names(fm, VertexView) else []
  {
    if viewOn {
      ModelToViewCalls(fm);
      CallNamesAppend(ModelToView(fm), [ToView]);
      CallNamesCalls(Names(fm, VertexView), "vp_Vertex");
      CallNamesAppend(ModelToView(fm) + [ToView], Calls(Names(fm, VertexView), "vp_Vertex"));
    }
  }

  lemma RouteClipCalls(fm: FunctionLocationMap, viewOn: bool, clipOn: bool)
    requires ModelToViewReady(fm)
    ensures CallNames(RouteClip(fm, viewOn, clipOn)) ==
      if clipOn then (if viewOn then [] else FirstModelToView(fm)) + Names(fm, VertexClip) else []
  {
    if clipOn {
      ProjectCalls(fm, viewOn);
      CallNamesCalls(Names(fm, VertexClip), "vp_Vertex");
      CallNamesAppend(Project(fm, viewOn), Calls(Names(fm, VertexClip), "vp_Vertex"));
    }
  }

  /** Routing calls the first model-to-view function (whenever the vertex
      leaves model space), then the view functions, then the clip functions,
      each list once and in order. */
  lemma RoutingOrder(fm: FunctionLocationMap, viewOn: bool, clipOn: bool, resolve: bool)
    requires ModelToViewReady(fm)
    ensures CallNames(Routing(fm, viewOn, clipOn, resolve)) ==
      (if viewOn || clipOn || resolve then FirstModelToView(fm) else [])
      + (if viewOn then Names(fm, VertexView) else [])
      + (if clipOn then Names(fm, VertexClip) else [])
  {
    var a := RouteView(fm, viewOn);
    var b := RouteClip(fm, viewOn, clipOn);
    var c := if resolve && !clipOn then Project(fm, viewOn) else [];
    RouteViewCalls(fm, viewOn);
    RouteClipCalls(fm, viewOn, clipOn);
    ProjectCalls(fm, viewOn);
    CallNamesAppend(a, b);
    CallNamesAppend(a + b, c);
    RoutingCallsCombine(FirstModelToView(fm), Names(fm, VertexView), Names(fm, VertexClip), viewOn, clipOn, resolve);
  }

  lemma RoutingCallsCombine(first: seq<string>, vv: seq<string>, cc: seq<string>, viewOn: bool, clipOn: bool, resolve: bool)
    ensures (if viewOn then first + vv else [])
      + (if clipOn then (if viewOn then [] else first) + cc else [])
      + (if resolve && !clipOn && !viewOn then first else [])
      == (if viewOn || clipOn || resolve then first else []) + (if viewOn then vv else []) + (if clipOn then cc else [])
  {
    if viewOn {
      if clipOn {
        assert first + vv + ([] + cc) + [] == first + vv + cc;
      } else {
        assert first + vv + [] + [] == first + vv + [];
      }
    } else if clipOn {
      assert [] + (first + cc) + [] == first + [] + cc;
    } else if resolve {
      assert [] + [] + first == first + [] + [];
    }
  }

  // ---------------------------------------------------------------------
  // Vertex stage

  /** The vertex stage's function declarations. */
  function VertexDeclarations(fm: FunctionLocationMap): seq<Line> {
    (if VertexModel in fm || (VertexView in fm && ViewInVS(fm)) || (VertexClip in fm && ClipInVS(fm))
     then [Comment("Function declarations:")] else [])
    + Protos(Names(fm, VertexModel), "inout vec4")
    + (if ViewInVS(fm) then TransformProtos(fm, VertexView) else [])
    + (if ClipInVS(fm) then TransformProtos(fm, VertexClip) else [])
  }

  /** The model-to-view prototypes followed by those of the view or clip
      functions. */
  function TransformProtos(fm: FunctionLocationMap, loc: Location): seq<Line> {
    Protos(Names(fm, VertexTransformModelToView), "") + Protos(Names(fm, loc), "inout vec4")
  }

  /** The view functions in the vertex stage, after the model-to-view
      transform. */
  function VertexViewPart(fm: FunctionLocationMap): seq<Line>
    requires WellFormed(fm)
  {
    if VertexView in fm then ModelToView(fm) + [ToView] + Calls(Names(fm, VertexView), "vp_Vertex") else []
  }

  /** The clip functions in the vertex stage: projection from view space
      when view functions ran, otherwise a model-to-clip sequence first. */
  function VertexClipPart(fm: FunctionLocationMap): seq<Line>
    requires WellFormed(fm)
  {
    if VertexClip in fm then
      (if VertexView in fm then [ToClip]
       else if VertexTransformModelToView in fm then ModelToView(fm) + [ToView, ToClip]
       else [Assign("vp_VertexView", "(gl_ModelViewMatrix * vp_Vertex).xyz"),
             Assign("vp_Vertex", "gl_ModelViewProjectionMatrix * vp_Vertex"),
             Assign("vp_Normal", "normalize(gl_NormalMatrix * vp_Normal)")])
      + Calls(Names(fm, VertexClip), "vp_Vertex")
    else []
  }

  /** The value written to `gl_Position`. */
  function PositionValue(fm: FunctionLocationMap): string {
    if !HasGS(fm) && !HasTCS(fm) then
      if VertexClip in fm then "vp_Vertex"
      else if VertexView in fm then "gl_ProjectionMatrix * vp_Vertex"
      else "gl_ModelViewProjectionMatrix * vp_Vertex"
    else "vp_Vertex"
  }

  /** The view and clip functions when they stay in the vertex stage. */
  function VertexRouting(fm: FunctionLocationMap): seq<Line>
    requires WellFormed(fm)
  {
    if ViewInVS(fm) then VertexViewPart(fm) + (if ClipInVS(fm) then VertexClipPart(fm) else []) else []
  }

  const VertexPrelude := [Assign("vp_Vertex", "gl_Vertex"), Assign("vp_Normal", "gl_Normal"), Assign("vp_Color", "gl_Color")]

  /** The body of the vertex stage's `main`. */
  function VertexMain(vars: seq<Variable>, fm: FunctionLocationMap): seq<Line>
    requires WellFormed(fm)
  {
    VertexPrelude
    + Calls(Names(fm, VertexModel), "vp_Vertex")
    + VertexRouting(fm)
    + [Assign("gl_Position", PositionValue(fm))]
    + Copies(vars, "vp_out.", "")
  }

  function VertexShader(header: string, exts: seq<string>, vars: seq<Variable>, fm: FunctionLocationMap): (r: seq<Line>)
    requires WellFormed(fm)
    ensures StartsWithHeader(r, header)
  {
    [Header(header), VpName("VP Vertex Shader Main")] + Extensions(exts)
    + [Comment("Vertex stage globals:")] + Globals(vars, true)
    + [Comment("Vertex stage outputs:"), Block("out", Fields(vars), "vp_out")]
    + VertexDeclarations(fm)
    + [MainSig] + VertexMain(vars, fm) + [End]
  }

  lemma CopiesNoCalls(vars: seq<Variable>, l: string, r: string)
    ensures CallNames(Copies(vars, l, r)) == []
  {
    CallNamesNone(Copies(vars, l, r));
  }

  /** The calls of five runs of lines one after another. */
  lemma CallNamesJoin(a: seq<Line>, b: seq<Line>, c: seq<Line>, d: seq<Line>, e: seq<Line>)
    ensures CallNames(a + b + c + d + e) == CallNames(a) + CallNames(b) + CallNames(c) + CallNames(d) + CallNames(e)
  {
    CallNamesAppend(a, b);
    CallNamesAppend(a + b, c);
    CallNamesAppend(a + b + c, d);
    CallNamesAppend(a + b + c + d, e);
  }

  lemma VertexViewPartCalls(fm: FunctionLocationMap)
    requires WellFormed(fm)
    ensures VertexView in fm ==> ModelToViewReady(fm)
    ensures CallNames(VertexViewPart(fm)) ==
      if VertexView in fm then FirstModelToView(fm) + Names(fm, VertexView) else []
  {
    if VertexView in fm {
      assert RouteView(fm, true) == VertexViewPart(fm);
      RouteViewCalls(fm, true);
    }
  }

  lemma VertexClipPartCalls(fm: FunctionLocationMap)
    requires WellFormed(fm)
    ensures VertexClip in fm ==> ModelToViewReady(fm)
    ensures CallNames(VertexClipPart(fm)) ==
      if VertexClip in fm then (if VertexView in fm then [] else FirstModelToView(fm)) + Names(fm, VertexClip) else []
  {
    if VertexClip in fm {
      var lead := if VertexView in fm then [ToClip]
        else if VertexTransformModelToView in fm then Project(fm, false)
        else [Assign("vp_VertexView", "(gl_ModelViewMatrix * vp_Vertex).xyz"),
              Assign("vp_Vertex", "gl_ModelViewProjectionMatrix * vp_Vertex"),
              Assign("vp_Normal", "normalize(gl_NormalMatrix * vp_Normal)")];
      assert VertexClipPart(fm) == lead + Calls(Names(fm, VertexClip), "vp_Vertex");
      assert CallNames(lead) == if VertexView in fm then [] else FirstModelToView(fm) by {
        if VertexView !in fm && VertexTransformModelToView in fm {
          ProjectCalls(fm, false);
        } else {
          CallNamesNone(lead);
        }
      }
      CallNamesCalls(Names(fm, VertexClip), "vp_Vertex");
      CallNamesAppend(lead, Calls(Names(fm, VertexClip), "vp_Vertex"));
    }
  }

  /** When the view and clip functions stay in the vertex stage they run
      after the first model-to-view function (if either list is present),
      view functions first, each list once and in order. */
  lemma VertexRoutingCalls(fm: FunctionLocationMap)
    requires WellFormed(fm)
    ensures CallNames(VertexRouting(fm)) ==
      if ViewInVS(fm) then
        (if VertexView in fm || VertexClip in fm then FirstModelToView(fm) else [])
        + Names(fm, VertexView) + Names(fm, VertexClip)
      else []
  {
    if ViewInVS(fm) {
      VertexViewPartCalls(fm);
      VertexClipPartCalls(fm);
      CallNamesAppend(VertexViewPart(fm), VertexClipPart(fm));
      if VertexView in fm || VertexClip in fm {
        RoutingCallsCombine(FirstModelToView(fm), Names(fm, VertexView), Names(fm, VertexClip), VertexView in fm, VertexClip in fm, false);
      }
    }
  }

  /** The vertex `main` calls the model functions, then, when the view and
      clip functions stay in the vertex stage, the first model-to-view
      function if view or clip functions are present, the view functions
      and the clip functions, each list once and in order. */
  lemma VertexCalls(vars: seq<Variable>, fm: FunctionLocationMap)
    requires WellFormed(fm)
    ensures CallNames(VertexMain(vars, fm)) ==
      Names(fm, VertexModel)
      + (if ViewInVS(fm) then
          (if VertexView in fm || VertexClip in fm then FirstModelToView(fm) else [])
          + Names(fm, VertexView) + Names(fm, VertexClip)
         else [])
  {
    CallNamesJoin(VertexPrelude, Calls(Names(fm, VertexModel), "vp_Vertex"), VertexRouting(fm),
      [Assign("gl_Position", PositionValue(fm))], Copies(vars, "vp_out.", ""));
    assert CallNames(VertexPrelude) == [];
    assert CallNames([Assign("gl_Position", PositionValue(fm))]) == [];
    CopiesNoCalls(vars, "vp_out.", "");
    CallNamesCalls(Names(fm, VertexModel), "vp_Vertex");
    VertexRoutingCalls(fm);
    EmptyEnds(Names(fm, VertexModel), CallNames(VertexRouting(fm)));
  }

  lemma EmptyEnds<T>(b: seq<T>, c: seq<T>)
    ensures [] + b + c + [] + [] == b + c
  {
  }

  // ---------------------------------------------------------------------
  // Tessellation-control stage

  function TessControlMain(vars: seq<Variable>, fm: FunctionLocationMap): seq<Line> {
    [Comment("copy default outputs:")]
    + Copies(vars, "", "vp_in[gl_InvocationID].")
    + Calls(Names(fm, TessControl), "")
    + Copies(vars, "vp_out[gl_InvocationID].", "")
  }

  function TessControlShader(header: string, exts: seq<string>, vars: seq<Variable>, fm: FunctionLocationMap): (r: seq<Line>)
    ensures StartsWithHeader(r, header)
  {
    [Header(header), VpName("VP Tessellation Control Shader (TCS) Main")] + Extensions(exts)
    + [Comment("TCS stage inputs:"), Block("in", Fields(vars), "vp_in [gl_MaxPatchVertices]")]
    + [Comment("TCS stage outputs to TES:"), Block("out", Fields(vars), "vp_out [gl_MaxPatchVertices]")]
    + [Comment("TCS stage globals")] + Globals(vars, true)
    + LoadVertex(vars)
    + (if TessControl in fm then [Comment("Function declarations:")] + Protos(Names(fm, TessControl), "") else [])
    + [MainSig] + TessControlMain(vars, fm) + [End]
  }

  /** The TCS `main` calls exactly the tessellation-control functions, in
      order, between loading its inputs and storing its outputs. */
  lemma TessControlCalls(vars: seq<Variable>, fm: FunctionLocationMap)
    ensures CallNames(TessControlMain(vars, fm)) == Names(fm, TessControl)
  {
    var a := [Comment("copy default outputs:")];
    var b := Copies(vars, "", "vp_in[gl_InvocationID].");
    var c := Calls(Names(fm, TessControl), "");
    var d := Copies(vars, "vp_out[gl_InvocationID].", "");
    CallNamesNone(a);
    CopiesNoCalls(vars, "", "vp_in[gl_InvocationID].");
    CopiesNoCalls(vars, "vp_out[gl_InvocationID].", "");
    CallNamesCalls(Names(fm, TessControl), "");
    CallNamesAppend(a, b);
    CallNamesAppend(a + b, c);
    CallNamesAppend(a + b + c, d);
  }

  // ---------------------------------------------------------------------
  // Tessellation-evaluation stage

  /** The distinct varying types, in set order (the `types` set). */
  function TypeSet(vars: seq<Variable>): (r: seq<string>)
    ensures OrderedSets.StrictlySorted(r)
    ensures forall t :: t in r <==> exists v :: v in vars && v.typ == t
    decreases |vars|
  {
    if |vars| == 0 then []
    else
      var r := OrderedSets.Insert(TypeSet(vars[..|vars| - 1]), vars[|vars| - 1].typ);
      assert forall v :: v in vars <==> v in vars[..|vars| - 1] || v == vars[|vars| - 1] by {
        assert vars == vars[..|vars| - 1] + [vars[|vars| - 1]];
      }
      r
  }

  function InterpolatorProtos(types: seq<string>): (r: seq<Line>)
    ensures |r| == |types|
    ensures forall i :: 0 <= i < |types| ==> r[i] == Prototype(types[i], "VP_Interpolate3", types[i] + "," + types[i] + "," + types[i])
  {
    seq(|types|, i requires 0 <= i < |types| => Prototype(types[i], "VP_Interpolate3", types[i] + "," + types[i] + "," + types[i]))
  }

  /** Prototypes that return each type of `vars` once, and no other type. */
  predicate OnePerType(vars: seq<Variable>, ps: seq<Line>) {
    CoversTypes(vars, ps) && Distinct(ps) && OnlyTypes(vars, ps)
  }

  predicate CoversTypes(vars: seq<Variable>, ps: seq<Line>) {
    forall v :: v in vars ==> exists i :: 0 <= i < |ps| && ps[i].Prototype? && ps[i].ret == v.typ
  }

  predicate Distinct<T(==)>(ps: seq<T>) {
    forall i, j :: 0 <= i < |ps| && 0 <= j < |ps| && i != j ==> ps[i] != ps[j]
  }

  predicate OnlyTypes(vars: seq<Variable>, ps: seq<Line>) {
    forall i :: 0 <= i < |ps| ==> ps[i].Prototype? && exists v :: v in vars && ps[i].ret == v.typ
  }

  /** The TES declares exactly one `VP_Interpolate3` per distinct varying
      type, and nothing else among those prototypes. */
  lemma InterpolatorPerType(vars: seq<Variable>)
    ensures OnePerType(vars, InterpolatorProtos(TypeSet(vars)))
  {
    var ts := TypeSet(vars);
    var ps := InterpolatorProtos(ts);
    assert CoversTypes(vars, ps) by {
      forall v | v in vars ensures exists i :: 0 <= i < |ps| && ps[i].Prototype? && ps[i].ret == v.typ {
        assert v.typ in ts;
        var i :| 0 <= i < |ts| && ts[i] == v.typ;
        assert ps[i].ret == v.typ;
      }
    }
    assert Distinct(ps) by {
      forall i, j | 0 <= i < |ps| && 0 <= j < |ps| && i != j ensures ps[i] != ps[j] {
        OrderedSets.StrictlySortedDistinct(ts, i, j);
        assert ps[i].ret == ts[i] && ps[j].ret == ts[j];
      }
    }
    assert OnlyTypes(vars, ps) by {
      forall i | 0 <= i < |ps| ensures ps[i].Prototype? && exists v :: v in vars && ps[i].ret == v.typ {
        assert ts[i] in ts;
      }
    }
  }

  /** `VP_Interpolate3( vp_in[0].x, vp_in[1].x, vp_in[2].x )`. */
  function Interpolate3(x: string): string {
    "VP_Interpolate3(vp_in[0]." + x + ", vp_in[1]." + x + ", vp_in[2]." + x + ")"
  }

  /** The element names `name[0]`, ..., `name[size-1]`; none for a size that
      is not positive. */
  function Element(name: string, n: nat): string {
    name + "[" + NatToString(n) + "]"
  }

  function ElementInterpolations(name: string, size: int): (r: seq<Line>)
    ensures |r| == if size > 0 then size else 0
    ensures forall n :: 0 <= n < |r| ==> r[n] == Assign(Element(name, n), Interpolate3(Element(name, n)))
  {
    seq(if size > 0 then size else 0, n requires 0 <= n => Assign(Element(name, n), Interpolate3(Element(name, n))))
  }

  /** The interpolation of one varying: a flat one copies the first
      vertex, a scalar one is interpolated whole, an array one element by
      element. */
  function InterpolateVar(v: Variable): seq<Line> {
    if v.interp != "flat" then
      if v.arraySize == 0 then [Assign(v.name, Interpolate3(v.name))]
      else ElementInterpolations(v.name, v.arraySize)
    else [Assign(v.name, "vp_in[0]." + v.name)]
  }

  /** The body of `VP_Interpolate3()`. */
  function Interpolation(vars: seq<Variable>): seq<Line>
    decreases |vars|
  {
    if |vars| == 0 then [] else Interpolation(vars[..|vars| - 1]) + InterpolateVar(vars[|vars| - 1])
  }

  /** The body of `VP_Interpolate3()` is the interpolations of the varyings
      one after another: each variable's lines start where the previous
      variables' lines end. */
  lemma {:induction false} InterpolationSplit(vars: seq<Variable>, k: int)
    requires 0 <= k <= |vars|
    ensures Interpolation(vars) == Interpolation(vars[..k]) + Interpolation(vars[k..])
    decreases |vars| - k
  {
    if k < |vars| {
      InterpolationSplit(vars, k + 1);
      assert vars[..k + 1][..k] == vars[..k];
      assert Interpolation(vars[..k + 1]) == Interpolation(vars[..k]) + InterpolateVar(vars[k]);
      InterpolationCons(vars[k..]);
      assert vars[k..][1..] == vars[k + 1..];
    } else {
      assert vars[..k] == vars;
    }
  }

  lemma {:induction false} InterpolationCons(vars: seq<Variable>)
    requires |vars| > 0
    ensures Interpolation(vars) == InterpolateVar(vars[0]) + Interpolation(vars[1..])
    decreases |vars|
  {
    if |vars| > 1 {
      InterpolationCons(vars[..|vars| - 1]);
      assert vars[..|vars| - 1][1..] == vars[1..][..|vars| - 2];
      assert vars[..|vars| - 1][0] == vars[0];
    } else {
      assert vars[..0] == [] && vars[1..] == [];
    }
  }

  /** How many lines the interpolation of a varying takes. */
  lemma InterpolateVarCount(v: Variable)
    ensures |InterpolateVar(v)| == (if v.interp == "flat" || v.arraySize == 0 then 1 else if v.arraySize > 0 then v.arraySize else 0)
  {
  }

  /** The helper functions of the TES. */
  function TessEvalHelpers(vars: seq<Variable>, fm: FunctionLocationMap): seq<Line>
    requires ModelToViewReady(fm)
  {
    [Comment("Function declarations:")]
    + Protos(Names(fm, TessEvaluation), "")
    + Protos(Names(fm, VertexTransformModelToView), "")
    + (if VertexView in fm && ViewInTES(fm) then Protos(Names(fm, VertexView), "inout vec4") else [])
    + (if VertexClip in fm && ClipInTES(fm) then Protos(Names(fm, VertexClip), "inout vec4") else [])
    + LoadVertex(vars)
    + [Begin("void", "VP_Interpolate3", "")] + Interpolation(vars) + [End]
    + [Begin("void", "VP_EmitVertex", "")]
    + Routing(fm, VertexView in fm && ViewInTES(fm), VertexClip in fm && ClipInTES(fm), !HasGS(fm))
    + Copies(vars, "vp_out.", "") + [Assign("gl_Position", "vp_Vertex"), End]
  }

  function TessEvalMain(vars: seq<Variable>, fm: FunctionLocationMap): seq<Line> {
    [Comment("copy default outputs:")]
    + (if TessEvaluation !in fm then Copies(vars, "vp_out.", "vp_in[0].") else [])
    + Calls(Names(fm, TessEvaluation), "")
  }

  function TessEvalShader(header: string, exts: seq<string>, vars: seq<Variable>, fm: FunctionLocationMap): (r: seq<Line>)
    requires WellFormed(fm) && HasTES(fm)
    ensures StartsWithHeader(r, header)
  {
    [Header(header), VpName("VP Tessellation Evaluation (TES) Shader MAIN")] + Extensions(exts)
    + [Comment("TES stage inputs (required):"), Block("in", Fields(vars), "vp_in []")]
    + [Comment("TES stage globals:")] + Globals(vars, false)
    + [Comment("TES stage outputs:"), Block("out", Fields(vars), "vp_out")]
    + InterpolatorProtos(TypeSet(vars))
    + (if TessEvaluation in fm || (VertexView in fm && ViewInTES(fm)) || (VertexClip in fm && ClipInTES(fm))
       then TessEvalHelpers(vars, fm) else [])
    + [MainSig] + TessEvalMain(vars, fm) + [End]
  }

  /** A TES is only built with tessellation-evaluation functions, so its
      passthrough copy is never written and its `main` calls exactly those
      functions, in order. */
  lemma TessEvalCalls(vars: seq<Variable>, fm: FunctionLocationMap)
    requires HasTES(fm)
    ensures TessEvalMain(vars, fm) == [Comment("copy default outputs:")] + Calls(fm[TessEvaluation], "")
    ensures CallNames(TessEvalMain(vars, fm)) == fm[TessEvaluation]
  {
    assert TessEvalMain(vars, fm) == [Comment("copy default outputs:")] + [] + Calls(fm[TessEvaluation], "");
    CallNamesNone([Comment("copy default outputs:")]);
    CallNamesCalls(fm[TessEvaluation], "");
    CallNamesAppend([Comment("copy default outputs:")], Calls(fm[TessEvaluation], ""));
  }

  // ---------------------------------------------------------------------
  // Geometry stage

  function GeometryDeclarations(fm: FunctionLocationMap): seq<Line>
    requires ModelToViewReady(fm)
  {
    if Geometry in fm || (VertexView in fm && ViewInGS(fm)) || (VertexClip in fm && ClipInGS(fm)) then
      [Comment("Injected function declarations:")]
      + Protos(FirstModelToView(fm), "")
      + Protos(Names(fm, Geometry), "")
      + (if VertexView in fm && ViewInGS(fm) then Protos(Names(fm, VertexView), "inout vec4") else [])
      + (if VertexClip in fm && ClipInGS(fm) then Protos(Names(fm, VertexClip), "inout vec4") else [])
    else []
  }

  /** The routing of `VP_EmitViewVertex`, whose vertex starts in view
      space. */
  function ViewVertexRouting(fm: FunctionLocationMap, viewOn: bool, clipOn: bool): seq<Line> {
    (if viewOn then Calls(Names(fm, VertexView), "vp_Vertex") else [])
    + (if clipOn then [ToClip] + Calls(Names(fm, VertexClip), "vp_Vertex") else [])
    + (if !clipOn then [ToClip] else [])
  }

  /** An emit helper of the geometry stage. */
  function EmitHelper(name: string, routing: seq<Line>, vars: seq<Variable>): seq<Line> {
    [Begin("void", name, ""), Assign("vp_Vertex", "gl_Position")]
    + routing
    + Copies(vars, "vp_out.", "")
    + [Assign("gl_Position", "vp_Vertex"), Call("EmitVertex", ""), End]
  }

  function GeometryMain(vars: seq<Variable>, fm: FunctionLocationMap): seq<Line> {
    [Comment("copy default outputs:")]
    + Copies(vars, "vp_out.", "vp_in[0].")
    + Calls(Names(fm, Geometry), "")
  }

  function GeometryShader(header: string, exts: seq<string>, vars: seq<Variable>, fm: FunctionLocationMap): (r: seq<Line>)
    requires WellFormed(fm) && HasGS(fm)
    ensures StartsWithHeader(r, header)
  {
    var viewOn := VertexView in fm && ViewInGS(fm);
    var clipOn := VertexClip in fm && ClipInGS(fm);
    [Header(header), VpName("VP Geometry Shader Main")] + Extensions(exts)
    + [Comment("Geometry stage inputs:"), Block("in", Fields(vars), "vp_in []")]
    + [Comment("Geometry stage globals:")] + Globals(vars, false)
    + [Comment("Geometry stage outputs:"), Block("out", Fields(vars), "vp_out")]
    + GeometryDeclarations(fm)
    + LoadVertex(vars)
    + EmitHelper("VP_EmitModelVertex", Routing(fm, viewOn, clipOn, true), vars)
    + EmitHelper("VP_EmitViewVertex", ViewVertexRouting(fm, viewOn, clipOn), vars)
    + [MainSig] + GeometryMain(vars, fm) + [End]
  }

  /** `VP_EmitViewVertex` runs the view functions (when they are in this
      stage) and then the clip functions. */
  lemma ViewVertexRoutingCalls(fm: FunctionLocationMap, viewOn: bool, clipOn: bool)
    ensures CallNames(ViewVertexRouting(fm, viewOn, clipOn)) ==
      (if viewOn then Names(fm, VertexView) else []) + (if clipOn then Names(fm, VertexClip) else [])
  {
    var a := if viewOn then Calls(Names(fm, VertexView), "vp_Vertex") else [];
    var b := if clipOn then [ToClip] + Calls(Names(fm, VertexClip), "vp_Vertex") else [];
    var c := if !clipOn then [ToClip] else [];
    assert CallNames(a) == if viewOn then Names(fm, VertexView) else [] by {
      CallNamesCalls(Names(fm, VertexView), "vp_Vertex");
    }
    assert CallNames(b) == if clipOn then Names(fm, VertexClip) else [] by {
      CallNamesCalls(Names(fm, VertexClip), "vp_Vertex");
      CallNamesAppend([ToClip], Calls(Names(fm, VertexClip), "vp_Vertex"));
    }
    assert CallNames(c) == [];
    CallNamesAppend(a, b);
    CallNamesAppend(a + b, c);
  }

  /** The geometry `main` calls exactly the geometry functions, in order. */
  lemma GeometryCalls(vars: seq<Variable>, fm: FunctionLocationMap)
    ensures CallNames(GeometryMain(vars, fm)) == Names(fm, Geometry)
  {
    var a := [Comment("copy default outputs:")];
    CallNamesNone(a);
    CopiesNoCalls(vars, "vp_out.", "vp_in[0].");
    CallNamesCalls(Names(fm, Geometry), "");
    CallNamesAppend(a, Copies(vars, "vp_out.", "vp_in[0]."));
    CallNamesAppend(a + Copies(vars, "vp_out.", "vp_in[0]."), Calls(Names(fm, Geometry), ""));
  }

  // ---------------------------------------------------------------------
  // Fragment stage

  const FragColorOut := FragOut("vec4", "vp_FragColor")
  const DefaultOutput := Assign("vp_FragColor", "vp_Color")
  const Renormalize := Assign("vp_Normal", "normalize(vp_Normal)")

  function FragmentDeclarations(fm: FunctionLocationMap): seq<Line> {
    (if FragmentColoring in fm || FragmentLighting in fm || FragmentOutput in fm then [Comment("Function declarations:")] else [])
    + Protos(Names(fm, FragmentColoring), "inout vec4 color")
    + Protos(Names(fm, FragmentLighting), "inout vec4 color")
    + Protos(Names(fm, FragmentOutput), "inout vec4 color")
  }

  /** The coloring pass and the lighting pass. */
  function FragmentPasses(fm: FunctionLocationMap): seq<Line> {
    Calls(Names(fm, FragmentColoring), "vp_Color") + Calls(Names(fm, FragmentLighting), "vp_Color")
  }

  function FragmentOutputPart(fm: FunctionLocationMap): seq<Line> {
    if FragmentOutput in fm then Calls(fm[FragmentOutput], "vp_Color") else [DefaultOutput]
  }

  function FragmentMain(vars: seq<Variable>, fm: FunctionLocationMap): seq<Line> {
    Copies(vars, "", "vp_in.") + [Renormalize] + FragmentPasses(fm) + FragmentOutputPart(fm)
  }

  /** The fragment output declaration, when no output function writes the
      color. */
  function FragmentOutDecl(fm: FunctionLocationMap): seq<Line> {
    if FragmentOutput !in fm then [Comment("Fragment output"), FragColorOut] else []
  }

  /** Everything after the output declaration. */
  function FragmentBody(vars: seq<Variable>, fm: FunctionLocationMap): seq<Line> {
    [Comment("Fragment stage inputs:"), Block("in", Fields(vars), "vp_in")]
    + [Comment("Fragment stage globals:")] + Globals(vars, true)
    + FragmentDeclarations(fm)
    + [MainSig] + FragmentMain(vars, fm) + [End]
  }

  function FragmentShader(header: string, exts: seq<string>, vars: seq<Variable>, fm: FunctionLocationMap): (r: seq<Line>)
    ensures StartsWithHeader(r, header)
  {
    [Header(header), VpName("VP Fragment Shader Main")] + Extensions(exts)
    + FragmentOutDecl(fm)
    + FragmentBody(vars, fm)
  }

  lemma FragmentPassesCalls(fm: FunctionLocationMap)
    ensures CallNames(FragmentPasses(fm)) == Names(fm, FragmentColoring) + Names(fm, FragmentLighting)
  {
    CallNamesCalls(Names(fm, FragmentColoring), "vp_Color");
    CallNamesCalls(Names(fm, FragmentLighting), "vp_Color");
    CallNamesAppend(Calls(Names(fm, FragmentColoring), "vp_Color"), Calls(Names(fm, FragmentLighting), "vp_Color"));
  }

  lemma FragmentOutputCalls(fm: FunctionLocationMap)
    ensures CallNames(FragmentOutputPart(fm)) == Names(fm, FragmentOutput)
  {
    if FragmentOutput in fm {
      CallNamesCalls(fm[FragmentOutput], "vp_Color");
    } else {
      CallNamesNone([DefaultOutput]);
    }
  }

  /** The fragment `main` calls all coloring functions, then all lighting
      functions, then all output functions, each once and in order, and
      renormalizes `vp_Normal` before the first of them. */
  lemma FragmentCalls(vars: seq<Variable>, fm: FunctionLocationMap)
    ensures CallNames(FragmentMain(vars, fm)) ==
      Names(fm, FragmentColoring) + Names(fm, FragmentLighting) + Names(fm, FragmentOutput)
    ensures var body := FragmentMain(vars, fm);
      exists k :: 0 <= k < |body| && body[k] == Renormalize && CallNames(body[..k]) == []
  {
    var copies := Copies(vars, "", "vp_in.");
    CallNamesJoin(copies, [Renormalize], FragmentPasses(fm), FragmentOutputPart(fm), []);
    assert FragmentMain(vars, fm) + [] == FragmentMain(vars, fm);
    CopiesNoCalls(vars, "", "vp_in.");
    assert CallNames([Renormalize]) == [];
    FragmentPassesCalls(fm);
    FragmentOutputCalls(fm);
    EmptyFronts(Names(fm, FragmentColoring) + Names(fm, FragmentLighting), Names(fm, FragmentOutput));
    RenormalizeFirst(vars, fm);
  }

  lemma EmptyFronts<T>(b: seq<T>, c: seq<T>)
    ensures [] + [] + b + c + [] == b + c
  {
  }

  lemma RenormalizeFirst(vars: seq<Variable>, fm: FunctionLocationMap)
    ensures var body := FragmentMain(vars, fm);
      |vars| < |body| && body[|vars|] == Renormalize && CallNames(body[..|vars|]) == []
  {
    var body := FragmentMain(vars, fm);
    var copies := Copies(vars, "", "vp_in.");
    assert body == copies + ([Renormalize] + FragmentPasses(fm) + FragmentOutputPart(fm));
    assert body[..|vars|] == copies;
    CopiesNoCalls(vars, "", "vp_in.");
  }

  /** No copy of a varying out of `vp_in` is the default output write. */
  lemma CopiesAreNotDefaultOutput(vars: seq<Variable>)
    ensures DefaultOutput !in Copies(vars, "", "vp_in.")
  {
    var copies := Copies(vars, "", "vp_in.");
    forall i | 0 <= i < |copies| ensures copies[i] != DefaultOutput {
      assert ("vp_in." + vars[i].name)[3] == 'i';
    }
  }

  lemma FragmentMainLines(vars: seq<Variable>, fm: FunctionLocationMap)
    ensures forall l :: l in FragmentMain(vars, fm) ==> l.Assign? || l.Call?
    ensures DefaultOutput in FragmentMain(vars, fm) <==> FragmentOutput !in fm
  {
    CopiesAreNotDefaultOutput(vars);
    var tail := FragmentOutputPart(fm);
    assert FragmentOutput in fm ==> forall l :: l in tail ==> l.Call?;
    assert forall l :: l in FragmentPasses(fm) ==> l.Call?;
  }

  /** `out vec4 vp_FragColor;` is declared, and `vp_FragColor = vp_Color;`
      written, exactly when no fragment-output entry exists. */
  lemma FragColorIffNoOutput(header: string, exts: seq<string>, vars: seq<Variable>, fm: FunctionLocationMap)
    ensures FragColorOut in FragmentShader(header, exts, vars, fm) <==> FragmentOutput !in fm
    ensures DefaultOutput in FragmentMain(vars, fm) <==> FragmentOutput !in fm
  {
    FragmentMainLines(vars, fm);
    FragmentBodyNoFragOut(vars, fm);
    PreambleNoFragOut(header, "VP Fragment Shader Main", exts);
    assert FragColorOut in FragmentOutDecl(fm) <==> FragmentOutput !in fm;
  }

  lemma PreambleNoFragOut(header: string, name: string, exts: seq<string>)
    ensures FragColorOut !in [Header(header), VpName(name)] + Extensions(exts)
  {
  }

  lemma FragmentBodyNoFragOut(vars: seq<Variable>, fm: FunctionLocationMap)
    ensures FragColorOut !in FragmentBody(vars, fm)
  {
    var a := [Comment("Fragment stage inputs:"), Block("in", Fields(vars), "vp_in")] + [Comment("Fragment stage globals:")];
    var b := Globals(vars, true);
    var c := FragmentDeclarations(fm);
    var d := [MainSig];
    var e := FragmentMain(vars, fm);
    assert FragmentBody(vars, fm) == a + b + c + d + e + [End];
    assert !HasFragOut(a) && !HasFragOut(b) && !HasFragOut(d) && !HasFragOut([End]);
    assert !HasFragOut(c) by {
      assert forall l :: l in c ==> l.Comment? || l.Prototype?;
    }
    assert !HasFragOut(e) by {
      FragmentMainLines(vars, fm);
    }
    HasFragOutJoin(a, b, c, d, e, [End]);
  }

  predicate HasFragOut(lines: seq<Line>) {
    exists l :: l in lines && l.FragOut?
  }

  lemma HasFragOutJoin(a: seq<Line>, b: seq<Line>, c: seq<Line>, d: seq<Line>, e: seq<Line>, f: seq<Line>)
    requires !HasFragOut(a) && !HasFragOut(b) && !HasFragOut(c) && !HasFragOut(d) && !HasFragOut(e) && !HasFragOut(f)
    ensures FragColorOut !in a + b + c + d + e + f
  {
  }

  // ---------------------------------------------------------------------
  // All stages

  /** The shaders `createMains` appends, in order: vertex, then the
      tessellation-control, tessellation-evaluation and geometry shaders
      that are active, then fragment. */
  function Mains(header: string, exts: seq<string>, vars: seq<Variable>, fm: FunctionLocationMap): seq<Shader>
    requires WellFormed(fm)
  {
    Assemble(fm,
      VertexShader(header, exts, vars, fm),
      TessControlShader(header, exts, vars, fm),
      if HasTES(fm) then TessEvalShader(header, exts, vars, fm) else [],
      if HasGS(fm) then GeometryShader(header, exts, vars, fm) else [],
      FragmentShader(header, exts, vars, fm))
  }

  /** The stage sources pushed in pipeline order, the optional ones only
      when their stage is built. */
  function Assemble(fm: FunctionLocationMap, vs: seq<Line>, tcs: seq<Line>, tes: seq<Line>, gs: seq<Line>, fs: seq<Line>): seq<Shader> {
    [Shader(Vertex, vs)]
    + (if HasTCS(fm) then [Shader(TessControlStage, tcs)] else [])
    + (if HasTES(fm) then [Shader(TessEvaluationStage, tes)] else [])
    + (if HasGS(fm) then [Shader(GeometryStage, gs)] else [])
    + [Shader(Fragment, fs)]
  }

  function Kinds(shaders: seq<Shader>): (r: seq<StageKind>)
    ensures |r| == |shaders| && forall i :: 0 <= i < |shaders| ==> r[i] == shaders[i].kind
  {
    seq(|shaders|, i requires 0 <= i < |shaders| => shaders[i].kind)
  }

  /** A source that starts with the header line. */
  predicate StartsWithHeader(source: seq<Line>, header: string) {
    |source| > 0 && source[0] == Header(header)
  }

  /** The kinds assembled are the active stages, in pipeline order. */
  lemma AssembleKinds(fm: FunctionLocationMap, vs: seq<Line>, tcs: seq<Line>, tes: seq<Line>, gs: seq<Line>, fs: seq<Line>)
    ensures Kinds(Assemble(fm, vs, tcs, tes, gs, fs)) == ActiveStages(fm)
  {
  }

  lemma AssembleHeaders(fm: FunctionLocationMap, header: string, vs: seq<Line>, tcs: seq<Line>, tes: seq<Line>, gs: seq<Line>, fs: seq<Line>)
    requires StartsWithHeader(vs, header) && StartsWithHeader(tcs, header) && StartsWithHeader(fs, header)
    requires HasTES(fm) ==> StartsWithHeader(tes, header)
    requires HasGS(fm) ==> StartsWithHeader(gs, header)
    ensures forall s :: s in Assemble(fm, vs, tcs, tes, gs, fs) ==> StartsWithHeader(s.source, header)
  {
  }

  /** The shaders appended are those of the stages in the mask, in the
      order vertex, tessellation control, tessellation evaluation,
      geometry, fragment. */
  lemma MainsOrder(header: string, exts: seq<string>, vars: seq<Variable>, fm: FunctionLocationMap)
    requires WellFormed(fm)
    ensures Kinds(Mains(header, exts, vars, fm)) == ActiveStages(fm)
  {
    AssembleKinds(fm,
      VertexShader(header, exts, vars, fm),
      TessControlShader(header, exts, vars, fm),
      if HasTES(fm) then TessEvalShader(header, exts, vars, fm) else [],
      if HasGS(fm) then GeometryShader(header, exts, vars, fm) else [],
      FragmentShader(header, exts, vars, fm));
  }

  /** Every shader appended begins with the header. */
  lemma MainsHeaders(header: string, exts: seq<string>, vars: seq<Variable>, fm: FunctionLocationMap)
    requires WellFormed(fm)
    ensures forall s :: s in Mains(header, exts, vars, fm) ==> StartsWithHeader(s.source, header)
  {
    AssembleHeaders(fm, header,
      VertexShader(header, exts, vars, fm),
      TessControlShader(header, exts, vars, fm),
      if HasTES(fm) then TessEvalShader(header, exts, vars, fm) else [],
      if HasGS(fm) then GeometryShader(header, exts, vars, fm) else [],
      FragmentShader(header, exts, vars, fm));
  }

  // ---------------------------------------------------------------------
  // Color filter chain

  /** `createColorFilterChainFragmentShader`: prototypes of the filters'
      entry points and a function `entry` calling each of them. */
  function ColorFilterChain(header: string, entry: string, chain: seq<string>): seq<Line> {
    [Header(header)]
    + Protos(chain, "inout vec4 color")
    + [Begin("void", entry, "inout vec4 color")]
    + Calls(chain, "color")
    + [End]
  }

  /** The chain function calls every filter once, in chain order, and
      nothing else; an empty chain gives an empty function. */
  lemma ColorFilterChainCalls(header: string, entry: string, chain: seq<string>)
    ensures CallNames(ColorFilterChain(header, entry, chain)) == chain
    ensures var src := ColorFilterChain(header, entry, chain);
      src[|chain| + 1] == Begin("void", entry, "inout vec4 color") && src[|src| - 1] == End
  {
    var a := [Header(header)];
    var b := Protos(chain, "inout vec4 color");
    var c := [Begin("void", entry, "inout vec4 color")];
    var d := Calls(chain, "color");
    CallNamesJoin(a, b, c, d, [End]);
    CallNamesNone(a);
    CallNamesNone(b);
    CallNamesNone(c);
    CallNamesNone([End]);
    CallNamesCalls(chain, "color");
    EmptyAround(chain);
    assert (a + b + c)[|chain| + 1] == c[0];
  }

  lemma EmptyAround<T>(b: seq<T>)
    ensures [] + [] + [] + b + [] == b
  {
  }
}
