/** `ShaderFactory`: the cached GLSL header and the methods that write the
    stage "main" shaders.  Each method fills its buffer step by step, as
    ShaderFactory.cpp does, and is proved to write the text `ShaderStages`
    describes. */
module ShaderFactory {
  import opened Strings
  import opened OrderedSets
  import opened ShaderText
  import opened ShaderTopology
  import opened ShaderVaryings
  import opened ShaderStages

  // ---------------------------------------------------------------------
  // Loops shared by the stage emitters; each appends to a buffer.

  /** `addExtensionsToBuffer`. */
  method AddExtensionsToBuffer(buf: seq<Line>, exts: seq<string>) returns (r: seq<Line>)
    ensures r == buf + Extensions(exts)
  {
    r := buf;
    var i := 0;
    while i < |exts|
      invariant 0 <= i <= |exts|
      invariant r == buf + Extensions(exts[..i])
    {
      r := r + [Extension(exts[i])];
      assert Extensions(exts[..i + 1]) == Extensions(exts[..i]) + [Extension(exts[i])];
      i := i + 1;
    }
    assert exts[..i] == exts;
  }

  /** The `VP_PerVertex` block fields (`vertdata`, `fragdata`). */
  method BuildFields(vars: seq<Variable>) returns (fields: seq<string>)
    ensures fields == Fields(vars)
  {
    fields := [];
    var i := 0;
    while i < |vars|
      invariant 0 <= i <= |vars|
      invariant fields == Fields(vars[..i])
    {
      fields := fields + [FieldText(vars[i])];
      assert Fields(vars[..i + 1]) == Fields(vars[..i]) + [FieldText(vars[i])];
      i := i + 1;
    }
    assert vars[..i] == vars;
  }

  /** The declaration of each stage global. */
  method AppendGlobals(buf: seq<Line>, vars: seq<Variable>, withPrec: bool) returns (r: seq<Line>)
    ensures r == buf + Globals(vars, withPrec)
  {
    r := buf;
    var i := 0;
    while i < |vars|
      invariant 0 <= i <= |vars|
      invariant r == buf + Globals(vars[..i], withPrec)
    {
      var d := if withPrec then Qualified(vars[i].prec, vars[i].declaration) else vars[i].declaration;
      r := r + [Global(d)];
      assert Globals(vars[..i + 1], withPrec) == Globals(vars[..i], withPrec) + [Global(d)];
      i := i + 1;
    }
    assert vars[..i] == vars;
  }

  /** A copy of each varying, `<lhs><name> = <rhs><name>`. */
  method AppendCopies(buf: seq<Line>, vars: seq<Variable>, lhs: string, rhs: string) returns (r: seq<Line>)
    ensures r == buf + Copies(vars, lhs, rhs)
  {
    r := buf;
    var i := 0;
    while i < |vars|
      invariant 0 <= i <= |vars|
      invariant r == buf + Copies(vars[..i], lhs, rhs)
    {
      r := r + [Assign(lhs + vars[i].name, rhs + vars[i].name)];
      assert Copies(vars[..i + 1], lhs, rhs) == Copies(vars[..i], lhs, rhs) + [Assign(lhs + vars[i].name, rhs + vars[i].name)];
      i := i + 1;
    }
    assert vars[..i] == vars;
  }

  /** A prototype for each function of an ordered function map. */
  method AppendPrototypes(buf: seq<Line>, names: seq<string>, params: string) returns (r: seq<Line>)
    ensures r == buf + Protos(names, params)
  {
    r := buf;
    var i := 0;
    while i < |names|
      invariant 0 <= i <= |names|
      invariant r == buf + Protos(names[..i], params)
    {
      r := r + [Prototype("void", names[i], params)];
      assert Protos(names[..i + 1], params) == Protos(names[..i], params) + [Prototype("void", names[i], params)];
      i := i + 1;
    }
    assert names[..i] == names;
  }

  /** A call of each function of an ordered function map, in order. */
  method AppendCalls(buf: seq<Line>, names: seq<string>, args: string) returns (r: seq<Line>)
    ensures r == buf + Calls(names, args)
  {
    r := buf;
    var i := 0;
    while i < |names|
      invariant 0 <= i <= |names|
      invariant r == buf + Calls(names[..i], args)
    {
      r := r + [Call(names[i], args)];
      assert Calls(names[..i + 1], args) == Calls(names[..i], args) + [Call(names[i], args)];
      i := i + 1;
    }
    assert names[..i] == names;
  }

  /** `VP_LoadVertex`. */
  method AppendLoadVertex(buf: seq<Line>, vars: seq<Variable>) returns (r: seq<Line>)
    ensures r == buf + LoadVertex(vars)
  {
    r := buf + [Begin("void", "VP_LoadVertex", "in int index")];
    r := AppendCopies(r, vars, "", "vp_in[index].");
    r := r + [End];
  }

  // ---------------------------------------------------------------------
  // The vertex transforms

  /** Model to view space. */
  method AppendModelToView(buf: seq<Line>, fm: FunctionLocationMap) returns (r: seq<Line>)
    requires ModelToViewReady(fm)
    ensures r == buf + ModelToView(fm)
  {
    if VertexTransformModelToView in fm {
      r := buf + [Call(fm[VertexTransformModelToView][0], "")];
    } else {
      r := buf + [Assign("vp_Vertex", "gl_ModelViewMatrix * vp_Vertex"),
                  Assign("vp_Normal", "normalize(gl_NormalMatrix * vp_Normal)")];
    }
  }

  /** The spaces a vertex moves through. */
  datatype Space = ModelSpace | ViewSpace | ClipSpace

  /** On to clip space, from view space or from model space. */
  method AppendToClip(buf: seq<Line>, fm: FunctionLocationMap, fromView: bool) returns (r: seq<Line>)
    requires ModelToViewReady(fm)
    ensures r == buf + Project(fm, fromView)
  {
    if fromView {
      r := buf + [ToClip];
    } else {
      r := AppendModelToView(buf, fm);
      r := r + [ToView, ToClip];
      AppendAssoc(buf, ModelToView(fm), [ToView, ToClip]);
    }
  }

  /** The routing of `VP_EmitVertex` and `VP_EmitModelVertex`, tracking the
      vertex's `space`. */
  method EmitRouting(fm: FunctionLocationMap, viewOn: bool, clipOn: bool, resolve: bool) returns (r: seq<Line>)
    requires ModelToViewReady(fm)
    ensures r == Routing(fm, viewOn, clipOn, resolve)
  {
    r := [];
    var space := ModelSpace;
    if viewOn {
      r := AppendModelToView(r, fm);
      assert r == ModelToView(fm);
      r := r + [ToView];
      space := ViewSpace;
      r := AppendCalls(r, Names(fm, VertexView), "vp_Vertex");
    }
    ghost var view := r;
    if clipOn {
      r := AppendToClip(r, fm, space == ViewSpace);
      space := ClipSpace;
      r := AppendCalls(r, Names(fm, VertexClip), "vp_Vertex");
      AppendAssoc(view, Project(fm, viewOn), Calls(Names(fm, VertexClip), "vp_Vertex"));
    }
    if resolve && space != ClipSpace {
      r := AppendToClip(r, fm, space == ViewSpace);
    }
  }

  // ---------------------------------------------------------------------
  // Vertex stage

  method AppendTransformProtos(buf: seq<Line>, fm: FunctionLocationMap, loc: Location) returns (r: seq<Line>)
    ensures r == buf + TransformProtos(fm, loc)
  {
    r := AppendPrototypes(buf, Names(fm, VertexTransformModelToView), "");
    r := AppendPrototypes(r, Names(fm, loc), "inout vec4");
    AppendAssoc(buf, Protos(Names(fm, VertexTransformModelToView), ""), Protos(Names(fm, loc), "inout vec4"));
  }

  method EmitVertexDeclarations(fm: FunctionLocationMap) returns (r: seq<Line>)
    ensures r == VertexDeclarations(fm)
  {
    var viewInVS, clipInVS := ViewInVS(fm), ClipInVS(fm);
    var any := VertexModel in fm || (VertexView in fm && viewInVS) || (VertexClip in fm && clipInVS);
    r := [];
    if any {
      r := [Comment("Function declarations:")];
    }
    assert r == if any then [Comment("Function declarations:")] else [];
    r := AppendPrototypes(r, Names(fm, VertexModel), "inout vec4");
    ghost var pre := r;
    if viewInVS {
      r := AppendTransformProtos(r, fm, VertexView);
    }
    assert r == pre + (if viewInVS then TransformProtos(fm, VertexView) else []);
    pre := r;
    if clipInVS {
      r := AppendTransformProtos(r, fm, VertexClip);
    }
    assert r == pre + (if clipInVS then TransformProtos(fm, VertexClip) else []);
  }

  /** The view and clip functions when they stay in the vertex stage. */
  method EmitVertexRouting(fm: FunctionLocationMap) returns (r: seq<Line>)
    requires WellFormed(fm)
    ensures r == VertexRouting(fm)
  {
    r := [];
    if ViewInVS(fm) {
      if VertexView in fm {
        r := AppendModelToView(r, fm);
        assert r == ModelToView(fm);
        r := r + [ToView];
        r := AppendCalls(r, fm[VertexView], "vp_Vertex");
      }
      ghost var view := r;
      if ClipInVS(fm) && VertexClip in fm {
        if VertexView in fm {
          r := r + [ToClip];
        } else if VertexTransformModelToView in fm {
          r := AppendToClip(r, fm, false);
        } else {
          r := r + [Assign("vp_VertexView", "(gl_ModelViewMatrix * vp_Vertex).xyz"),
                    Assign("vp_Vertex", "gl_ModelViewProjectionMatrix * vp_Vertex"),
                    Assign("vp_Normal", "normalize(gl_NormalMatrix * vp_Normal)")];
        }
        ghost var lead := r[|view|..];
        assert r == view + lead;
        r := AppendCalls(r, fm[VertexClip], "vp_Vertex");
        AppendAssoc(view, lead, Calls(fm[VertexClip], "vp_Vertex"));
      }
    }
  }

  /** The body of the vertex stage's `main`. */
  method EmitVertexMain(vars: seq<Variable>, fm: FunctionLocationMap) returns (r: seq<Line>)
    requires WellFormed(fm)
    ensures r == VertexMain(vars, fm)
  {
    r := VertexPrelude;
    r := AppendCalls(r, Names(fm, VertexModel), "vp_Vertex");
    var routing := EmitVertexRouting(fm);
    r := r + routing;
    var position;
    if !HasGS(fm) && !HasTCS(fm) {
      if VertexClip in fm {
        position := "vp_Vertex";
      } else if VertexView in fm {
        position := "gl_ProjectionMatrix * vp_Vertex";
      } else {
        position := "gl_ModelViewProjectionMatrix * vp_Vertex";
      }
    } else {
      position := "vp_Vertex";
    }
    r := r + [Assign("gl_Position", position)];
    r := AppendCopies(r, vars, "vp_out.", "");
  }

  /** The vertex shader of `createMains`. */
  method EmitVertexShader(header: string, exts: seq<string>, vars: seq<Variable>, fields: seq<string>, fm: FunctionLocationMap)
    returns (buf: seq<Line>)
    requires WellFormed(fm) && fields == Fields(vars)
    ensures buf == VertexShader(header, exts, vars, fm)
  {
    buf := [Header(header), VpName("VP Vertex Shader Main")];
    buf := AddExtensionsToBuffer(buf, exts);
    buf := buf + [Comment("Vertex stage globals:")];
    buf := AppendGlobals(buf, vars, true);
    buf := buf + [Comment("Vertex stage outputs:"), Block("out", fields, "vp_out")];
    var decls := EmitVertexDeclarations(fm);
    buf := buf + decls;
    buf := buf + [MainSig];
    var main := EmitVertexMain(vars, fm);
    buf := buf + main;
    buf := buf + [End];
  }

  // ---------------------------------------------------------------------
  // Tessellation-control stage

  method EmitTessControlMain(vars: seq<Variable>, fm: FunctionLocationMap) returns (r: seq<Line>)
    ensures r == TessControlMain(vars, fm)
  {
    r := [Comment("copy default outputs:")];
    r := AppendCopies(r, vars, "", "vp_in[gl_InvocationID].");
    r := AppendCalls(r, Names(fm, TessControl), "");
    r := AppendCopies(r, vars, "vp_out[gl_InvocationID].", "");
  }

  /** The tessellation-control shader of `createMains`. */
  method EmitTessControlShader(header: string, exts: seq<string>, vars: seq<Variable>, fields: seq<string>, fm: FunctionLocationMap)
    returns (buf: seq<Line>)
    requires fields == Fields(vars)
    ensures buf == TessControlShader(header, exts, vars, fm)
  {
    buf := [Header(header), VpName("VP Tessellation Control Shader (TCS) Main")];
    buf := AddExtensionsToBuffer(buf, exts);
    buf := buf + [Comment("TCS stage inputs:"), Block("in", fields, "vp_in [gl_MaxPatchVertices]")];
    buf := buf + [Comment("TCS stage outputs to TES:"), Block("out", fields, "vp_out [gl_MaxPatchVertices]")];
    buf := buf + [Comment("TCS stage globals")];
    buf := AppendGlobals(buf, vars, true);
    buf := AppendLoadVertex(buf, vars);
    if TessControl in fm {
      ghost var pre := buf;
      buf := buf + [Comment("Function declarations:")];
      buf := AppendPrototypes(buf, fm[TessControl], "");
      AppendAssoc(pre, [Comment("Function declarations:")], Protos(fm[TessControl], ""));
    }
    buf := buf + [MainSig];
    var main := EmitTessControlMain(vars, fm);
    buf := buf + main;
    buf := buf + [End];
  }

  // ---------------------------------------------------------------------
  // Tessellation-evaluation stage

  /** One more varying adds its type to the set. */
  lemma TypeSetStep(vars: seq<Variable>, i: nat)
    requires i < |vars|
    ensures TypeSet(vars[..i + 1]) == OrderedSets.Insert(TypeSet(vars[..i]), vars[i].typ)
  {
    assert vars[..i + 1][..i] == vars[..i];
  }

  /** The `types` set of the varyings. */
  method CollectTypes(vars: seq<Variable>) returns (types: seq<string>)
    ensures types == TypeSet(vars)
  {
    types := [];
    var i := 0;
    while i < |vars|
      invariant 0 <= i <= |vars|
      invariant types == TypeSet(vars[..i])
    {
      TypeSetStep(vars, i);
      types := Insert(types, vars[i].typ);
      i := i + 1;
    }
    assert vars[..i] == vars;
  }

  method AppendInterpolatorProtos(buf: seq<Line>, types: seq<string>) returns (r: seq<Line>)
    ensures r == buf + InterpolatorProtos(types)
  {
    r := buf;
    var i := 0;
    while i < |types|
      invariant 0 <= i <= |types|
      invariant r == buf + InterpolatorProtos(types[..i])
    {
      var t := types[i];
      r := r + [Prototype(t, "VP_Interpolate3", t + "," + t + "," + t)];
      assert InterpolatorProtos(types[..i + 1]) == InterpolatorProtos(types[..i]) + [Prototype(t, "VP_Interpolate3", t + "," + t + "," + t)];
      i := i + 1;
    }
    assert types[..i] == types;
  }

  /** The element-by-element interpolation of an array varying. */
  method AppendElementInterpolations(buf: seq<Line>, name: string, size: int) returns (r: seq<Line>)
    ensures r == buf + ElementInterpolations(name, size)
  {
    r := buf;
    var n := 0;
    while n < size
      invariant 0 <= n <= if size > 0 then size else 0
      invariant r == buf + ElementInterpolations(name, n)
    {
      r := r + [Assign(Element(name, n), Interpolate3(Element(name, n)))];
      assert ElementInterpolations(name, n + 1) == ElementInterpolations(name, n) + [Assign(Element(name, n), Interpolate3(Element(name, n)))];
      n := n + 1;
    }
    if size <= 0 {
      assert ElementInterpolations(name, size) == [] == ElementInterpolations(name, 0);
    }
  }

  /** The interpolation of one varying. */
  method AppendInterpolateVar(buf: seq<Line>, v: Variable) returns (r: seq<Line>)
    ensures r == buf + InterpolateVar(v)
  {
    if v.interp != "flat" {
      if v.arraySize == 0 {
        r := buf + [Assign(v.name, Interpolate3(v.name))];
      } else {
        r := AppendElementInterpolations(buf, v.name, v.arraySize);
      }
    } else {
      r := buf + [Assign(v.name, "vp_in[0]." + v.name)];
    }
  }

  /** The body of `VP_Interpolate3()`. */
  method AppendInterpolation(buf: seq<Line>, vars: seq<Variable>) returns (r: seq<Line>)
    ensures r == buf + Interpolation(vars)
  {
    r := buf;
    var i := 0;
    while i < |vars|
      invariant 0 <= i <= |vars|
      invariant r == buf + Interpolation(vars[..i])
    {
      r := AppendInterpolateVar(r, vars[i]);
      assert vars[..i + 1][..i] == vars[..i];
      AppendAssoc(buf, Interpolation(vars[..i]), InterpolateVar(vars[i]));
      i := i + 1;
    }
    assert vars[..i] == vars;
  }

  /** The helper functions of the TES. */
  method EmitTessEvalHelpers(vars: seq<Variable>, fm: FunctionLocationMap) returns (r: seq<Line>)
    requires ModelToViewReady(fm)
    ensures r == TessEvalHelpers(vars, fm)
  {
    r := [Comment("Function declarations:")];
    r := AppendPrototypes(r, Names(fm, TessEvaluation), "");
    r := AppendPrototypes(r, Names(fm, VertexTransformModelToView), "");
    ghost var pre := r;
    var viewOn := VertexView in fm && ViewInTES(fm);
    if viewOn {
      r := AppendPrototypes(r, fm[VertexView], "inout vec4");
    }
    assert r == pre + (if viewOn then Protos(Names(fm, VertexView), "inout vec4") else []);
    pre := r;
    var clipOn := VertexClip in fm && ClipInTES(fm);
    if clipOn {
      r := AppendPrototypes(r, fm[VertexClip], "inout vec4");
    }
    assert r == pre + (if clipOn then Protos(Names(fm, VertexClip), "inout vec4") else []);
    r := AppendLoadVertex(r, vars);
    r := r + [Begin("void", "VP_Interpolate3", "")];
    r := AppendInterpolation(r, vars);
    r := r + [End];
    r := r + [Begin("void", "VP_EmitVertex", "")];
    var routing := EmitRouting(fm, viewOn, clipOn, !HasGS(fm));
    r := r + routing;
    r := AppendCopies(r, vars, "vp_out.", "");
    r := r + [Assign("gl_Position", "vp_Vertex"), End];
  }

  method EmitTessEvalMain(vars: seq<Variable>, fm: FunctionLocationMap) returns (r: seq<Line>)
    ensures r == TessEvalMain(vars, fm)
  {
    r := [Comment("copy default outputs:")];
    if TessEvaluation !in fm {
      r := AppendCopies(r, vars, "vp_out.", "vp_in[0].");
    }
    r := AppendCalls(r, Names(fm, TessEvaluation), "");
  }

  /** The tessellation-evaluation shader of `createMains`. */
  method EmitTessEvalShader(header: string, exts: seq<string>, vars: seq<Variable>, fields: seq<string>, fm: FunctionLocationMap)
    returns (buf: seq<Line>)
    requires WellFormed(fm) && HasTES(fm) && fields == Fields(vars)
    ensures buf == TessEvalShader(header, exts, vars, fm)
  {
    buf := [Header(header), VpName("VP Tessellation Evaluation (TES) Shader MAIN")];
    buf := AddExtensionsToBuffer(buf, exts);
    buf := buf + [Comment("TES stage inputs (required):"), Block("in", fields, "vp_in []")];
    buf := buf + [Comment("TES stage globals:")];
    buf := AppendGlobals(buf, vars, false);
    buf := buf + [Comment("TES stage outputs:"), Block("out", fields, "vp_out")];
    var types := CollectTypes(vars);
    buf := AppendInterpolatorProtos(buf, types);
    if TessEvaluation in fm || (VertexView in fm && ViewInTES(fm)) || (VertexClip in fm && ClipInTES(fm)) {
      var helpers := EmitTessEvalHelpers(vars, fm);
      buf := buf + helpers;
    }
    buf := buf + [MainSig];
    var main := EmitTessEvalMain(vars, fm);
    buf := buf + main;
    buf := buf + [End];
  }

  // ---------------------------------------------------------------------
  // Geometry stage

  method EmitGeometryDeclarations(fm: FunctionLocationMap) returns (r: seq<Line>)
    requires ModelToViewReady(fm)
    ensures r == GeometryDeclarations(fm)
  {
    r := [];
    if Geometry in fm || (VertexView in fm && ViewInGS(fm)) || (VertexClip in fm && ClipInGS(fm)) {
      r := [Comment("Injected function declarations:")];
      if VertexTransformModelToView in fm {
        r := r + [Prototype("void", fm[VertexTransformModelToView][0], "")];
      }
      assert r == [Comment("Injected function declarations:")] + Protos(FirstModelToView(fm), "");
      r := AppendPrototypes(r, Names(fm, Geometry), "");
      ghost var pre := r;
      var viewOn := VertexView in fm && ViewInGS(fm);
      if viewOn {
        r := AppendPrototypes(r, fm[VertexView], "inout vec4");
      }
      assert r == pre + (if viewOn then Protos(Names(fm, VertexView), "inout vec4") else []);
      pre := r;
      var clipOn := VertexClip in fm && ClipInGS(fm);
      if clipOn {
        r := AppendPrototypes(r, fm[VertexClip], "inout vec4");
      }
      assert r == pre + (if clipOn then Protos(Names(fm, VertexClip), "inout vec4") else []);
    }
  }

  /** `VP_EmitViewVertex` routing: the vertex starts in view space. */
  method EmitViewVertexRouting(fm: FunctionLocationMap, viewOn: bool, clipOn: bool) returns (r: seq<Line>)
    ensures r == ViewVertexRouting(fm, viewOn, clipOn)
  {
    r := [];
    var space := ViewSpace;
    if viewOn {
      r := AppendCalls(r, Names(fm, VertexView), "vp_Vertex");
      assert r == Calls(Names(fm, VertexView), "vp_Vertex");
    }
    ghost var view := r;
    if clipOn {
      r := r + [ToClip];
      space := ClipSpace;
      r := AppendCalls(r, Names(fm, VertexClip), "vp_Vertex");
      AppendAssoc(view, [ToClip], Calls(Names(fm, VertexClip), "vp_Vertex"));
    }
    if space == ViewSpace {
      r := r + [ToClip];
    }
  }

  /** One emit helper of the geometry stage. */
  method EmitHelperBody(name: string, routing: seq<Line>, vars: seq<Variable>) returns (r: seq<Line>)
    ensures r == EmitHelper(name, routing, vars)
  {
    r := [Begin("void", name, ""), Assign("vp_Vertex", "gl_Position")];
    r := r + routing;
    r := AppendCopies(r, vars, "vp_out.", "");
    r := r + [Assign("gl_Position", "vp_Vertex"), Call("EmitVertex", ""), End];
  }

  method EmitGeometryMain(vars: seq<Variable>, fm: FunctionLocationMap) returns (r: seq<Line>)
    ensures r == GeometryMain(vars, fm)
  {
    r := [Comment("copy default outputs:")];
    r := AppendCopies(r, vars, "vp_out.", "vp_in[0].");
    r := AppendCalls(r, Names(fm, Geometry), "");
  }

  /** The geometry shader of `createMains`. */
  method EmitGeometryShader(header: string, exts: seq<string>, vars: seq<Variable>, fields: seq<string>, fm: FunctionLocationMap)
    returns (buf: seq<Line>)
    requires WellFormed(fm) && HasGS(fm) && fields == Fields(vars)
    ensures buf == GeometryShader(header, exts, vars, fm)
  {
    var viewOn := VertexView in fm && ViewInGS(fm);
    var clipOn := VertexClip in fm && ClipInGS(fm);
    buf := [Header(header), VpName("VP Geometry Shader Main")];
    buf := AddExtensionsToBuffer(buf, exts);
    buf := buf + [Comment("Geometry stage inputs:"), Block("in", fields, "vp_in []")];
    buf := buf + [Comment("Geometry stage globals:")];
    buf := AppendGlobals(buf, vars, false);
    buf := buf + [Comment("Geometry stage outputs:"), Block("out", fields, "vp_out")];
    var decls := EmitGeometryDeclarations(fm);
    buf := buf + decls;
    buf := AppendLoadVertex(buf, vars);
    var model := EmitRouting(fm, viewOn, clipOn, true);
    var modelHelper := EmitHelperBody("VP_EmitModelVertex", model, vars);
    buf := buf + modelHelper;
    var view := EmitViewVertexRouting(fm, viewOn, clipOn);
    var viewHelper := EmitHelperBody("VP_EmitViewVertex", view, vars);
    buf := buf + viewHelper;
    buf := buf + [MainSig];
    var main := EmitGeometryMain(vars, fm);
    buf := buf + main;
    buf := buf + [End];
  }

  // ---------------------------------------------------------------------
  // Fragment stage

  method EmitFragmentDeclarations(fm: FunctionLocationMap) returns (r: seq<Line>)
    ensures r == FragmentDeclarations(fm)
  {
    r := [];
    if FragmentColoring in fm || FragmentLighting in fm || FragmentOutput in fm {
      r := r + [Comment("Function declarations:")];
    }
    r := AppendPrototypes(r, Names(fm, FragmentColoring), "inout vec4 color");
    r := AppendPrototypes(r, Names(fm, FragmentLighting), "inout vec4 color");
    r := AppendPrototypes(r, Names(fm, FragmentOutput), "inout vec4 color");
  }

  /** The body of the fragment `main`, with the two-pass loop. */
  method EmitFragmentMain(vars: seq<Variable>, fm: FunctionLocationMap) returns (r: seq<Line>)
    ensures r == FragmentMain(vars, fm)
  {
    r := AppendCopies([], vars, "", "vp_in.");
    assert r == Copies(vars, "", "vp_in.");
    r := r + [Renormalize];
    ghost var passes := r;
    ghost var coloring := Calls(Names(fm, FragmentColoring), "vp_Color");
    ghost var lighting := Calls(Names(fm, FragmentLighting), "vp_Color");
    for pass := 0 to 2
      invariant r == passes + (if pass >= 1 then coloring else []) + (if pass >= 2 then lighting else [])
    {
      if FragmentColoring in fm && pass == 0 {
        r := AppendCalls(r, fm[FragmentColoring], "vp_Color");
      }
      if FragmentLighting in fm && pass == 1 {
        r := AppendCalls(r, fm[FragmentLighting], "vp_Color");
      }
    }
    AppendAssoc(passes, coloring, lighting);
    if FragmentOutput in fm {
      r := AppendCalls(r, fm[FragmentOutput], "vp_Color");
    } else {
      r := r + [DefaultOutput];
    }
  }

  /** The fragment shader of `createMains`. */
  method EmitFragmentShader(header: string, exts: seq<string>, vars: seq<Variable>, fields: seq<string>, fm: FunctionLocationMap)
    returns (buf: seq<Line>)
    requires fields == Fields(vars)
    ensures buf == FragmentShader(header, exts, vars, fm)
  {
    buf := [Header(header), VpName("VP Fragment Shader Main")];
    buf := AddExtensionsToBuffer(buf, exts);
    if FragmentOutput !in fm {
      buf := buf + [Comment("Fragment output"), FragColorOut];
    }
    var body := [Comment("Fragment stage inputs:"), Block("in", fields, "vp_in")];
    body := body + [Comment("Fragment stage globals:")];
    body := AppendGlobals(body, vars, true);
    var decls := EmitFragmentDeclarations(fm);
    body := body + decls;
    body := body + [MainSig];
    var main := EmitFragmentMain(vars, fm);
    body := body + main;
    body := body + [End];
    buf := buf + body;
  }

  // ---------------------------------------------------------------------
  // The factory

  /** The stage blocks of `createMains`: each optional block adds its stage
      to the mask and its shader to the list only when the stage is built. */
  method BuildStages(header: string, exts: seq<string>, vars: seq<Variable>, fm: FunctionLocationMap)
    returns (mask: set<StageKind>, built: seq<Shader>)
    requires WellFormed(fm)
    ensures mask == StageMask(fm)
    ensures built == Mains(header, exts, vars, fm)
  {
    mask := {Vertex, Fragment};
    var fields := BuildFields(vars);
    var vs := EmitVertexShader(header, exts, vars, fields, fm);
    built := [Shader(Vertex, vs)];
    mask, built := AddTessControlStage(mask, built, header, exts, vars, fields, fm);
    mask, built := AddTessEvalStage(mask, built, header, exts, vars, fields, fm);
    mask, built := AddGeometryStage(mask, built, header, exts, vars, fields, fm);
    var fs := EmitFragmentShader(header, exts, vars, fields, fm);
    built := built + [Shader(Fragment, fs)];
  }

  method AddTessControlStage(mask: set<StageKind>, built: seq<Shader>, header: string, exts: seq<string>,
                             vars: seq<Variable>, fields: seq<string>, fm: FunctionLocationMap)
    returns (mask': set<StageKind>, built': seq<Shader>)
    requires fields == Fields(vars)
    ensures mask' == mask + (if HasTCS(fm) then {TessControlStage} else {})
    ensures built' == built + (if HasTCS(fm) then [Shader(TessControlStage, TessControlShader(header, exts, vars, fm))] else [])
  {
    mask', built' := mask, built;
    if HasTCS(fm) {
      mask' := mask' + {TessControlStage};
      var tcs := EmitTessControlShader(header, exts, vars, fields, fm);
      built' := built' + [Shader(TessControlStage, tcs)];
    }
  }

  method AddTessEvalStage(mask: set<StageKind>, built: seq<Shader>, header: string, exts: seq<string>,
                          vars: seq<Variable>, fields: seq<string>, fm: FunctionLocationMap)
    returns (mask': set<StageKind>, built': seq<Shader>)
    requires WellFormed(fm) && fields == Fields(vars)
    ensures mask' == mask + (if HasTES(fm) then {TessEvaluationStage} else {})
    ensures built' == built + (if HasTES(fm) then [Shader(TessEvaluationStage, TessEvalShader(header, exts, vars, fm))] else [])
  {
    mask', built' := mask, built;
    if HasTES(fm) {
      mask' := mask' + {TessEvaluationStage};
      var tes := EmitTessEvalShader(header, exts, vars, fields, fm);
      built' := built' + [Shader(TessEvaluationStage, tes)];
    }
  }

  method AddGeometryStage(mask: set<StageKind>, built: seq<Shader>, header: string, exts: seq<string>,
                          vars: seq<Variable>, fields: seq<string>, fm: FunctionLocationMap)
    returns (mask': set<StageKind>, built': seq<Shader>)
    requires WellFormed(fm) && fields == Fields(vars)
    ensures mask' == mask + (if HasGS(fm) then {GeometryStage} else {})
    ensures built' == built + (if HasGS(fm) then [Shader(GeometryStage, GeometryShader(header, exts, vars, fm))] else [])
  {
    mask', built' := mask, built;
    if HasGS(fm) {
      mask' := mask' + {GeometryStage};
      var gs := EmitGeometryShader(header, exts, vars, fields, fm);
      built' := built' + [Shader(GeometryStage, gs)];
    }
  }

  class ShaderFactory {
    /** What `Capabilities` and `GLUtils` report. */
    const caps: Capabilities
    /** `s_glslHeader`: empty until first computed. */
    var glslHeader: string

    ghost predicate Valid()
      reads this
    {
      glslHeader == "" || glslHeader == GLSLHeader(caps)
    }

    constructor (caps: Capabilities)
      ensures Valid() && this.caps == caps && glslHeader == ""
    {
      this.caps := caps;
      glslHeader := "";
    }

    /** `getGLSLHeader`: computed on the first call and then returned
        unchanged. */
    method GetGLSLHeader() returns (h: string)
      requires Valid()
      modifies this
      ensures Valid() && h == GLSLHeader(caps) && glslHeader == h
      ensures old(glslHeader) != "" ==> glslHeader == old(glslHeader)
    {
      if glslHeader == "" {
        var buf := "#version " + IntToString(caps.glslVersion);
        if caps.gles {
          buf := buf + PrecisionLine;
        } else if caps.useNVGL {
          buf := buf + GpuShader5Line;
        } else if caps.glslVersion >= 130 {
          if caps.supportsInt64 {
            buf := buf + Int64Line;
          }
        }
        assert buf == GLSLHeader(caps);
        glslHeader := buf;
      }
      h := glslHeader;
    }

    /** `createMains`: the stage mask, and the shaders appended to
        `outShaders` in pipeline order, built from the varyings harvested
        out of `shaders` and the registered functions `fm`. */
    method CreateMains(fm: FunctionLocationMap, shaders: seq<ShaderEntry>, exts: seq<string>, outShaders: seq<Shader>)
      returns (mask: set<StageKind>, out: seq<Shader>, defs: seq<string>, vars: seq<Variable>)
      requires Valid() && WellFormed(fm)
      modifies this
      ensures Valid() && glslHeader == GLSLHeader(caps)
      ensures mask == StageMask(fm)
      ensures VaryingSet(shaders, HasTCS(fm) || HasTES(fm) || HasGS(fm), defs)
      ensures vars == ParsedVariables(defs)
      ensures out == outShaders + Mains(GLSLHeader(caps), exts, vars, fm)
    {
      defs := HarvestVaryings(shaders, HasTCS(fm) || HasTES(fm) || HasGS(fm));
      vars := ParseVaryings(defs);
      var header := GetGLSLHeader();
      var built;
      mask, built := BuildStages(header, exts, vars, fm);
      out := outShaders + built;
    }

    /** `createColorFilterChainFragmentShader`. */
    method CreateColorFilterChainFragmentShader(entry: string, chain: seq<string>) returns (src: seq<Line>)
      requires Valid()
      modifies this
      ensures Valid() && glslHeader == GLSLHeader(caps)
      ensures src == ColorFilterChain(GLSLHeader(caps), entry, chain)
    {
      var header := GetGLSLHeader();
      src := [Header(header)];
      src := AppendPrototypes(src, chain, "inout vec4 color");
      src := src + [Begin("void", entry, "inout vec4 color")];
      src := AppendCalls(src, chain, "color");
      src := src + [End];
    }
  }
}
