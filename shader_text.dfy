/** The vocabulary of `ShaderFactory`: varying variables, the registered
    injection locations, and the GLSL text the factory writes, one `Line`
    per statement or declaration.  White space and line breaks are not
    modelled; every other piece of text is kept. */
module ShaderText {
  import opened Strings

  /** `Variable` in ShaderFactory.cpp: one varying of the interface block. */
  datatype Variable = Variable(
    interp: string,       // interpolation qualifier, or ""
    typ: string,          // GLSL type
    name: string,         // name without array brackets
    prec: string,         // precision qualifier, or ""
    declaration: string,  // type, name and array brackets
    arraySize: int)       // 0 unless declared as an array

  /** `VirtualProgram::FunctionLocation`. */
  datatype Location =
    | VertexModel | VertexView | VertexClip
    | TessControl | TessEvaluation | Geometry
    | FragmentColoring | FragmentLighting | FragmentOutput
    | VertexTransformModelToView

  /** The registered functions: a location present in the map stands for a
      non-null `OrderedFunctionMap*`, and its value lists the entry-point
      names in the map's iteration order. */
  type FunctionLocationMap = map<Location, seq<string>>

  /** The pipeline stages (`VirtualProgram::STAGE_*`). */
  datatype StageKind = Vertex | TessControlStage | TessEvaluationStage | GeometryStage | Fragment

  /** One line of generated GLSL. */
  datatype Line =
    | Header(text: string)                                   // getGLSLHeader()
    | VpName(name: string)                                   // #pragma vp_name <name>
    | Extension(ext: string)                                 // #extension <ext> : enable
    | Comment(text: string)                                  // // <text>
    | Global(declaration: string)                            // <declaration>;
    | FragOut(typ: string, name: string)                     // out <typ> <name>;
    | Block(storage: string, fields: seq<string>, instance: string) // <storage> VP_PerVertex { <field>; ... } <instance>;
    | Prototype(ret: string, name: string, params: string)   // <ret> <name>(<params>);
    | Begin(ret: string, name: string, params: string)       // <ret> <name>(<params>) {
    | End                                                    // }
    | Assign(lhs: string, rhs: string)                       // <lhs> = <rhs>;
    | Call(name: string, args: string)                       // <name>(<args>);

  /** A generated shader and the stage it is for. */
  datatype Shader = Shader(kind: StageKind, source: seq<Line>)

  /** `q + (q.empty() ? "" : " ") + s`. */
  function Qualified(q: string, s: string): string {
    if q == "" then s else q + " " + s
  }

  /** A field of the `VP_PerVertex` interface block. */
  function FieldText(v: Variable): string {
    Qualified(v.interp, Qualified(v.prec, v.declaration))
  }

  /** The fields of the interface block, one per variable, in order. */
  function Fields(vars: seq<Variable>): (r: seq<string>)
    ensures |r| == |vars| && forall i :: 0 <= i < |vars| ==> r[i] == FieldText(vars[i])
  {
    seq(|vars|, i requires 0 <= i < |vars| => FieldText(vars[i]))
  }

  /** `#extension <e> : enable` for each extension, in order. */
  function Extensions(exts: seq<string>): (r: seq<Line>)
    ensures |r| == |exts| && forall i :: 0 <= i < |exts| ==> r[i] == Extension(exts[i])
  {
    seq(|exts|, i requires 0 <= i < |exts| => Extension(exts[i]))
  }

  /** The stage globals: each declaration, with its precision when
      `withPrec`. */
  function Globals(vars: seq<Variable>, withPrec: bool): (r: seq<Line>)
    ensures |r| == |vars|
    ensures forall i :: 0 <= i < |vars| ==>
      r[i] == Global(if withPrec then Qualified(vars[i].prec, vars[i].declaration) else vars[i].declaration)
  {
    seq(|vars|, i requires 0 <= i < |vars| =>
      Global(if withPrec then Qualified(vars[i].prec, vars[i].declaration) else vars[i].declaration))
  }

  /** `<lhsPrefix><name> = <rhsPrefix><name>;` for each variable. */
  function Copies(vars: seq<Variable>, lhsPrefix: string, rhsPrefix: string): (r: seq<Line>)
    ensures |r| == |vars|
    ensures forall i :: 0 <= i < |vars| ==> r[i] == Assign(lhsPrefix + vars[i].name, rhsPrefix + vars[i].name)
  {
    seq(|vars|, i requires 0 <= i < |vars| => Assign(lhsPrefix + vars[i].name, rhsPrefix + vars[i].name))
  }

  /** `void <name>(<params>);` for each name, in order. */
  function Protos(names: seq<string>, params: string): (r: seq<Line>)
    ensures |r| == |names| && forall i :: 0 <= i < |names| ==> r[i] == Prototype("void", names[i], params)
  {
    seq(|names|, i requires 0 <= i < |names| => Prototype("void", names[i], params))
  }

  /** `<name>(<args>);` for each name, in order. */
  function Calls(names: seq<string>, args: string): (r: seq<Line>)
    ensures |r| == |names| && forall i :: 0 <= i < |names| ==> r[i] == Call(names[i], args)
  {
    seq(|names|, i requires 0 <= i < |names| => Call(names[i], args))
  }

  /** Regrouping a concatenation. */
  lemma AppendAssoc<T>(a: seq<T>, b: seq<T>, c: seq<T>)
    ensures a + (b + c) == a + b + c
  {
  }

  /** The functions called by a run of lines, in order. */
  function CallNames(lines: seq<Line>): seq<string>
    decreases |lines|
  {
    if |lines| == 0 then []
    else CallNames(lines[..|lines| - 1]) + (if lines[|lines| - 1].Call? then [lines[|lines| - 1].name] else [])
  }

  lemma {:induction false} CallNamesAppend(a: seq<Line>, b: seq<Line>)
    ensures CallNames(a + b) == CallNames(a) + CallNames(b)
    decreases |b|
  {
    if |b| > 0 {
      assert (a + b)[..|a + b| - 1] == a + b[..|b| - 1];
      CallNamesAppend(a, b[..|b| - 1]);
    } else {
      assert a + b == a;
    }
  }

  /** A run of calls calls exactly the listed functions, in order. */
  lemma {:induction false} CallNamesCalls(names: seq<string>, args: string)
    ensures CallNames(Calls(names, args)) == names
    decreases |names|
  {
    if |names| > 0 {
      assert Calls(names, args)[..|names| - 1] == Calls(names[..|names| - 1], args);
      CallNamesCalls(names[..|names| - 1], args);
    }
  }

  /** Lines that call nothing. */
  predicate NoCalls(lines: seq<Line>) {
    forall i :: 0 <= i < |lines| ==> !lines[i].Call?
  }

  lemma {:induction false} CallNamesNone(lines: seq<Line>)
    requires NoCalls(lines)
    ensures CallNames(lines) == []
    decreases |lines|
  {
    if |lines| > 0 {
      CallNamesNone(lines[..|lines| - 1]);
    }
  }
}
