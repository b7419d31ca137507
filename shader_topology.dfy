/** Which stages `ShaderFactory::createMains` builds and where it places the
    view and clip vertex functions: the `has*` and `*StageIn*` booleans of
    ShaderFactory.cpp. */
module ShaderTopology {
  import opened ShaderText

  /** The functions registered at `loc`, in order; none when the location
      is absent. */
  function Names(fm: FunctionLocationMap, loc: Location): seq<string> {
    if loc in fm then fm[loc] else []
  }

  /** A stage is built only for a present, non-empty function list. */
  predicate HasStage(fm: FunctionLocationMap, loc: Location) {
    loc in fm && |fm[loc]| > 0
  }

  predicate HasGS(fm: FunctionLocationMap) { HasStage(fm, Geometry) }
  predicate HasTCS(fm: FunctionLocationMap) { HasStage(fm, TessControl) }
  predicate HasTES(fm: FunctionLocationMap) { HasStage(fm, TessEvaluation) }

  predicate ViewInGS(fm: FunctionLocationMap) { HasGS(fm) }
  predicate ViewInTES(fm: FunctionLocationMap) { !ViewInGS(fm) && HasTES(fm) }
  predicate ViewInVS(fm: FunctionLocationMap) { !ViewInTES(fm) && !ViewInGS(fm) }

  predicate ClipInGS(fm: FunctionLocationMap) { HasGS(fm) }
  predicate ClipInTES(fm: FunctionLocationMap) { HasTES(fm) && !HasGS(fm) }
  predicate ClipInVS(fm: FunctionLocationMap) { !ClipInGS(fm) && !ClipInTES(fm) }

  /** The view and clip placements are the same, exactly one stage holds
      them, and a geometry stage wins over a tessellation-evaluation stage,
      which wins over the vertex stage. */
  lemma Placement(fm: FunctionLocationMap)
    ensures ClipInGS(fm) == ViewInGS(fm) && ClipInTES(fm) == ViewInTES(fm) && ClipInVS(fm) == ViewInVS(fm)
    ensures (if ViewInGS(fm) then 1 else 0) + (if ViewInTES(fm) then 1 else 0) + (if ViewInVS(fm) then 1 else 0) == 1
    ensures ViewInGS(fm) <==> HasGS(fm)
    ensures ViewInTES(fm) <==> !HasGS(fm) && HasTES(fm)
    ensures ViewInVS(fm) <==> !HasGS(fm) && !HasTES(fm)
  {
  }

  /** The stages built, in the order their shaders are appended. */
  function ActiveStages(fm: FunctionLocationMap): seq<StageKind> {
    [Vertex]
    + (if HasTCS(fm) then [TessControlStage] else [])
    + (if HasTES(fm) then [TessEvaluationStage] else [])
    + (if HasGS(fm) then [GeometryStage] else [])
    + [Fragment]
  }

  /** The returned `StageMask`. */
  function StageMask(fm: FunctionLocationMap): (mask: set<StageKind>)
    ensures Vertex in mask && Fragment in mask
    ensures TessControlStage in mask <==> HasTCS(fm)
    ensures TessEvaluationStage in mask <==> HasTES(fm)
    ensures GeometryStage in mask <==> HasGS(fm)
  {
    {Vertex, Fragment}
    + (if HasTCS(fm) then {TessControlStage} else {})
    + (if HasTES(fm) then {TessEvaluationStage} else {})
    + (if HasGS(fm) then {GeometryStage} else {})
  }

  /** The mask holds exactly the stages built, each built once, and the
      vertex shader comes first and the fragment shader last. */
  lemma StageMaskMatchesStages(fm: FunctionLocationMap)
    ensures forall k :: k in StageMask(fm) <==> k in ActiveStages(fm)
    ensures forall i, j :: 0 <= i < j < |ActiveStages(fm)| ==> ActiveStages(fm)[i] != ActiveStages(fm)[j]
    ensures ActiveStages(fm)[0] == Vertex && ActiveStages(fm)[|ActiveStages(fm)| - 1] == Fragment
  {
  }

  /** Whether some emitted text dereferences the first model-to-view
      function: the vertex stage with view or clip functions, and every
      tessellation-evaluation or geometry stage. */
  predicate UsesModelToView(fm: FunctionLocationMap) {
    HasGS(fm) || HasTES(fm) || VertexView in fm || VertexClip in fm
  }

  /** `xformModelToView->begin()` is never taken of an empty list. */
  predicate WellFormed(fm: FunctionLocationMap) {
    VertexTransformModelToView in fm && |fm[VertexTransformModelToView]| == 0 ==> !UsesModelToView(fm)
  }
}
