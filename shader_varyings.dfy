/** The varying harvest and the declaration parser of
    `ShaderFactory::createMains`. */
module ShaderVaryings {
  import opened Wrappers
  import opened Strings
  import opened OrderedSets
  import opened ShaderText

  /** The `vp_varying_in` and `vp_varying_out` pragma values of a shader's
      source, as `ShaderLoader::getAllPragmaValues` reports them. */
  datatype Pragmas = Pragmas(varyingIn: seq<string>, varyingOut: seq<string>)

  /** An entry of the `ShaderMap`: its nominal shader, if it has one. */
  datatype ShaderEntry = ShaderEntry(nominal: Option<Pragmas>)

  /** The four built-in varyings, in the order they are inserted. */
  const Builtins: seq<string> := ["vec4 vp_Color", "vec3 vp_Normal", "vec4 vp_Vertex", "vec3 vp_VertexView"]

  /** Whether one shader entry contributes declaration `d`: a
      `vp_varying_in` of its nominal shader, or, when `withOuts`, a
      `vp_varying_out` of it. */
  predicate Contributes(e: ShaderEntry, withOuts: bool, d: string) {
    e.nominal.Some? && (d in e.nominal.value.varyingIn || (withOuts && d in e.nominal.value.varyingOut))
  }

  /** The declarations of one entry added to the set. */
  function AddEntry(defs: seq<string>, e: ShaderEntry, withOuts: bool): (r: seq<string>)
    requires StrictlySorted(defs)
    ensures StrictlySorted(r)
    ensures forall d :: d in r <==> d in defs || Contributes(e, withOuts, d)
  {
    match e.nominal
    case Some(p) => if withOuts then InsertAll(InsertAll(defs, p.varyingIn), p.varyingOut) else InsertAll(defs, p.varyingIn)
    case None => defs
  }

  ghost predicate Harvested(shaders: seq<ShaderEntry>, withOuts: bool, d: string) {
    exists i :: 0 <= i < |shaders| && Contributes(shaders[i], withOuts, d)
  }

  lemma HarvestedPrefix(shaders: seq<ShaderEntry>, i: int, withOuts: bool)
    requires 0 <= i < |shaders|
    ensures forall d :: Harvested(shaders[..i + 1], withOuts, d) <==>
      Harvested(shaders[..i], withOuts, d) || Contributes(shaders[i], withOuts, d)
  {
    forall d ensures Harvested(shaders[..i + 1], withOuts, d) <==>
        Harvested(shaders[..i], withOuts, d) || Contributes(shaders[i], withOuts, d) {
      if Harvested(shaders[..i], withOuts, d) {
        var j :| 0 <= j < i && Contributes(shaders[..i][j], withOuts, d);
        assert shaders[..i + 1][j] == shaders[..i][j];
      }
      if Contributes(shaders[i], withOuts, d) {
        assert shaders[..i + 1][i] == shaders[i];
      }
      if Harvested(shaders[..i + 1], withOuts, d) {
        var j :| 0 <= j < i + 1 && Contributes(shaders[..i + 1][j], withOuts, d);
        if j < i {
          assert shaders[..i][j] == shaders[..i + 1][j];
        }
      }
    }
  }

  /** The `varDefs` set: the built-ins, every harvested `vp_varying_in`, and
      the `vp_varying_out`s when an intermediate stage exists (`withOuts`).
      The set is ordered and has no duplicate declaration text. */
  method HarvestVaryings(shaders: seq<ShaderEntry>, withOuts: bool) returns (defs: seq<string>)
    ensures VaryingSet(shaders, withOuts, defs)
  {
    defs := InsertAll([], Builtins);
    defs := HarvestInto(defs, shaders, withOuts);
  }

  /** `defs` is the ordered set of the built-ins and the harvested
      declarations. */
  ghost predicate VaryingSet(shaders: seq<ShaderEntry>, withOuts: bool, defs: seq<string>) {
    StrictlySorted(defs) && forall d :: d in defs <==> d in Builtins || Harvested(shaders, withOuts, d)
  }

  /** The loop over the shader map, adding each entry's declarations to the
      set `seed`. */
  method HarvestInto(seed: seq<string>, shaders: seq<ShaderEntry>, withOuts: bool) returns (defs: seq<string>)
    requires StrictlySorted(seed)
    ensures StrictlySorted(defs)
    ensures forall d :: d in defs <==> d in seed || Harvested(shaders, withOuts, d)
  {
    defs := seed;
    var i := 0;
    while i < |shaders|
      invariant 0 <= i <= |shaders|
      invariant StrictlySorted(defs)
      invariant forall d :: d in defs <==> d in seed || Harvested(shaders[..i], withOuts, d)
    {
      defs := AddEntry(defs, shaders[i], withOuts);
      HarvestedPrefix(shaders, i, withOuts);
      i := i + 1;
    }
    assert shaders[..i] == shaders;
  }

  // ---------------------------------------------------------------------
  // Declarations

  const InterpQualifiers: set<string> := {"flat", "nonperspective", "smooth"}
  const PrecQualifiers: set<string> := {"lowp", "mediump", "highp"}

  /** The tokenizer `createMains` runs on each declaration: blanks and tabs
      separate tokens, `[` and `]` are tokens of their own. */
  function DeclarationTokens(d: string): seq<string> {
    Tokenize(d, {' ', '\t'}, {'[', ']'}, true)
  }

  /** One declaration's tokens turned into a `Variable`: an optional
      interpolation qualifier, an optional precision, a type, a name and an
      optional `[ n ]`.  None when the variable is dropped. */
  function ParseDeclaration(t: seq<string>): (r: Option<Variable>)
    ensures |t| < 2 ==> r.None?
    ensures r.Some? ==> r.value.typ != "" && r.value.name != "" && r.value.declaration != ""
    ensures r.Some? ==> r.value.interp in InterpQualifiers + {""} && r.value.prec in PrecQualifiers + {""}
    ensures r.Some? ==> r.value.typ in t && r.value.name in t
  {
    if |t| < 2 then None
    else
      var interp := if t[0] in InterpQualifiers then t[0] else "";
      var p0 := if t[0] in InterpQualifiers then 1 else 0;
      var prec := if t[p0] in PrecQualifiers then t[p0] else "";
      var p := if t[p0] in PrecQualifiers then p0 + 1 else p0;
      if p + 1 < |t| then
        var typ := t[p];
        var name := t[p + 1];
        var q := p + 2;
        var isArray := q + 2 < |t| && t[q] == "[" && t[q + 2] == "]";
        var declaration := if isArray then typ + " " + name + t[q] + t[q + 1] + t[q + 2] else typ + " " + name;
        var arraySize := if isArray then ParseInt(t[q + 1]) else 0;
        if typ != "" && name != "" && declaration != "" then
          Some(Variable(interp, typ, name, prec, declaration, arraySize))
        else None
      else None
  }

  /** The tokens of a declaration written from its parts. */
  function DeclarationParts(interp: string, prec: string, typ: string, name: string, size: Option<string>): seq<string> {
    (if interp == "" then [] else [interp]) + (if prec == "" then [] else [prec]) + [typ, name]
    + (match size case Some(n) => ["[", n, "]"] case None => [])
  }

  /** Parsing the tokens of a declaration gives back its parts, the array
      size being `as<int>` of the bracketed token, and 0 without one. */
  lemma ParseDeclarationParts(interp: string, prec: string, typ: string, name: string, size: Option<string>)
    requires interp in InterpQualifiers + {""} && prec in PrecQualifiers + {""}
    requires typ != "" && name != "" && typ !in InterpQualifiers + PrecQualifiers
    ensures ParseDeclaration(DeclarationParts(interp, prec, typ, name, size)) ==
      Some(Variable(interp, typ, name, prec,
        typ + " " + name + (match size case Some(n) => "[" + n + "]" case None => ""),
        match size case Some(n) => ParseInt(n) case None => 0))
  {
    var t := DeclarationParts(interp, prec, typ, name, size);
    var k := (if interp == "" then 0 else 1) + (if prec == "" then 0 else 1);
    assert "flat" !in PrecQualifiers && "nonperspective" !in PrecQualifiers && "smooth" !in PrecQualifiers;
    assert t[k] == typ && t[k + 1] == name;
    match size {
      case Some(n) =>
        assert |t| == k + 5 && t[k + 2] == "[" && t[k + 3] == n && t[k + 4] == "]";
        assert typ + " " + name + "[" + n + "]" == typ + " " + name + ("[" + n + "]");
      case None =>
        assert |t| == k + 2;
        assert typ + " " + name + "" == typ + " " + name;
    }
  }

  /** A token that the declaration tokenizer leaves whole. */
  predicate PlainToken(t: string) {
    t != "" && Plain(t, {' ', '\t'}, {'[', ']'})
  }

  /** A plain `type name` declaration (such as each built-in) parses to a
      variable of that type and name with no qualifiers and no array. */
  lemma ParseTypeAndName(typ: string, name: string)
    requires PlainToken(typ) && PlainToken(name) && typ !in InterpQualifiers + PrecQualifiers
    ensures ParseDeclaration(DeclarationTokens(typ + " " + name)) == Some(Variable("", typ, name, "", typ + " " + name, 0))
  {
    TokenizeTwoWords(typ, ' ', name, {' ', '\t'}, {'[', ']'}, true);
    assert DeclarationTokens(typ + " " + name) == [typ, name];
    ParseDeclarationParts("", "", typ, name, None);
    assert DeclarationParts("", "", typ, name, None) == [typ, name];
  }

  /** The variables `createMains` keeps, in the order of the declarations. */
  function ParsedVariables(defs: seq<string>): seq<Variable>
    decreases |defs|
  {
    if |defs| == 0 then []
    else
      ParsedVariables(defs[..|defs| - 1])
      + (match ParseDeclaration(DeclarationTokens(defs[|defs| - 1])) case Some(v) => [v] case None => [])
  }

  /** The parse loop over `varDefs`: every kept variable has a type and a
      name, in declaration order. */
  method ParseVaryings(defs: seq<string>) returns (vars: seq<Variable>)
    ensures vars == ParsedVariables(defs)
    ensures forall v :: v in vars ==> v.typ != "" && v.name != ""
  {
    vars := [];
    var i := 0;
    while i < |defs|
      invariant 0 <= i <= |defs|
      invariant vars == ParsedVariables(defs[..i])
      invariant forall v :: v in vars ==> v.typ != "" && v.name != ""
    {
      var tokens := DeclarationTokens(defs[i]);
      match ParseDeclaration(tokens) {
        case Some(v) => vars := vars + [v];
        case None =>
      }
      assert defs[..i + 1][..i] == defs[..i];
      i := i + 1;
    }
    assert defs[..i] == defs;
  }

  /** A plain `type name` declaration of the set becomes a variable of
      every stage. */
  lemma PlainDeclarationKept(defs: seq<string>, typ: string, name: string)
    requires typ + " " + name in defs
    requires PlainToken(typ) && PlainToken(name) && typ !in InterpQualifiers + PrecQualifiers
    ensures exists v :: v in ParsedVariables(defs) && v == Variable("", typ, name, "", typ + " " + name, 0)
  {
    var k :| 0 <= k < |defs| && defs[k] == typ + " " + name;
    ParseTypeAndName(typ, name);
    ParsedVariablesKeeps(defs, k);
  }

  /** A declaration that parses is kept. */
  lemma {:induction false} ParsedVariablesKeeps(defs: seq<string>, k: int)
    requires 0 <= k < |defs| && ParseDeclaration(DeclarationTokens(defs[k])).Some?
    ensures ParseDeclaration(DeclarationTokens(defs[k])).value in ParsedVariables(defs)
    decreases |defs|
  {
    if k < |defs| - 1 {
      assert defs[..|defs| - 1][k] == defs[k];
      ParsedVariablesKeeps(defs[..|defs| - 1], k);
    }
  }
}
