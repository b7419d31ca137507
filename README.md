# osgEarth shader composition and companions, modelled in Dafny

This project models the core of osgEarth's `ShaderFactory`, plus six smaller pieces of logic from other osgEarth files, and proves properties of each.

`ShaderFactory::createMains` takes the functions registered at each `VirtualProgram` injection location and composes the GLSL "main" shader of every active pipeline stage. It works in five steps:
- It decides which stages exist.
- It places the view and clip vertex functions in one of those stages.
- It harvests the `vp_varying_in` and `vp_varying_out` declarations into an ordered set.
- It parses each declaration into a varying `Variable`.
- It writes, stage by stage, the interface blocks, globals, prototypes, helper functions and a `main` that calls the registered functions in order.

The other pieces are:
- **`StyleSheet`:** named styles, the style lookups, and the automatic selector script that is generated on load and dropped on save.
- **`DrawInstanced`:** the mesher's vertex de-duplication, the packing of instance matrices and object IDs into a texture buffer, and the LOD and drawable conversion.
- **`HTM`:** the hierarchical triangular mesh: insertion, splitting, child naming and the eight base triangles.
- **KML geometry reader:** tag dispatch, the coordinate tokenizer and the `altitudeMode` decision table.
- **`MaterialLoader`:** the file-name manglers and the per-unit tables.
- **EGM84 vertical datum:** the re-indexing of the 721 × 361 geoid grid.

Shader text is modelled as a sequence of `Line`s (`ShaderText.Line`): one per declaration, statement, prototype, function start or function end. White space and line breaks are dropped; every other piece of text is kept. An `OrderedFunctionMap` is the sequence of its entry-point names in iteration order. A location that is present in the `FunctionLocationMap` stands for a non-null entry in the C++ map, even when its list is empty.

Each state-changing method of the source becomes a Dafny `method`, written as the C++ writes it, and proved equal to a specification function. The properties are then proved about those functions.

Modules:
- **Support modules:**
  - `Wrappers` holds `Option`.
  - `Strings` holds lexicographic order, trimming, the `StringTokenizer` used by the source, integer text, and find.
  - `OrderedSets` models `std::set<std::string>` as a strictly sorted sequence.
  - `OrderedMaps` models `std::map<std::string, V>` as a key-sorted list of pairs.
- **`ShaderFactory.cpp`:**
  - `ShaderText` holds the varyings and the text.
  - `ShaderTopology` holds the stages and their placement.
  - `ShaderVaryings` holds the harvest and the parse.
  - `ShaderStages` holds the specification of every stage's text.
  - `ShaderFactory` holds the methods that write it.
- **The other files** have one module each: `StyleSheet`, `DrawInstanced`, `HTM`, `KML`, `MaterialLoader`, `EGM84`.

## Model

Every path below is relative to the repository root.

| member | source | states |
|---|---|---|
| ShaderTopology.StageMask | src/osgEarth/ShaderFactory.cpp:206-211 | The returned mask always holds VERTEX and FRAGMENT. It holds TESSCONTROL, TESSEVALUATION or GEOMETRY exactly when that location is present with a non-empty function list. |
| ShaderTopology.StageMaskMatchesStages | src/osgEarth/ShaderFactory.cpp:334-336 | The mask holds exactly the stages whose shaders are built, and each is built once. The vertex shader comes first and the fragment shader last. |
| ShaderTopology.Placement | src/osgEarth/ShaderFactory.cpp:213-220 | Exactly one stage runs the view functions: the geometry stage if there is one, else the tessellation-evaluation stage if there is one, else the vertex stage. The clip functions always go where the view functions go. |
| ShaderText.CallNamesCalls | src/osgEarth/ShaderFactory.cpp:412-418 | A run of calls calls exactly the listed functions, each once, in order. |
| ShaderText.CallNamesAppend | src/osgEarth/ShaderFactory.cpp:403-418 | The functions called by text written in two parts are those of the first part followed by those of the second. |
| ShaderText.CallNamesNone | src/osgEarth/ShaderFactory.cpp:403-410 | Text with no call statement calls no function. |
| OrderedSets.Insert | src/osgEarth/ShaderFactory.cpp:223-230 | `std::set::insert` keeps the set strictly sorted, adds the element, and adds nothing else. |
| OrderedSets.InsertAll | src/osgEarth/ShaderFactory.cpp:245 | Inserting a list of values keeps the set sorted and leaves it holding exactly the old elements plus the values. |
| OrderedSets.StrictlySortedDistinct | src/osgEarth/ShaderFactory.cpp:223-224 | A strictly sorted set lists every element once. |
| Strings.LexLessTotal | src/osgEarth/ShaderFactory.cpp:223 | The order of `std::string` is total: two distinct strings are ordered one way or the other. |
| Strings.LexLessTransitive | src/osgEarth/ShaderFactory.cpp:223 | The order of `std::string` is transitive. |
| Strings.LexLessAsymmetric | src/osgEarth/ShaderFactory.cpp:223 | The order of `std::string` is asymmetric. |
| ShaderVaryings.AddEntry | src/osgEarth/ShaderFactory.cpp:242-252 | Adding one shader's pragmas keeps the set sorted. A declaration is then in the set exactly when it was before or the shader's nominal source gives it as `vp_varying_in`, or as `vp_varying_out` when an intermediate stage exists. |
| ShaderVaryings.HarvestVaryings | src/osgEarth/ShaderFactory.cpp:222-254 | The harvested set is sorted, with no duplicate text. It holds exactly the four built-ins, every `vp_varying_in` of every shader, and the `vp_varying_out`s only when a TCS, TES or geometry stage exists. |
| ShaderVaryings.HarvestInto | src/osgEarth/ShaderFactory.cpp:240-254 | The loop over the shader map adds exactly the harvested declarations to the seed set, and keeps it sorted. |
| ShaderVaryings.HarvestedPrefix | src/osgEarth/ShaderFactory.cpp:240-254 | Each step of the loop adds exactly what the next shader contributes. |
| ShaderVaryings.ParseDeclaration | src/osgEarth/ShaderFactory.cpp:267-303 | Fewer than two tokens give no variable. A kept variable has a type, a name and a declaration, all non-empty. Its qualifiers are among the allowed ones, and its type and name are tokens of the declaration. |
| ShaderVaryings.ParseDeclarationParts | src/osgEarth/ShaderFactory.cpp:259-303 | Optional interpolation, optional precision, type, name and optional `[n]` parse back to exactly those parts. The array size is `as<int>(n)` when `[n]` is present and 0 otherwise. |
| ShaderVaryings.ParseTypeAndName | src/osgEarth/ShaderFactory.cpp:259-296 | A plain `type name` declaration, such as each built-in, becomes a variable of that type and name with no qualifiers and no array. |
| ShaderVaryings.ParseVaryings | src/osgEarth/ShaderFactory.cpp:256-304 | The parse loop yields the declarations' variables in set order. Every kept variable has a type and a name. |
| ShaderVaryings.PlainDeclarationKept | src/osgEarth/ShaderFactory.cpp:226-230 | Every plain `type name` declaration of the set, the built-ins among them, becomes a stage variable. |
| ShaderVaryings.ParsedVariablesKeeps | src/osgEarth/ShaderFactory.cpp:299-302 | Every declaration that parses gives a stage variable; only unparseable ones are dropped. |
| Strings.TokenizeShape | src/osgEarth/ShaderFactory.cpp:259-265 | Every token the tokenizer yields is non-empty unless empties are kept. A token is either a kept delimiter on its own or text with no delimiter in it. |
| Strings.TokenizeTwoWords | src/osgEarth/ShaderFactory.cpp:259-265 | Two plain words joined by one separator tokenize to those two words. |
| Strings.ParseIntOfNat | src/osgEarth/ShaderFactory.cpp:290 | `as<int>` of the decimal text of a natural number gives the number back. |
| ShaderStages.HeaderLines | src/osgEarth/ShaderFactory.cpp:39-74 | The header is `#version N` and then at most one line: the precision line exactly on GLES; the NV `gpu_shader5` extension exactly when NV GL is used off GLES; the int64 extension exactly for version 130 or later with int64 support when neither applies; else nothing. |
| ShaderFactory.ShaderFactory.GetGLSLHeader | src/osgEarth/ShaderFactory.cpp:39-74 | The header is computed from the capabilities the first time, cached, and returned unchanged afterwards. |
| ShaderFactory.ShaderFactory.constructor | src/osgEarth/ShaderFactory.cpp:34-37 | A new factory has no cached header. |
| ShaderFactory.AddExtensionsToBuffer | src/osgEarth/ShaderFactory.cpp:136-143 | The buffer gains one `#extension … : enable` line per extension, in the given order, after what it held (the lines of `Extensions`). |
| ShaderFactory.BuildFields | src/osgEarth/ShaderFactory.cpp:319-328 | The loop writes the `VP_PerVertex` block's fields (`Fields`): one per parsed varying, in order, each the interpolation qualifier, the precision and the declaration, a qualifier followed by a space only when present. |
| ShaderFactory.AppendGlobals | src/osgEarth/ShaderFactory.cpp:345-347 | The loop appends one stage global per varying, in order (`Globals`); the precision prefix is present only where the stage writes it. |
| ShaderFactory.AppendCopies | src/osgEarth/ShaderFactory.cpp:497-502 | The loop appends one assignment per varying, in order, between the two given prefixes of its name (`Copies`). |
| ShaderFactory.AppendPrototypes | src/osgEarth/ShaderFactory.cpp:361-367 | The loop over an ordered function map appends one `void name(params);` prototype per function, in map order (`Protos`). |
| ShaderFactory.AppendCalls | src/osgEarth/ShaderFactory.cpp:412-418 | The loop over an ordered function map appends one call per function, in map order, with the given argument (`Calls`). |
| ShaderFactory.AppendLoadVertex | src/osgEarth/ShaderFactory.cpp:541-550 | `VP_LoadVertex` copies each varying from `vp_in[index]`. |
| ShaderFactory.AppendModelToView | src/osgEarth/ShaderFactory.cpp:424-434 | Appends a call to the first model-to-view function when one is registered. Otherwise appends the two fixed-function matrix products. |
| ShaderFactory.AppendToClip | src/osgEarth/ShaderFactory.cpp:740-762 | Appends the move to clip space: from view space a projection only; from model space the model-to-view step, `vp_VertexView`, then the projection. |
| ShaderStages.ReadyWhenUsed | src/osgEarth/ShaderFactory.cpp:424-427 | In a well-formed location map, every stage text that dereferences the first model-to-view function finds a non-empty list. |
| ShaderStages.ModelToViewCalls | src/osgEarth/ShaderFactory.cpp:424-434 | The model-to-view step calls the first model-to-view function, or nothing when none is registered. |
| ShaderStages.ProjectCalls | src/osgEarth/ShaderFactory.cpp:740-762 | The projection from view space calls nothing. The one from model space calls the model-to-view step first. |
| ShaderFactory.EmitRouting | src/osgEarth/ShaderFactory.cpp:716-800 | The TES emit helper's routing, with its changing `space` variable, writes exactly the routing text. |
| ShaderStages.RouteViewCalls | src/osgEarth/ShaderFactory.cpp:720-737 | With view functions in this stage, the routing calls the model-to-view step and then every view function, in order. Otherwise it calls nothing. |
| ShaderStages.RouteClipCalls | src/osgEarth/ShaderFactory.cpp:739-766 | With clip functions in this stage, the routing calls every clip function in order. It calls the model-to-view step first only when the view functions did not already. |
| ShaderStages.RoutingOrder | src/osgEarth/ShaderFactory.cpp:716-800 | The routing calls the model-to-view step once, if any transform happens, then the view functions, then the clip functions. |
| ShaderStages.RoutingCallsCombine | src/osgEarth/ShaderFactory.cpp:768-790 | Resolving the vertex to clip space adds the model-to-view step only when neither the view nor the clip functions ran. |
| ShaderFactory.AppendTransformProtos | src/osgEarth/ShaderFactory.cpp:369-403 | Appends the model-to-view prototypes, then those of the view or clip functions. |
| ShaderFactory.EmitVertexDeclarations | src/osgEarth/ShaderFactory.cpp:355-403 | Writes the vertex stage's prototypes. The "Function declarations" heading appears exactly when model functions, or view or clip functions placed in this stage, exist. |
| ShaderFactory.EmitVertexRouting | src/osgEarth/ShaderFactory.cpp:420-476 | Writes the view and clip part of the vertex `main`. |
| ShaderStages.VertexViewPartCalls | src/osgEarth/ShaderFactory.cpp:420-442 | The model-to-view transform and the view functions are written only when view functions are registered. When they are, every view function is called, in order, after the transform. |
| ShaderStages.VertexClipPartCalls | src/osgEarth/ShaderFactory.cpp:444-474 | Clip functions without view functions get the combined model-to-clip sequence. With view functions, only a projection comes before the clip functions. |
| ShaderStages.VertexRoutingCalls | src/osgEarth/ShaderFactory.cpp:420-476 | The vertex stage routes only when it holds the view placement. It then calls the model-to-view step once, if view or clip functions exist, then the view functions, then the clip functions. |
| ShaderFactory.EmitVertexMain | src/osgEarth/ShaderFactory.cpp:403-504 | Writes the vertex `main`: the built-in inputs, the model calls, the routing, the position write and the output copies. |
| ShaderStages.VertexCalls | src/osgEarth/ShaderFactory.cpp:412-476 | The vertex `main` calls every model function in order. When routing stays in the vertex stage, it then calls the model-to-view step once, if needed, then every view and every clip function. Nothing else is called. |
| ShaderStages.VertexShader | src/osgEarth/ShaderFactory.cpp:333-509 | The vertex shader starts with the given GLSL header. |
| ShaderFactory.EmitVertexShader | src/osgEarth/ShaderFactory.cpp:333-509 | Writes the whole vertex shader, including the three-case `gl_Position` write at 480-494. |
| ShaderFactory.EmitTessControlMain | src/osgEarth/ShaderFactory.cpp:560-580 | Writes the TCS `main`. |
| ShaderStages.TessControlCalls | src/osgEarth/ShaderFactory.cpp:560-580 | The TCS `main` calls every tessellation-control function once, in order, and nothing else. |
| ShaderStages.TessControlShader | src/osgEarth/ShaderFactory.cpp:514-585 | The TCS starts with the header. |
| ShaderFactory.EmitTessControlShader | src/osgEarth/ShaderFactory.cpp:514-585 | Writes the whole TCS. |
| ShaderStages.TypeSet | src/osgEarth/ShaderFactory.cpp:619-621 | The `std::set` of varying types is sorted. It holds exactly the types of the varyings. |
| ShaderFactory.TypeSetStep | src/osgEarth/ShaderFactory.cpp:619-621 | Each step of the type loop inserts that varying's type. |
| ShaderFactory.CollectTypes | src/osgEarth/ShaderFactory.cpp:619-621 | The type loop yields the set of varying types. |
| ShaderStages.InterpolatorPerType | src/osgEarth/ShaderFactory.cpp:619-626 | The TES declares exactly one `VP_Interpolate3` per distinct varying type: every type covered, no prototype twice, and none for a type no varying has. |
| ShaderFactory.AppendInterpolatorProtos | src/osgEarth/ShaderFactory.cpp:623-626 | The loop appends one `T VP_Interpolate3(T,T,T)` prototype per type, in set order (`InterpolatorProtos`). |
| ShaderFactory.AppendElementInterpolations | src/osgEarth/ShaderFactory.cpp:692-700 | The element loop appends one assignment for each element `n < arraySize` of an array varying, and none for a size that is not positive (`ElementInterpolations`). |
| ShaderStages.InterpolateVarCount | src/osgEarth/ShaderFactory.cpp:682-708 | A flat or scalar varying gets one line. An array varying gets one line per element. |
| ShaderFactory.AppendInterpolateVar | src/osgEarth/ShaderFactory.cpp:682-708 | Per varying: a flat one copies `vp_in[0]`; a scalar one is interpolated; an array one element by element. |
| ShaderStages.InterpolationSplit | src/osgEarth/ShaderFactory.cpp:680-710 | The body of `VP_Interpolate3()` for a list of varyings is the body for any prefix followed by the body for the rest. |
| ShaderStages.InterpolationCons | src/osgEarth/ShaderFactory.cpp:680-710 | The body starts with the first varying's lines. |
| ShaderFactory.AppendInterpolation | src/osgEarth/ShaderFactory.cpp:680-710 | The loop over the varyings writes the body of `VP_Interpolate3()`. |
| ShaderFactory.EmitTessEvalHelpers | src/osgEarth/ShaderFactory.cpp:635-801 | Writes the TES prototypes, then `VP_LoadVertex`, `VP_Interpolate3` and `VP_EmitVertex`, but only when TES functions, or view or clip functions placed in the TES, exist. |
| ShaderFactory.EmitTessEvalMain | src/osgEarth/ShaderFactory.cpp:802-820 | Writes the TES `main`. |
| ShaderStages.TessEvalCalls | src/osgEarth/ShaderFactory.cpp:802-820 | Whenever a TES is built, its `main` is the comment followed by one call per TES function, in order. The pass-through copy for "no TES functions" is never written. |
| ShaderStages.TessEvalShader | src/osgEarth/ShaderFactory.cpp:592-828 | The TES starts with the header. |
| ShaderFactory.EmitTessEvalShader | src/osgEarth/ShaderFactory.cpp:592-828 | Writes the whole TES. |
| ShaderFactory.EmitGeometryDeclarations | src/osgEarth/ShaderFactory.cpp:862-894 | Writes the geometry stage's prototypes. |
| ShaderStages.ViewVertexRoutingCalls | src/osgEarth/ShaderFactory.cpp:997-1030 | `VP_EmitViewVertex` calls the view functions placed in this stage, then the clip functions, in order. The model-to-view step is not called. |
| ShaderFactory.EmitViewVertexRouting | src/osgEarth/ShaderFactory.cpp:1000-1021 | Writes the routing of `VP_EmitViewVertex`, with its `space` variable. |
| ShaderFactory.EmitHelperBody | src/osgEarth/ShaderFactory.cpp:906-1031 | Writes a geometry emit helper: load `gl_Position`, route, copy the varyings out, write `gl_Position`, then `EmitVertex()`. |
| ShaderFactory.EmitGeometryMain | src/osgEarth/ShaderFactory.cpp:1033-1050 | Writes the geometry `main`. |
| ShaderStages.GeometryCalls | src/osgEarth/ShaderFactory.cpp:1033-1050 | The geometry `main` calls every geometry function once, in order, and nothing else. |
| ShaderStages.GeometryShader | src/osgEarth/ShaderFactory.cpp:835-1060 | The geometry shader starts with the header. |
| ShaderFactory.EmitGeometryShader | src/osgEarth/ShaderFactory.cpp:835-1060 | Writes the whole geometry shader. |
| ShaderFactory.EmitFragmentDeclarations | src/osgEarth/ShaderFactory.cpp:1093-1121 | Writes the coloring, lighting and output prototypes, in that order. |
| ShaderFactory.EmitFragmentMain | src/osgEarth/ShaderFactory.cpp:1122-1171 | Writes the fragment `main`, including the two-pass loop. |
| ShaderStages.FragmentPassesCalls | src/osgEarth/ShaderFactory.cpp:1135-1152 | The two passes call all coloring functions, then all lighting functions. |
| ShaderStages.FragmentOutputCalls | src/osgEarth/ShaderFactory.cpp:1154-1166 | The output part calls every output function, in order, and no function when no output location is registered. |
| ShaderStages.FragmentCalls | src/osgEarth/ShaderFactory.cpp:1123-1166 | The fragment `main` calls all coloring functions, then all lighting functions, then all output functions, each once and in order. `vp_Normal` is renormalised before the first call. |
| ShaderStages.RenormalizeFirst | src/osgEarth/ShaderFactory.cpp:1127-1133 | The renormalisation comes right after the input copies, and nothing before it is a call. |
| ShaderStages.CopiesAreNotDefaultOutput | src/osgEarth/ShaderFactory.cpp:1127-1131 | No input copy is the default color output. |
| ShaderStages.FragmentMainLines | src/osgEarth/ShaderFactory.cpp:1123-1170 | The fragment `main` holds only assignments and calls. It writes `vp_FragColor = vp_Color` exactly when no output location is registered. |
| ShaderStages.FragColorIffNoOutput | src/osgEarth/ShaderFactory.cpp:1077-1081 | `out vec4 vp_FragColor;` is declared, and the default output is written, exactly when no output location is registered. |
| ShaderStages.FragmentBodyNoFragOut | src/osgEarth/ShaderFactory.cpp:1083-1170 | Nothing after the output declaration declares `vp_FragColor`. |
| ShaderStages.PreambleNoFragOut | src/osgEarth/ShaderFactory.cpp:1071-1075 | Nor does anything before it. |
| ShaderStages.FragmentShader | src/osgEarth/ShaderFactory.cpp:1065-1176 | The fragment shader starts with the header. |
| ShaderFactory.EmitFragmentShader | src/osgEarth/ShaderFactory.cpp:1065-1176 | Writes the whole fragment shader. |
| ShaderStages.AssembleKinds | src/osgEarth/ShaderFactory.cpp:508 | Shaders are appended in the order VS, TCS, TES, GS, FS, and only for the active stages; `Kinds` lists the stage of each appended shader. |
| ShaderStages.MainsOrder | src/osgEarth/ShaderFactory.cpp:333-1176 | The composed shaders are those of the active stages, in pipeline order. |
| ShaderStages.AssembleHeaders | src/osgEarth/ShaderFactory.cpp:340-341 | If every stage text starts with the header, so does every assembled shader. |
| ShaderStages.MainsHeaders | src/osgEarth/ShaderFactory.cpp:340-341 | Every composed shader starts with the GLSL header. |
| ShaderFactory.AddTessControlStage | src/osgEarth/ShaderFactory.cpp:514-585 | Sets the TCS bit and appends the TCS exactly when the stage is active. |
| ShaderFactory.AddTessEvalStage | src/osgEarth/ShaderFactory.cpp:592-828 | Sets the TES bit and appends the TES exactly when the stage is active. |
| ShaderFactory.AddGeometryStage | src/osgEarth/ShaderFactory.cpp:835-1060 | Sets the GS bit and appends the geometry shader exactly when the stage is active. |
| ShaderFactory.BuildStages | src/osgEarth/ShaderFactory.cpp:160-162 | The mask `createMains` returns is the stage mask. The shaders it appends are the composed mains. |
| ShaderFactory.ShaderFactory.CreateMains | src/osgEarth/ShaderFactory.cpp:146-1177 | Given the registered functions, the shader map and the extensions, `createMains`: computes the header once; harvests the varying set; parses it into the stage variables; returns the stage mask; and appends the active stages' shaders to the output, in pipeline order. |
| ShaderStages.ColorFilterChainCalls | src/osgEarth/ShaderFactory.cpp:1181-1212 | The chain function calls every filter once, in chain order, and nothing else. Its opening line comes right after the header and the filters' prototypes, and the shader ends with its closing line. |
| ShaderFactory.ShaderFactory.CreateColorFilterChainFragmentShader | src/osgEarth/ShaderFactory.cpp:1181-1212 | Writes the header, one prototype per filter, then the function calling each filter on `color`. |
| OrderedMaps.Get | src/osgEarth/StyleSheet.cpp:273-276 | `find` on the sorted map: the value stored under the key, or none when the key is absent. |
| OrderedMaps.IndexOf | src/osgEarth/StyleSheet.cpp:311-315 | The position of a key, in key order, when present. |
| OrderedMaps.KeyPositionUnique | src/osgEarth/StyleSheet.cpp:311-315 | A key occurs at one position only. |
| OrderedMaps.Put | src/osgEarth/StyleSheet.cpp:246 | `m[k] = v` keeps the map sorted with unique keys. |
| OrderedMaps.GetPut | src/osgEarth/StyleSheet.cpp:246 | After `m[k] = v`, `k` finds `v`, and every other key finds what it found before. |
| OrderedMaps.Erase | src/osgEarth/StyleSheet.cpp:252 | `erase` keeps the map sorted with unique keys. |
| OrderedMaps.GetErase | src/osgEarth/StyleSheet.cpp:252 | After `erase(k)`, `k` is absent, and every other key finds what it found before. |
| StyleSheet.StyleSheet.constructor | src/osgEarth/StyleSheet.cpp:237-241 | A new stylesheet has no styles, selectors, libraries or script. |
| StyleSheet.StyleSheet.AddStyle | src/osgEarth/StyleSheet.cpp:243-247 | Inserts or replaces the style under its name. No other name's style changes, and nothing else in the sheet changes. |
| StyleSheet.StyleSheet.RemoveStyle | src/osgEarth/StyleSheet.cpp:249-253 | Erases only that name. |
| StyleSheet.StyleLookupFinds | src/osgEarth/StyleSheet.cpp:270-287 | Without fallback, a found style is the entry stored under the name with some leading `#`s stripped, as the loop strips them. Conversely, whenever such a stripped name has an entry, the lookup finds a style. |
| StyleSheet.StyleLookupFallback | src/osgEarth/StyleSheet.cpp:270-287 | With fallback, the lookup gives the style found without fallback, or the default style when there is none. |
| StyleSheet.StyleSheet.GetStyle | src/osgEarth/StyleSheet.cpp:270-287 | The non-const `getStyle` gives the lookup above. The map changes only when a fallback meets an empty map, which inserts `"default"`. |
| StyleSheet.DefaultStyle | src/osgEarth/StyleSheet.cpp:366-385 | On a non-empty map, the non-const `getDefaultStyle` returns one of the map's own styles, never a style from outside it. |
| StyleSheet.StyleSheet.GetDefaultStyle | src/osgEarth/StyleSheet.cpp:366-385 | On an empty map it inserts the empty style as `"default"` and returns it, so the map is never empty afterwards. Otherwise the map is unchanged. |
| StyleSheet.DefaultStylesAgree | src/osgEarth/StyleSheet.cpp:387-404 | The const default style, which also never changes the map, agrees with the non-const one except in one case: two or more entries with neither a `"default"` nor a `""` key whose first entry is not the empty style. There the const one gives `_emptyStyle` and the other the first entry. |
| StyleSheet.StyleAndIndex | src/osgEarth/StyleSheet.cpp:308-321 | Gives the entry and its position in key order, or (none, −1) exactly when the name is absent. |
| StyleSheet.SelectorNamedFirst | src/osgEarth/StyleSheet.cpp:347-358 | `getSelector` finds a selector exactly when one has that name. It then returns the first such selector in key order. |
| StyleSheet.StyleSheet.GetSelector | src/osgEarth/StyleSheet.cpp:347-358 | The loop over the selectors returns that selector. |
| StyleSheet.StyleSheet.AddSelector | src/osgEarth/StyleSheet.cpp:360-364 | Stores the selector under its name. Nothing else changes. |
| StyleSheet.GetPutAll | src/osgEarth/StyleSheet.cpp:88-98 | After a run of `m[k] = v`, a key finds its last value in the run, or its old value when the run does not name it. |
| StyleSheet.LastWith | src/osgEarth/StyleSheet.cpp:88-98 | A key has a last value in a run exactly when the run names it. |
| StyleSheet.LoadedScript | src/osgEarth/StyleSheet.cpp:100-124 | A script is loaded exactly when a non-empty `script` child exists. A loaded script's language is never empty, because it defaults to `"javascript"`. |
| StyleSheet.LoadLibraries | src/osgEarth/StyleSheet.cpp:87-98 | The library loop leaves the map of the libraries keyed by name, put in document order (`KeyedBy` with `LibraryKey`). `KeyedLoadFinds` says what that map holds. |
| StyleSheet.LoadScript | src/osgEarth/StyleSheet.cpp:100-124 | The script step yields the loaded script. |
| StyleSheet.LoadSelectors | src/osgEarth/StyleSheet.cpp:126-134 | The selector loop leaves the map of the selectors keyed `"name:styleName"`, put in document order (`KeyedBy` with `SelectorKey`). |
| StyleSheet.LoadStyles | src/osgEarth/StyleSheet.cpp:136-182 | The style loop leaves the map of the styles keyed by name, put in document order (`KeyedBy` with `StyleKey`). |
| StyleSheet.KeyedLoadFinds | src/osgEarth/StyleSheet.cpp:87-98 | Loading a list finds a key exactly when some item has it, and then finds the last such item: a later item replaces an earlier one with the same key. |
| StyleSheet.IfLinesPerStyle | src/osgEarth/StyleSheet.cpp:189-209 | The generated script has an `if` line for every style with a selector symbol, and every `if` line comes from such a style. There are no more lines than styles, and no lines exactly when no style has a selector symbol. |
| StyleSheet.AutoScriptStep | src/osgEarth/StyleSheet.cpp:189-209 | Each step of the style loop adds that style's line when it has a selector symbol. |
| StyleSheet.AutoScriptText | src/osgEarth/StyleSheet.cpp:186-209 | The loop reports whether any style has a selector symbol. The text is the prelude followed by the `if` lines when one does, and empty when none does. |
| StyleSheet.ConcatSnoc | src/osgEarth/StyleSheet.cpp:207 | Appending a line to the stream appends its text. |
| StyleSheet.AutoScriptStartsWithMarker | src/osgEarth/StyleSheet.cpp:202-214 | The generated script starts with the `// __oe_auto__` marker. |
| StyleSheet.AddAutoScript | src/osgEarth/StyleSheet.cpp:211-229 | Only when some style has a selector symbol: adds the `__oe_auto` selector, and either makes the generated code the whole script (in javascript) or appends it to the existing code after `"\n\n"`. |
| StyleSheet.StyleSheet.FromConfig | src/osgEarth/StyleSheet.cpp:82-230 | Loading a configuration replaces the libraries, the script, the selectors and the styles as stated above, and then adds the automatic selector and script. |
| StyleSheet.SavedSelectorsFilter | src/osgEarth/StyleSheet.cpp:19-26 | Saving writes every selector except `__oe_auto`, and nothing else. |
| StyleSheet.CutAtMarker | src/osgEarth/StyleSheet.cpp:64-71 | The saved code is a prefix of the code. It equals the code exactly when the code holds no marker. |
| StyleSheet.MarkerHasNoNewline | src/osgEarth/StyleSheet.cpp:67 | The marker holds no line break. |
| StyleSheet.FindAfterBlankLine | src/osgEarth/StyleSheet.cpp:225 | With no marker in the old code, the first marker of the joined code is where the generated code starts. |
| StyleSheet.StyleSheet.GetConfig | src/osgEarth/StyleSheet.cpp:14-80 | Saving writes every selector but the automatic one, the values of the styles and of the libraries in key order (`Values`), and the script in its saved form. The two lemmas below say what that form is after a load. |
| StyleSheet.SaveAfterLoadNoScript | src/osgEarth/StyleSheet.cpp:202-229 | A sheet whose only script is the generated one saves a script with no code, in javascript. |
| StyleSheet.SaveAfterLoadInline | src/osgEarth/StyleSheet.cpp:64-73 | An inline script with generated code appended saves as its own code followed by the blank line. The generated code is dropped. |
| DrawInstanced.DecodeMatrix | src/osgEarth/DrawInstanced.cpp:263-269 | Elements 3, 7 and 11 become 0 and element 15 becomes 1. Every other element is unchanged. |
| DrawInstanced.DecodeMatrixIdempotent | src/osgEarth/DrawInstanced.cpp:263-269 | Decoding twice is decoding once. Matrices that differ only in the encoded column decode alike. |
| DrawInstanced.Targets | src/osgEarth/DrawInstanced.cpp:291-302 | A triangle's corners transformed by each matrix in turn: one run of corners per matrix. |
| DrawInstanced.Mesher.constructor | src/osgEarth/DrawInstanced.cpp:283-287 | A new mesher has no vertices and no indices. |
| DrawInstanced.Mesher.AddVertex | src/osgEarth/DrawInstanced.cpp:298-300 | A vertex already stored is not stored again. A new vertex is appended. Either way one index is appended, and it names a stored vertex equal to the one added. |
| DrawInstanced.Mesher.VertsDistinct | src/osgEarth/DrawInstanced.cpp:281 | The vertex buffer never holds two equal vertices. |
| DrawInstanced.Mesher.AddCorners | src/osgEarth/DrawInstanced.cpp:295-301 | Each corner transformed by the matrix (`Corners`) gets an index naming an equal stored vertex. Every new vertex is one of the transformed corners. |
| DrawInstanced.RefersAt | src/osgEarth/DrawInstanced.cpp:300 | An index position that refers names a stored vertex equal to its target. |
| DrawInstanced.RefersAtExtended | src/osgEarth/DrawInstanced.cpp:299-300 | References stay valid as the buffers grow. |
| DrawInstanced.RefersExtend | src/osgEarth/DrawInstanced.cpp:291-302 | The references of consecutive matrices join. |
| DrawInstanced.CornerAdded | src/osgEarth/DrawInstanced.cpp:297-300 | Adding a corner extends the references by one. |
| DrawInstanced.Mesher.Triangle | src/osgEarth/DrawInstanced.cpp:289-303 | For one triangle, three indices are appended per decoded matrix. Each names a stored vertex equal to its transformed corner. The old vertices stay in place, and every new vertex is a transformed corner. |
| DrawInstanced.IDByte | src/osgEarth/DrawInstanced.cpp:577-580 | Each byte of the object ID is in 0..255. |
| DrawInstanced.ShiftedValues | src/osgEarth/DrawInstanced.cpp:578-580 | Shifting right by 8, 16 and 24 divides by 256, 65536 and 16777216. |
| DrawInstanced.IDBytesRoundTrip | src/osgEarth/DrawInstanced.cpp:577-580 | The sum of `b_k * 256^k` over the four bytes, least significant first, gives back the object ID. |
| DrawInstanced.Columns | src/osgEarth/DrawInstanced.cpp:566-572 | The first columns take four floats each. |
| DrawInstanced.InstanceTexels | src/osgEarth/DrawInstanced.cpp:562-580 | Each instance writes exactly 16 floats. |
| DrawInstanced.InstanceTexelsLayout | src/osgEarth/DrawInstanced.cpp:565-580 | Float `4*col + row` holds `mat(row, col)` for the first three columns, and floats 12..15 hold the four ID bytes (`IDBytes`). |
| DrawInstanced.Packed | src/osgEarth/DrawInstanced.cpp:559-584 | The buffer for a run of instances holds 16 floats per instance. |
| DrawInstanced.PackedAt | src/osgEarth/DrawInstanced.cpp:559-584 | Instance `m` occupies floats `16m .. 16m+16`. |
| DrawInstanced.StoredCount | src/osgEarth/DrawInstanced.cpp:530-544 | All instances are stored when fewer than the capacity; otherwise exactly the capacity is. |
| DrawInstanced.StoredCountFits | src/osgEarth/DrawInstanced.cpp:519-544 | The stored instances fit the texture buffer, 64 bytes each. A model that fits is stored whole. |
| DrawInstanced.PackOne | src/osgEarth/DrawInstanced.cpp:562-580 | Writes one instance at `ptr` and advances it by 16. The floats before `ptr` do not change. |
| DrawInstanced.PackColumn | src/osgEarth/DrawInstanced.cpp:568-571 | The row loop writes one column row by row, `mat(row, col)` at `ptr + row` (`Column`), and advances `ptr` by 4. |
| DrawInstanced.PackInstances | src/osgEarth/DrawInstanced.cpp:514-584 | Stores the clamped count of instances in an image of `4*tboSize` RGBA texels, which holds exactly their packed texels. The stored matrices are kept as metadata, in order (`MatricesOf`). |
| DrawInstanced.FindHighestLOD | src/osgEarth/DrawInstanced.cpp:177-187 | The chosen index has the smallest range start below `FLT_MAX`, the first one on ties; 0 when none is below `FLT_MAX`. |
| DrawInstanced.ConvertLod | src/osgEarth/DrawInstanced.cpp:174-197 | Only the highest-detail child is kept, the only child left, with range [0, `FLT_MAX`]. |
| DrawInstanced.Lod.constructor | src/osgEarth/DrawInstanced.cpp:174-176 | An LOD holds its ranges and children. |
| DrawInstanced.PrimitiveSet.constructor | src/osgEarth/DrawInstanced.cpp:162-163 | A primitive set holds its instance count. |
| DrawInstanced.Converter.constructor | src/osgEarth/DrawInstanced.cpp:130-141 | The converter starts with no collected primitive sets and the default texture unit. |
| DrawInstanced.Converter.ApplyNode | src/osgEarth/DrawInstanced.cpp:199-209 | `_tboUnit` becomes `max(_tboUnit, numTexAttrs)` when the node has a state set. It only ever increases. |
| DrawInstanced.Converter.ApplyDrawable | src/osgEarth/DrawInstanced.cpp:144-172 | Every primitive set of a geometry gets `numInstances`, and each is appended to `_primitiveSets` in order. The drawable is then applied as a node. |
| HTM.PolytopeContains | src/osgEarth/HTM.cpp:17-26 | True exactly when no plane reports a negative distance. |
| HTM.TrianglePlanes | src/osgEarth/HTM.cpp:41-60 | A triangle's polytope has three planes, one per edge. |
| HTM.EdgePlanes | src/osgEarth/HTM.cpp:52-59 | A triangle contains a point exactly when its three edge-plane distances are not negative. |
| HTM.SubId | src/osgEarth/HTM.cpp:220-223 | A child's name is one character longer than its parent's. |
| HTM.SubIdExtends | src/osgEarth/HTM.cpp:220-223 | Child `k`'s name is the parent's name followed by the digit `k`. |
| HTM.SubIdInjective | src/osgEarth/HTM.cpp:220-223 | The four children have four different names. |
| HTM.AsCells | src/osgEarth/HTM.cpp:248-251 | The four cells become children, in order. |
| HTM.FindCell | src/osgEarth/HTM.cpp:198-206 | The backward scan answers only cells within its range. |
| HTM.FindCellSpec | src/osgEarth/HTM.cpp:198-206 | The scan finds the highest-indexed cell in range that contains the point. It finds none exactly when no cell in range does. |
| HTM.ScanCells | src/osgEarth/HTM.cpp:195-206 | A non-leaf looks only at its last four children. |
| HTM.ScanCellsSpec | src/osgEarth/HTM.cpp:195-206 | It descends into the last of those four that contains the point, scanning from the end. It finds none exactly when none of the four contains the point. |
| HTM.ScanSubcells | src/osgEarth/HTM.cpp:198-206 | The loop from the end, stopping at index 0, gives that scan. |
| HTM.FirstContainingFrom | src/osgEarth/HTM.cpp:233-240 | The forward scan answers only indices it visited. |
| HTM.FirstContainingFromSpec | src/osgEarth/HTM.cpp:233-240 | The forward scan finds the first cell containing the point, or none exactly when no cell does. |
| HTM.FirstContaining | src/osgEarth/HTM.cpp:309-318 | The group's scan answers only indices of its roots. |
| HTM.FirstContainingSpec | src/osgEarth/HTM.cpp:309-318 | It finds the first root containing the point, or none exactly when none does. |
| HTM.FindContaining | src/osgEarth/HTM.cpp:309-318 | The loop gives that scan. |
| HTM.LeafRule | src/osgEarth/HTM.cpp:175-190 | A leaf adds the object directly, and stays a leaf, exactly when `(underMaxCellSize && roomForMoreObjects) \|\| reachedMinCellSize`. Otherwise it splits and inserts again. |
| HTM.NonLeafRule | src/osgEarth/HTM.cpp:193-207 | A non-leaf's children count does not change. Only the child the scan finds changes. When no sub-cell contains the point, nothing changes. |
| HTM.InsertKeeps | src/osgEarth/HTM.cpp:172-208 | Insertion keeps the node's name and triangle, and never turns a non-leaf back into a leaf. |
| HTM.SplitShape | src/osgEarth/HTM.cpp:211-254 | After a split the node is no longer a leaf. Its four new sub-cells (`SubCells`) are its last four children, fresh leaves named `id+"0"` to `id+"3"` on the four sub-triangles. Without leaves-only storage the old children stay in front of them; with it only the four remain. |
| HTM.SplitShapeLeavesOnly | src/osgEarth/HTM.cpp:225-251 | With `_storeObjectsInLeavesOnly`, the old children are moved out and exactly the four sub-cells remain. |
| HTM.SplitShapeKept | src/osgEarth/HTM.cpp:247-253 | Without it, the sub-cells are appended after the old children. |
| HTM.DistributeKeeps | src/osgEarth/HTM.cpp:228-241 | Distributing objects keeps the four cells, their names and their triangles. |
| HTM.DistributeUntouched | src/osgEarth/HTM.cpp:233-239 | A cell that contains none of the objects' centres is left as it was. |
| HTM.SplitNode | src/osgEarth/HTM.cpp:211-254 | The split method equals the split rule. |
| HTM.Redistribute | src/osgEarth/HTM.cpp:228-241 | Moves each old child into the first sub-cell containing its centre. |
| HTM.AttachCells | src/osgEarth/HTM.cpp:248-251 | Appends the four sub-cells. |
| HTM.InsertNode | src/osgEarth/HTM.cpp:172-208 | The insert method equals the insert rule. |
| HTM.InsertIntoLeaf | src/osgEarth/HTM.cpp:175-191 | The leaf branch of the insert rule. |
| HTM.SplitAndInsert | src/osgEarth/HTM.cpp:186-190 | Split, then insert again. |
| HTM.InsertIntoSplitNode | src/osgEarth/HTM.cpp:189 | Inserting into the split node. |
| HTM.InsertBelow | src/osgEarth/HTM.cpp:193-207 | The non-leaf branch. |
| HTM.InsertWellFormed | src/osgEarth/HTM.cpp:172-254 | Insertion preserves the tree's shape: a leaf holds only objects, and a non-leaf's last four children are its sub-cells named `id+"0"` to `id+"3"`, themselves well formed. |
| HTM.SplitWellFormed | src/osgEarth/HTM.cpp:211-254 | Splitting a well-formed leaf gives a well-formed node. |
| HTM.DistributeWellFormed | src/osgEarth/HTM.cpp:228-241 | Distributing objects keeps the sub-cells well formed. |
| HTM.SubCellsWellFormed | src/osgEarth/HTM.cpp:220-223 | Fresh sub-cells are well formed and correctly named. |
| HTM.AttachWellFormed | src/osgEarth/HTM.cpp:247-253 | Objects followed by four well-formed, correctly named sub-cells make a well-formed node. |
| HTM.AppendObjectWellFormed | src/osgEarth/HTM.cpp:183 | Adding an object to a leaf keeps it well formed. |
| HTM.ReplaceCellWellFormed | src/osgEarth/HTM.cpp:201-204 | Replacing a sub-cell by a well-formed cell of the same name keeps the node well formed. |
| HTM.SplitThenInsertWellFormed | src/osgEarth/HTM.cpp:186-190 | The split-and-retry branch keeps the tree well formed. |
| HTM.DescendWellFormed | src/osgEarth/HTM.cpp:193-207 | The descend branch keeps the tree well formed. |
| HTM.ToSize | src/osgEarth/HTM.cpp:198 | A conversion to `size_t`, modulo 2^64. |
| HTM.ScanGuardAsWrittenPassesZero | src/osgEarth/HTM.cpp:198 | With exactly four children the loop condition, compared as `size_t`, still holds at `i == -1`, and at every negative `i`. |
| HTM.ScanGuardsAgreeOnIndices | src/osgEarth/HTM.cpp:198 | On valid indices the written and the intended conditions agree. |
| HTM.ScanGuardAsWrittenStops | src/osgEarth/HTM.cpp:198 | With more than four children the written condition stops after the fourth child from the end. |
| HTM.BaseTriangleOctant | src/osgEarth/HTM.cpp:283-298 | Base triangle `k` holds exactly the points of octant `k`. |
| HTM.BaseTrianglesCover | src/osgEarth/HTM.cpp:283-298 | Every point lies in some base triangle. |
| HTM.HTMGroup.constructor | src/osgEarth/HTM.cpp:258-271 | The group starts with the default settings and the eight base roots. |
| HTM.HTMGroup.Reinitialize | src/osgEarth/HTM.cpp:273-299 | The children are cleared and exactly eight roots created, named `"0"` to `"7"`, on the base triangles. |
| HTM.HTMGroup.Insert | src/osgEarth/HTM.cpp:301-321 | Returns true exactly when some root contains the object's centre, and then inserts into the first such root. With exact distances it always returns true. |
| HTM.HTMGroup.AddChild | src/osgEarth/HTM.cpp:322-326 | Is an insert. |
| HTM.HTMGroup.InsertChild | src/osgEarth/HTM.cpp:328-332 | Is an insert; the index is ignored. |
| HTM.HTMGroup.RemoveChildren | src/osgEarth/HTM.cpp:334-339 | Always false; nothing changes. |
| HTM.HTMGroup.ReplaceChild | src/osgEarth/HTM.cpp:341-346 | Always false; nothing changes. |
| HTM.HTMGroup.SetChild | src/osgEarth/HTM.cpp:348-353 | Always false; nothing changes. |
| KML.FirstChildNamed | src/osgEarthDrivers/kml/KML_Geometry.cpp:83 | Case-insensitive `first_node(name)`: the first child with the name, or none exactly when there is none. |
| KML.GetValue | src/osgEarthDrivers/kml/KML_Geometry.cpp:121-124 | A missing child reads as "". |
| KML.TagKind | src/osgEarthDrivers/kml/KML_Geometry.cpp:28-77 | Exactly the tags point, linestring, linearring, gx:latlonquad, polygon, multigeometry and model are known. |
| KML.BuiltIffKnown | src/osgEarthDrivers/kml/KML_Geometry.cpp:25-78 | `buildChild` builds a geometry exactly for a known lower-cased tag. It is a multi-geometry exactly for `multigeometry`. Other kinds hold the element's coordinates. |
| KML.KMLGeometry.BuildChild | src/osgEarthDrivers/kml/KML_Geometry.cpp:25-78 | Sets `_geom` to the built geometry; any other tag leaves it as it was. |
| KML.KMLGeometry.BuildSingle | src/osgEarthDrivers/kml/KML_Geometry.cpp:29-56 | A single geometry tag: parse the coordinates, then the style. |
| KML.KMLGeometry.BuildMulti | src/osgEarthDrivers/kml/KML_Geometry.cpp:57-70 | A multi-geometry builds its components from its children, in one style. |
| KML.KMLGeometry.BuildParts | src/osgEarthDrivers/kml/KML_Geometry.cpp:63-69 | The loop keeps a sub-geometry only when it is valid. |
| KML.BuiltPartsCount | src/osgEarthDrivers/kml/KML_Geometry.cpp:63-69 | There are never more components than children, and as many exactly when every child builds. |
| KML.BuiltPartsFromChildren | src/osgEarthDrivers/kml/KML_Geometry.cpp:63-69 | Every component is what some child builds. |
| KML.BuiltPartsValid | src/osgEarthDrivers/kml/KML_Geometry.cpp:63-69 | The components are the valid sub-geometries of the children. There is one per child exactly when every child's tag is known. |
| KML.KMLGeometry.Build | src/osgEarthDrivers/kml/KML_Geometry.cpp:16-23 | `build` runs `buildChild` on each child in turn, with the one style. |
| KML.NothingBuilt | src/osgEarthDrivers/kml/KML_Geometry.cpp:16-23 | With no known tag among the children, `build` leaves the geometry as it was. |
| KML.LastKnownBuilt | src/osgEarthDrivers/kml/KML_Geometry.cpp:16-23 | Otherwise the last child with a known tag decides the geometry. |
| KML.LastBuiltIsLastKnown | src/osgEarthDrivers/kml/KML_Geometry.cpp:16-23 | Both of the above. |
| KML.KMLGeometry.constructor | src/osgEarthDrivers/kml/KML_Geometry.cpp:31 | A new reader has no geometry and is neither extruded nor tessellated. |
| KML.KMLGeometry.StartGeometry | src/osgEarthDrivers/kml/KML_Geometry.cpp:31-32 | A geometry reader starts an empty geometry of its kind. |
| KML.KMLGeometry.ParseCoords | src/osgEarthDrivers/kml/KML_Geometry.cpp:80-116 | Every text node of `<coordinates>` adds the points of its tuples, in order. Every text node is then removed. |
| KML.ConsumeChildren | src/osgEarthDrivers/kml/KML_Geometry.cpp:86-114 | The `while` loop adds the points of every text node and leaves `<coordinates>` with no children. |
| KML.AppendTuples | src/osgEarthDrivers/kml/KML_Geometry.cpp:94-111 | The tuple loop appends one point per tuple with at least two parts. |
| KML.TuplesPointsAppend | src/osgEarthDrivers/kml/KML_Geometry.cpp:94-111 | The points of concatenated tuple lists are concatenated. |
| KML.TuplesPointsCount | src/osgEarthDrivers/kml/KML_Geometry.cpp:101-110 | A tuple yields at most one point. Every tuple yields one exactly when each has at least two parts. |
| KML.TwoPartTuple | src/osgEarthDrivers/kml/KML_Geometry.cpp:96-108 | `x,y` gives the point (x, y, 0). |
| KML.OnePartTuple | src/osgEarthDrivers/kml/KML_Geometry.cpp:101 | A tuple with one part is skipped. |
| KML.TwoTuplesText | src/osgEarthDrivers/kml/KML_Geometry.cpp:89-92 | Tuples are split on space and on newline. |
| KML.ConsumedHasNoPoints | src/osgEarthDrivers/kml/KML_Geometry.cpp:112-113 | After parsing, the element's coordinates give no points. The other children are untouched. |
| KML.FirstChildSameNames | src/osgEarthDrivers/kml/KML_Geometry.cpp:83 | Consuming text nodes does not change which child is found by name. |
| KML.ScanElevations | src/osgEarthDrivers/kml/KML_Geometry.cpp:139-175 | `zeroElev` holds exactly when every z is about 0. `sameElev` holds exactly when every z is about the first. `maxElevation` is the largest z, or `-DBL_MAX` with no points. |
| KML.AltitudeMode | src/osgEarthDrivers/kml/KML_Geometry.cpp:124-126 | An empty `altitudemode` becomes `clampToGround`, a clamping mode. A non-empty one is kept as written. The mode is never empty. |
| KML.ClampRow | src/osgEarthDrivers/kml/KML_Geometry.cpp:177-199 | clampToGround and clampToSeaFloor give MAP if extruded, else DRAPE for polygons, else SCENE, and always clear extrude. |
| KML.RelativeRow | src/osgEarthDrivers/kml/KML_Geometry.cpp:201-231 | relativeToGround and relativeToSeaFloor give CLAMP_RELATIVE_TO_TERRAIN. For polygons only: CENTROID binding on equal elevations; MAP when extruded; otherwise SCENE, except that all-zero elevations switch to CLAMP_TO_TERRAIN with DRAPE. |
| KML.OtherRows | src/osgEarthDrivers/kml/KML_Geometry.cpp:233-242 | `absolute` gives CLAMP_ABSOLUTE. Any other mode leaves CLAMP_TO_TERRAIN as it was. |
| KML.ExtrusionSurvives | src/osgEarthDrivers/kml/KML_Geometry.cpp:177-244 | A geometry stays extruded exactly when it asked to be and is not clamped. |
| KML.DrapeOnlyOnTerrain | src/osgEarthDrivers/kml/KML_Geometry.cpp:184-227 | DRAPE is chosen only for an unextruded polygon clamped to the terrain. |
| KML.ParsedStyleSymbols | src/osgEarthDrivers/kml/KML_Geometry.cpp:244-256 | After the table, the style has an altitude symbol. Extrusion adds an extrusion symbol with `flatten = false`. An unextruded non-polygon loses its polygon symbol. Nothing else of the style changes. |
| KML.DefaultModeClamps | src/osgEarthDrivers/kml/KML_Geometry.cpp:124-134 | An element with no `altitudeMode` is clamped to the terrain and never extruded. Its technique is map when `extrude` is `"1"`, else drape for a polygon, else scene. The style's altitude binding is kept. |
| KML.KMLGeometry.ParseStyle | src/osgEarthDrivers/kml/KML_Geometry.cpp:118-257 | Sets the flags and the style as the table says, leaving the geometry alone. |
| MaterialLoader.ExtensionStart | src/osgEarth/MaterialLoader.cpp:25 | The extension starts at the last dot, unless a path separator comes after it. |
| MaterialLoader.DotExt | src/osgEarth/MaterialLoader.cpp:25 | `getFileExtensionIncludingDot` is a suffix of the name. |
| MaterialLoader.NameLessExt | src/osgEarth/MaterialLoader.cpp:39 | `getNameLessExtension` is a prefix of the name. |
| MaterialLoader.SplitAtExtension | src/osgEarth/MaterialLoader.cpp:38-41 | The two split the name at one point. |
| MaterialLoader.NameThenExtension | src/osgEarth/MaterialLoader.cpp:38-41 | The name without its extension, followed by the extension, is the name. |
| MaterialLoader.InsertPoint | src/osgEarth/MaterialLoader.cpp:26-41 | The insertion point lies within the name. |
| MaterialLoader.MeifHasNoUnderscore | src/osgEarth/MaterialLoader.cpp:26 | A `.meif` extension, in any case, holds no underscore. |
| MaterialLoader.MeifUnderscoreBeforeExtension | src/osgEarth/MaterialLoader.cpp:26-34 | So a `.meif` name's last underscore comes before its extension. |
| MaterialLoader.MangleInserts | src/osgEarth/MaterialLoader.cpp:21-42 | Every mangler inserts its pattern at a single point of the name, never after the start of the extension: the rest of the name is unchanged. |
| MaterialLoader.UnmangleInverse | src/osgEarth/MaterialLoader.cpp:21-42 | Removing the pattern from the mangled name gives the original back. |
| MaterialLoader.MangleLengthAndExtension | src/osgEarth/MaterialLoader.cpp:31-41 | In both branches, the result is longer by the pattern and ends with the original extension. |
| MaterialLoader.MapNamesDistinct | src/osgEarth/MaterialLoader.cpp:23-81 | The normal (`_NML`), PBR (`_MTL_GLS_AO`) and displacement (`_HGT`) names of one texture are pairwise different. |
| MaterialLoader.Loader.constructor | src/osgEarth/MaterialLoader.cpp:110-114 | A new loader has no manglers and no factories. |
| MaterialLoader.Loader.SetMangler | src/osgEarth/MaterialLoader.cpp:122-128 | Replaces or adds the unit's mangler. Other units, and the factories, are unchanged. |
| MaterialLoader.Loader.SetTextureFactory | src/osgEarth/MaterialLoader.cpp:130-136 | Replaces or adds the unit's factory. Other units, and the manglers, are unchanged. |
| EGM84.OutColumnValue | src/osgEarthDrivers/vdatum_egm84/EGM84.cpp:39-48 | Source column c < 360 goes to output column c+360. Column 360 ≤ c < 720 goes to c−360. |
| EGM84.OutRowValue | src/osgEarthDrivers/vdatum_egm84/EGM84.cpp:44-49 | Source row r goes to output row 360 − r. |
| EGM84.ColumnsBijective | src/osgEarthDrivers/vdatum_egm84/EGM84.cpp:39-48 | The column re-indexing is a bijection on 0..719. |
| EGM84.RowsBijective | src/osgEarthDrivers/vdatum_egm84/EGM84.cpp:44-49 | The row re-indexing is a bijection on 0..360, its own inverse. |
| EGM84.SourceIndexInRange | src/osgEarthDrivers/vdatum_egm84/EGM84.cpp:51 | Every index `r*cols + c` read is below 721*361 and determines its column and row. |
| EGM84.HeightField.Allocate | src/osgEarthDrivers/vdatum_egm84/EGM84.cpp:32-33 | `allocate` gives a cols × rows field of zeros. |
| EGM84.HeightField.SetHeight | src/osgEarthDrivers/vdatum_egm84/EGM84.cpp:52 | Changes that one height only. |
| EGM84.WriteColumn | src/osgEarthDrivers/vdatum_egm84/EGM84.cpp:41-53 | The row loop fills the source column's output column with the column upside down, in metres. No other height changes. |
| EGM84.BuildHeightField | src/osgEarthDrivers/vdatum_egm84/EGM84.cpp:27-58 | The field is 721 × 361, at origin (−180, −90), with half-degree spacing. Each output column of 0..719 holds its source column upside down, so every such cell is written from exactly one source height. Column 720 equals column 0 in every row. |

## Left out

- **ShaderFactory:**
  - The pre- and post-processor callback registries hold `std::function` values and are not modelled.
  - `getRangeUniformName` and `createRangeUniform` are constant wrappers and are not modelled.
  - `OE_SOFT_ASSERT`, the creation and naming of `osg::Shader` objects, and the mutex around the header cache are left out.
  - `ShaderLoader::getAllPragmaValues` is not part of this model. The pragma values of each shader are given as lists.
  - `Capabilities` and `GLUtils` become the `Capabilities` datatype.
  - ShaderFactory.ShaderFactory.GetGLSLHeader: the header cache is the per-factory field `glslHeader`, computed from capabilities fixed for each factory. In the source it is a function-static string (src/osgEarth/ShaderFactory.cpp:40-74) that all factories share, so the first factory to ask fixes it for every other factory.
- **Shader text:**
  - Whitespace, indentation and comment text are not modelled; headings are kept only where their presence is a rule.
  - The `VirtualProgram` stage bit values are not part of this model: the mask is a set of stage kinds.
- ShaderVaryings.ParseDeclaration: the tokenizer's `standardQuotes` setting is not modelled, because pragma declarations hold no quotes.
- Strings: `StringTokenizer` and `as<int>` are not part of this model. They are reconstructed here from how the source uses them: drop or keep delimiters, trim tokens, and read leading decimal digits with 0 as the default.
- ShaderFactory.ShaderFactory.CreateMains: requires every text that dereferences `xformModelToView->begin()` to find a non-empty list, because that dereference is undefined behaviour on an empty list.
- **StyleSheet:**
  - CSS splitting, `Style` and `Config` internals, and URI reads are left out. A script fetched from a URL is a parameter.
  - A style is reduced to its name and its `SelectorSymbol` predicate.
  - The resource-library locks are concurrency.
  - `addStylesFromCSS`, `addResourceLibrary`, `getResourceLibrary`, `getDefaultResourceLibrary`, `setScript` and `getScript` are thin wrappers outside the chosen core and are not modelled.
  - StyleSheet.StyleSheet.GetStyle: the const and non-const `getStyle` differ only in which `getDefaultStyle` they call. The const one is the function `GetStyleConst`.
- **DrawInstanced:**
  - The scene-graph visitors, the model collection, the `osgUtil::Optimizer`, KdTree building, the texture buffer and image GL objects, the serializers, `install`/`remove` and the `USE_INSTANCE_LODS` callback are left out.
  - The vertex transform `v * matrix` is a parameter.
  - `std::map<Vec3f, unsigned>` is a Dafny map keyed by equality.
  - DrawInstanced.ConvertLod: requires at least one child and no more ranges than children, because the source takes `getChild(minIndex)` unchecked.
  - Floats are modelled as reals: the byte values and matrix entries are stored exactly.
- **HTM:**
  - `traverse` (culling, pixel size and distance tests), containsAnyOf, the debug geometry and text, and the settings' threshold are left out.
  - Plane distance, normalisation, midpoints, bounds, centres and diameters are parameters of a `Geometry` record, because they are floating point. The exact cross-product distance is proved for the base triangles only.
  - The tree is modelled as values, with no sharing of nodes.
  - HTM.InsertNode: recursion is bounded by a `fuel` depth, because the source stops splitting only when a cell's diameter reaches the minimum size, which needs float geometry. Without fuel the insertion stops.
  - HTM.Redistribute: an old child that none of the four sub-cells contains is dropped, as the source drops it.
- **KML:**
  - `KML_Point`, `KML_LineString`, `KML_LinearRing`, `KML_Polygon`, `KML_MultiGeometry` and `KML_Model` are not part of this model. Each reader but the multi-geometry one is taken to start an empty geometry of its kind and read the element's own coordinates. The multi-geometry reader reads no coordinates of its own and builds its parts from its children. Polygon rings are not modelled.
  - `getValue` (KML_Common) is not part of this model. It is reconstructed as the first child of the name, case-insensitive.
  - `as<double>` is the parameter `num`, and `osg::equivalent` is a fixed tolerance.
  - KML.KMLGeometry.ParseCoords: the consumed element is returned, not written back into the caller's document.
  - The invalid-mode warning and every style symbol other than the altitude, extrusion and polygon symbols are left out.
- **MaterialLoader:**
  - `apply` (image loading through URI, texture creation, texture parameters) and `setOptions` are I/O over foreign objects.
  - The manglers and factories are type parameters.
- **EGM84:**
  - `EGM84Grid.h` is not part of this model. The table is a sequence of 721 × 361 centimetre values.
  - The centimetre-to-metre conversion is exact real division, not float rounding.
  - The `Geoid` set-up (name, units) and the plugin registration are left out.

## Findings

| source | as written | input that shows it | evidently intended | confidence | as-written member | corrected member |
|---|---|---|---|---|---|---|
| src/osgEarth/HTM.cpp:198 | `for (int i = _children.size() - 1; i >= _children.size()-4; --i)` compares `i` as `size_t`, so with exactly four children `i >= 0` is always true. | A non-leaf `HTMNode` split with `_storeObjectsInLeavesOnly`, so that exactly its four sub-cells remain, and an inserted node whose centre lies in the node's triangle but which float rounding puts outside all four sub-cells: the loop reaches `i == -1` and reads `_children[-1]`. A split empty leaf is not a path, because an empty leaf's bound has radius -1 and so counts as having reached the minimum cell size (src/osgEarth/HTM.cpp:179-181). A centre outside the node's triangle is not a path either, because insertion only enters cells that contain the centre (src/osgEarth/HTM.cpp:201 and 309-318). | Scan only the last four children, from the end, and stop after index `size - 4`, never going below 0. | medium; not executed | HTM.ScanGuardAsWrittenPassesZero | HTM.ScanCellsSpec |
