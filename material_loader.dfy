// The file-name manglers of the material loader, which derive the names of
// a texture's normal, PBR and displacement maps from the texture's own file
// name, and the loader's per-unit tables of manglers and texture factories.

module MaterialLoader {
  import opened Wrappers
  import opened Strings

  // ---------------------------------------------------------------------
  // File names

  /** The path separators of `osgDB`: slash and backslash. */
  const PathSeparators: set<char> := {'/', '\\'}

  /** Where a file name's extension starts: its last dot, unless there is
      none or a path separator comes after it. */
  function ExtensionStart(f: string): (r: Option<nat>)
    ensures r.Some? ==> r.value < |f| && f[r.value] == '.'
    ensures r.Some? ==> forall j :: r.value < j < |f| ==> f[j] != '.' && f[j] !in PathSeparators
  {
    match FindLast(f, '.')
    case None => None
    case Some(d) =>
      match FindLastOf(f, PathSeparators)
      case Some(s) => if d < s then None else Some(d)
      case None => Some(d)
  }

  /** `osgDB::getFileExtensionIncludingDot`. */
  function DotExt(f: string): (r: string)
    ensures |r| <= |f| && r == f[|f| - |r|..]
  {
    match ExtensionStart(f)
    case Some(d) => f[d..]
    case None => ""
  }

  /** `osgDB::getNameLessExtension`. */
  function NameLessExt(f: string): (r: string)
    ensures |r| <= |f| && r == f[..|r|]
  {
    match ExtensionStart(f)
    case Some(d) => f[..d]
    case None => f
  }

  /** A name is split at its extension: the name without the extension
      is the part before it, the extension the part from it on. */
  lemma SplitAtExtension(f: string)
    ensures var n := |NameLessExt(f)|; NameLessExt(f) == f[..n] && DotExt(f) == f[n..]
  {
  }

  /** A name split at its extension gives the name back. */
  lemma NameThenExtension(f: string)
    ensures NameLessExt(f) + DotExt(f) == f
  {
    SplitAtExtension(f);
    var n := |NameLessExt(f)|;
    assert f[..n] + f[n..] == f;
  }

  /** `Strings::ciEquals(ext, ".meif")`. */
  predicate IsMeif(ext: string) {
    ToLower(ext) == ".meif"
  }

  /** Where a mangler puts its pattern: before the last underscore of a
      `.meif` name that has one, and otherwise before the extension. */
  function InsertPoint(f: string): (r: nat)
    ensures r <= |f|
  {
    if IsMeif(DotExt(f)) && FindLast(f, '_').Some? then FindLast(f, '_').value
    else |NameLessExt(f)|
  }

  /** The default manglers of `MaterialUtils`, differing only in `pattern`:
      a `.meif` name with an underscore gets the pattern inserted before
      its last underscore; any other name gets it between the name and the
      extension. */
  function Mangle(pattern: string, f: string): string {
    var ext := DotExt(f);
    if IsMeif(ext) && FindLast(f, '_').Some? then
      var u := FindLast(f, '_').value;
      f[..u] + pattern + f[u..]
    else
      NameLessExt(f) + pattern + ext
  }

  /** `getDefaultNormalMapNameMangler`. */
  function NormalMapName(f: string): string {
    Mangle("_NML", f)
  }

  /** `getDefaultPBRMapNameMangler`. */
  function PBRMapName(f: string): string {
    Mangle("_MTL_GLS_AO", f)
  }

  /** `getDefaultDisplacementMapNameMangler`. */
  function DisplacementMapName(f: string): string {
    Mangle("_HGT", f)
  }

  /** A `.meif` extension, in any case, holds no underscore. */
  lemma MeifHasNoUnderscore(ext: string)
    requires IsMeif(ext)
    ensures forall k :: 0 <= k < |ext| ==> ext[k] != '_'
  {
    var m := ".meif";
    assert forall k :: 0 <= k < |m| ==> m[k] != '_';
    forall k | 0 <= k < |ext|
      ensures ext[k] != '_'
    {
      assert ToLower(ext)[k] == LowerChar(ext[k]);
    }
  }

  /** So a `.meif` name's last underscore comes before its extension. */
  lemma MeifUnderscoreBeforeExtension(f: string)
    requires IsMeif(DotExt(f)) && FindLast(f, '_').Some?
    ensures FindLast(f, '_').value < |NameLessExt(f)|
  {
    var u := FindLast(f, '_').value;
    SplitAtExtension(f);
    MeifHasNoUnderscore(DotExt(f));
  }

  /** Every mangler inserts its pattern into the name at the insertion
      point, which is never inside the extension. */
  lemma MangleInserts(pattern: string, f: string)
    ensures InsertPoint(f) <= |NameLessExt(f)|
    ensures Mangle(pattern, f) == f[..InsertPoint(f)] + pattern + f[InsertPoint(f)..]
  {
    SplitAtExtension(f);
    if IsMeif(DotExt(f)) && FindLast(f, '_').Some? {
      MeifUnderscoreBeforeExtension(f);
    }
  }

  /** Inserting `p` at `i` into `a` lengthens it by `p` and keeps every
      suffix of `a` that starts at or after `i`. */
  lemma InsertionFacts(a: string, p: string, i: nat, n: nat, r: string)
    requires i <= n <= |a| && r == a[..i] + p + a[i..]
    ensures |r| == |a| + |p|
    ensures r[|r| - (|a| - n)..] == a[n..]
    ensures i + |p| <= |r| && r[i..i + |p|] == p && r[..i] + r[i + |p|..] == a
  {
    assert r[|r| - (|a| - n)..] == a[i..][n - i..];
    assert r[..i] == a[..i] && r[i + |p|..] == a[i..];
    assert a[..i] + a[i..] == a;
  }

  /** The mangled name is the original with `pattern` added at the
      insertion point: removing it gives the original back. */
  lemma UnmangleInverse(pattern: string, f: string)
    ensures var r, i := Mangle(pattern, f), InsertPoint(f);
      i + |pattern| <= |r| && r[i..i + |pattern|] == pattern && r[..i] + r[i + |pattern|..] == f
  {
    MangleInserts(pattern, f);
    InsertionFacts(f, pattern, InsertPoint(f), InsertPoint(f), Mangle(pattern, f));
  }

  /** In both branches the mangled name is longer by the pattern and keeps
      the original extension as its suffix. */
  lemma MangleLengthAndExtension(pattern: string, f: string)
    ensures |Mangle(pattern, f)| == |f| + |pattern|
    ensures var r, ext := Mangle(pattern, f), DotExt(f); |ext| <= |r| && r[|r| - |ext|..] == ext
  {
    MangleInserts(pattern, f);
    SplitAtExtension(f);
    InsertionFacts(f, pattern, InsertPoint(f), |NameLessExt(f)|, Mangle(pattern, f));
  }

  /** The three maps of one texture never share a name: the PBR name is
      longer than the other two, and the normal and displacement names put
      different patterns at the same place. */
  lemma MapNamesDistinct(f: string)
    ensures NormalMapName(f) != PBRMapName(f)
    ensures PBRMapName(f) != DisplacementMapName(f)
    ensures NormalMapName(f) != DisplacementMapName(f)
  {
    var nml, pbr, hgt := "_NML", "_MTL_GLS_AO", "_HGT";
    MangleInserts(nml, f);
    MangleInserts(pbr, f);
    MangleInserts(hgt, f);
    var i := InsertPoint(f);
    InsertionFacts(f, nml, i, i, NormalMapName(f));
    InsertionFacts(f, pbr, i, i, PBRMapName(f));
    InsertionFacts(f, hgt, i, i, DisplacementMapName(f));
    assert NormalMapName(f)[i..i + 4][1] != DisplacementMapName(f)[i..i + 4][1];
  }

  // ---------------------------------------------------------------------
  // The loader

  /** A `MaterialLoader`'s tables: the mangler and the texture factory of
      each texture unit. */
  class Loader<Mangler, Factory> {
    var manglers: map<int, Mangler>
    var factories: map<int, Factory>

    constructor()
      ensures manglers == map[] && factories == map[]
    {
      manglers := map[];
      factories := map[];
    }

    /** `setMangler`: the unit's mangler is replaced, or added, and no other
        unit's changes. */
    method SetMangler(unit: int, m: Mangler)
      modifies this
      ensures manglers == old(manglers)[unit := m]
      ensures factories == old(factories)
    {
      manglers := manglers[unit := m];
    }

    /** `setTextureFactory`: the unit's factory is replaced, or added, and
        no other unit's changes. */
    method SetTextureFactory(unit: int, f: Factory)
      modifies this
      ensures factories == old(factories)[unit := f]
      ensures manglers == old(manglers)
    {
      factories := factories[unit := f];
    }
  }
}
