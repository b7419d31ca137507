/** `StyleSheet` (StyleSheet.cpp): named styles kept in key order, the style
    selectors, the resource libraries and the optional script, with the
    style lookups and the loading and saving of the options.  A style is
    reduced to its name and the predicate of its `SelectorSymbol`; CSS
    parsing and URI reads are inputs. */
module StyleSheet {
  import opened Wrappers
  import opened Strings
  import opened OrderedMaps

  /** A style: its name and, when it holds a `SelectorSymbol`, that symbol's
      predicate. */
  datatype Style = Style(name: string, select: Option<string>)

  datatype StyleSelector = StyleSelector(name: string, styleName: string, expression: string)

  datatype Library = Library(name: string)

  /** `ScriptDef`; a URI that is not set is None. */
  datatype ScriptDef = ScriptDef(name: string, language: string, url: Option<string>, code: string)

  /** The `script` child of a configuration; "" stands for a value that is
      not there. */
  datatype ScriptConf = ScriptConf(name: string, language: string, url: Option<string>, value: string)

  /** A stylesheet configuration.  The styles are those its `style` children
      hold once their CSS blocks are split and parsed, in document order. */
  datatype SheetConf = SheetConf(libraries: seq<Library>, script: Option<ScriptConf>,
                                 selectors: seq<StyleSelector>, styles: seq<Style>)

  predicate EmptyScriptConf(c: ScriptConf) {
    c.name == "" && c.language == "" && c.url.None? && c.value == ""
  }

  // ---------------------------------------------------------------------
  // Several `m[k] = v` in a row

  /** The entries `m[k] = v` leaves after each pair of `kvs` in turn. */
  function PutAll<V>(m: Entries<V>, kvs: seq<(string, V)>): (r: Entries<V>)
    requires OrderedMaps.Valid(m)
    ensures OrderedMaps.Valid(r)
    decreases |kvs|
  {
    if |kvs| == 0 then m else Put(PutAll(m, kvs[..|kvs| - 1]), kvs[|kvs| - 1].0, kvs[|kvs| - 1].1)
  }

  /** The value of the last pair of `kvs` with key `k`. */
  function LastWith<V>(kvs: seq<(string, V)>, k: string): (r: Option<V>)
    ensures r.Some? <==> exists i :: 0 <= i < |kvs| && kvs[i].0 == k
    decreases |kvs|
  {
    if |kvs| == 0 then None
    else if kvs[|kvs| - 1].0 == k then Some(kvs[|kvs| - 1].1)
    else
      var r := LastWith(kvs[..|kvs| - 1], k);
      assert forall i :: 0 <= i < |kvs| - 1 ==> kvs[..|kvs| - 1][i] == kvs[i];
      r
  }

  /** After a run of assignments a key holds the value assigned last, or
      its old value when it was not assigned. */
  lemma {:induction false} GetPutAll<V>(m: Entries<V>, kvs: seq<(string, V)>, k: string)
    requires OrderedMaps.Valid(m)
    ensures Get(PutAll(m, kvs), k) == if LastWith(kvs, k).Some? then LastWith(kvs, k) else Get(m, k)
    decreases |kvs|
  {
    if |kvs| > 0 {
      var last := kvs[|kvs| - 1];
      GetPutAll(m, kvs[..|kvs| - 1], k);
      GetPut(PutAll(m, kvs[..|kvs| - 1]), last.0, last.1, k);
    }
  }

  // ---------------------------------------------------------------------
  // Lookups

  /** `getStyle`, given what the default-style fallback returns: the entry
      for `name`; else, for a name longer than one character starting with
      `#`, the lookup of the rest; else the default when `fallback`; else
      nothing. */
  function StyleLookup(styles: Entries<Style>, name: string, fallback: bool, default: Option<Style>): Option<Style>
    decreases |name|
  {
    if HasKey(styles, name) then Get(styles, name)
    else if |name| > 1 && name[0] == '#' then StyleLookup(styles, name[1..], fallback, default)
    else if fallback then default
    else None
  }

  /** A lookup with the fallback is the lookup without it, completed by the
      default. */
  lemma {:induction false} StyleLookupFallback(styles: Entries<Style>, name: string, default: Option<Style>)
    ensures StyleLookup(styles, name, true, default) ==
      if StyleLookup(styles, name, false, None).Some? then StyleLookup(styles, name, false, None) else default
    decreases |name|
  {
    if !HasKey(styles, name) && |name| > 1 && name[0] == '#' {
      StyleLookupFallback(styles, name[1..], default);
    }
  }

  /** Without the fallback, a style is found exactly under the name with
      some of its leading `#` removed (never the last character): the first
      such key present wins. */
  lemma {:induction false} StyleLookupFinds(styles: Entries<Style>, name: string)
    ensures StyleLookup(styles, name, false, None).Some? ==>
      exists k :: HashPrefix(name, k) && Get(styles, name[k..]) == StyleLookup(styles, name, false, None)
    ensures forall k :: HashPrefix(name, k) && HasKey(styles, name[k..]) ==>
      StyleLookup(styles, name, false, None).Some?
    decreases |name|
  {
    if HasKey(styles, name) {
      assert name[0..] == name && HashPrefix(name, 0);
    } else if |name| > 1 && name[0] == '#' {
      StyleLookupFinds(styles, name[1..]);
      if StyleLookup(styles, name, false, None).Some? {
        var k :| HashPrefix(name[1..], k) && Get(styles, name[1..][k..]) == StyleLookup(styles, name, false, None);
        assert name[1..][k..] == name[k + 1..];
        assert HashPrefix(name, k + 1);
      }
      forall k | HashPrefix(name, k) && HasKey(styles, name[k..])
        ensures StyleLookup(styles, name, false, None).Some?
      {
        assert k != 0;
        assert name[1..][k - 1..] == name[k..];
        assert HashPrefix(name[1..], k - 1);
      }
    } else {
      forall k | HashPrefix(name, k) ensures !HasKey(styles, name[k..]) {
        assert name[0..] == name;
      }
    }
  }

  /** The first `k` characters of `name` are all `#`. */
  predicate HashPrefix(name: string, k: int) {
    0 <= k <= |name| && (k == 0 || k < |name|) && forall j :: 0 <= j < k ==> name[j] == '#'
  }

  /** The non-const `getDefaultStyle` on a non-empty map: `"default"`, else
      `""`, else the first entry; `empty` on an empty map. */
  function DefaultStyle(styles: Entries<Style>, empty: Style): (r: Style)
    ensures |styles| > 0 ==> exists i :: 0 <= i < |styles| && styles[i].1 == r
  {
    if HasKey(styles, "default") then Get(styles, "default").value
    else if HasKey(styles, "") then Get(styles, "").value
    else if |styles| > 0 then styles[0].1
    else empty
  }

  /** The const `getDefaultStyle`: the sole entry of a one-entry map; else
      `"default"`, else `""`, else `empty`. */
  function DefaultStyleConst(styles: Entries<Style>, empty: Style): Style {
    if |styles| == 1 then styles[0].1
    else if HasKey(styles, "default") then Get(styles, "default").value
    else if HasKey(styles, "") then Get(styles, "").value
    else empty
  }

  /** The two default-style lookups agree except on a map of two or more
      entries with neither a `"default"` nor a `""` key, where the const one
      gives the empty style and the other the first entry. */
  lemma DefaultStylesAgree(styles: Entries<Style>, empty: Style)
    requires OrderedMaps.Valid(styles)
    ensures DefaultStyleConst(styles, empty) == DefaultStyle(styles, empty) <==>
      |styles| <= 1 || HasKey(styles, "default") || HasKey(styles, "") || styles[0].1 == empty
    ensures |styles| > 1 && !HasKey(styles, "default") && !HasKey(styles, "") ==>
      DefaultStyleConst(styles, empty) == empty && DefaultStyle(styles, empty) == styles[0].1
  {
    if |styles| == 1 {
      if HasKey(styles, "default") {
        KeyPositionUnique(styles, 0, "default");
      } else if HasKey(styles, "") {
        KeyPositionUnique(styles, 0, "");
      }
    }
  }

  /** `getStyleAndIndex`: the entry and its position in key order, or
      nothing and -1. */
  function StyleAndIndex(styles: Entries<Style>, name: string): (r: (Option<Style>, int))
    ensures r.1 == -1 <==> r.0.None?
    ensures r.0.None? <==> !HasKey(styles, name)
    ensures r.0.Some? ==> 0 <= r.1 < |styles| && styles[r.1] == (name, r.0.value)
    ensures r.0.Some? ==> forall j :: 0 <= j < r.1 ==> styles[j].0 != name
  {
    match IndexOf(styles, name)
    case Some(i) => (Some(styles[i].1), i as int)
    case None => (None, -1 as int)
  }

  /** The first selector named `name`, in key order. */
  function SelectorNamed(selectors: Entries<StyleSelector>, name: string): (r: Option<StyleSelector>)
    decreases |selectors|
  {
    if |selectors| == 0 then None
    else if selectors[0].1.name == name then Some(selectors[0].1)
    else SelectorNamed(selectors[1..], name)
  }

  /** A selector is found exactly when one has that name, and it is the
      first of them. */
  lemma {:induction false} SelectorNamedFirst(selectors: Entries<StyleSelector>, name: string)
    ensures SelectorNamed(selectors, name).Some? <==> exists i :: 0 <= i < |selectors| && selectors[i].1.name == name
    ensures SelectorNamed(selectors, name).Some? ==>
      exists i :: 0 <= i < |selectors| && selectors[i].1 == SelectorNamed(selectors, name).value
        && selectors[i].1.name == name && (forall j :: 0 <= j < i ==> selectors[j].1.name != name)
    decreases |selectors|
  {
    if |selectors| > 0 && selectors[0].1.name != name {
      SelectorNamedFirst(selectors[1..], name);
      if SelectorNamed(selectors, name).Some? {
        var i :| 0 <= i < |selectors| - 1 && selectors[1..][i].1 == SelectorNamed(selectors, name).value
          && selectors[1..][i].1.name == name && forall j :: 0 <= j < i ==> selectors[1..][j].1.name != name;
        assert selectors[i + 1] == selectors[1..][i];
        assert forall j :: 1 <= j < i + 1 ==> selectors[j] == selectors[1..][j - 1];
      }
      if exists i :: 0 <= i < |selectors| && selectors[i].1.name == name {
        var i :| 0 <= i < |selectors| && selectors[i].1.name == name;
        assert selectors[1..][i - 1] == selectors[i];
      }
    }
  }

  // ---------------------------------------------------------------------
  // Loading

  /** Configured items paired with the key each is stored under, in
      configuration order. */
  function KeyedBy<T>(xs: seq<T>, key: T -> string): (r: seq<(string, T)>)
    ensures |r| == |xs| && forall i :: 0 <= i < |xs| ==> r[i] == (key(xs[i]), xs[i])
  {
    seq(|xs|, i requires 0 <= i < |xs| => (key(xs[i]), xs[i]))
  }

  /** A library is keyed by its name. */
  function LibraryKey(l: Library): string { l.name }

  /** A selector read from a configuration is keyed `name:styleName`. */
  function SelectorKey(s: StyleSelector): string {
    s.name + ":" + s.styleName
  }

  /** A style is keyed by its name. */
  function StyleKey(s: Style): string { s.name }

  /** Loading a configured list finds a key exactly when some item has it,
      and then finds the last such item: a later item replaces an earlier
      one with the same key. */
  lemma {:induction false} KeyedLoadFinds<T>(xs: seq<T>, key: T -> string, k: string)
    ensures var r := Get(PutAll([], KeyedBy(xs, key)), k);
      && (r.Some? <==> exists i :: 0 <= i < |xs| && key(xs[i]) == k)
      && (r.Some? ==> exists i :: 0 <= i < |xs| && key(xs[i]) == k && r.value == xs[i] && (forall j :: i < j < |xs| ==> key(xs[j]) != k))
  {
    GetPutAll([], KeyedBy(xs, key), k);
    LastWithKeyed(xs, key, k);
  }

  /** The last pair with key `k` among keyed items is the last such item. */
  lemma {:induction false} LastWithKeyed<T>(xs: seq<T>, key: T -> string, k: string)
    ensures var r := LastWith(KeyedBy(xs, key), k);
      r.Some? ==> exists i :: 0 <= i < |xs| && key(xs[i]) == k && r.value == xs[i] && (forall j :: i < j < |xs| ==> key(xs[j]) != k)
    decreases |xs|
  {
    var n := |xs|;
    if n > 0 && key(xs[n - 1]) != k {
      var init := xs[..n - 1];
      assert KeyedBy(xs, key)[..n - 1] == KeyedBy(init, key);
      LastWithKeyed(init, key, k);
      var r := LastWith(KeyedBy(init, key), k);
      if r.Some? {
        var i :| 0 <= i < |init| && key(init[i]) == k && r.value == init[i] &&
          forall j :: i < j < |init| ==> key(init[j]) != k;
        assert xs[i] == init[i];
        assert forall j :: i < j < n ==> key(xs[j]) != k by {
          forall j | i < j < n ensures key(xs[j]) != k {
            if j < n - 1 { assert xs[j] == init[j]; }
          }
        }
      }
    }
  }

  /** The script a configuration describes, with `fetched` standing for the
      text read from its URL; the language defaults to `javascript`. */
  function LoadedScript(c: Option<ScriptConf>, fetched: string): (r: Option<ScriptDef>)
    ensures r.Some? ==> r.value.language != ""
    ensures r.Some? <==> c.Some? && !EmptyScriptConf(c.value)
  {
    if c.None? || EmptyScriptConf(c.value) then None
    else
      var sc := c.value;
      Some(ScriptDef(sc.name, if sc.language == "" then "javascript" else sc.language, sc.url,
                     if sc.url.Some? then fetched else sc.value))
  }

  const AutoSelectorName := "__oe_auto"
  const AutoMarker := "// __oe_auto__"
  const AutoSelector := StyleSelector(AutoSelectorName, "", "__oe_select_style()")
  const AutoPreludeRest := "\nfunction __oe_select_style() {\n    var combo = '';\n"
  const AutoPrelude := AutoMarker + AutoPreludeRest
  const AutoEpilogue := "    if (combo.length > 0) return combo.substring(0, combo.length-1);\n    return 'default';\n}\n"

  /** The text around a style's predicate and name in its script line. */
  datatype LineTemplate = LineTemplate(open: string, mid: string, close: string)

  const SelectLine := LineTemplate("    if (", ") combo = combo + '", ",';\n")

  /** The script line for one style with a selector symbol. */
  function IfLine(t: LineTemplate, predicate_: string, name: string): string {
    t.open + predicate_ + t.mid + name + t.close
  }

  predicate AnySelect(styles: Entries<Style>) {
    exists i :: 0 <= i < |styles| && styles[i].1.select.Some?
  }

  /** One `if` line per style with a selector symbol, in key order. */
  function IfLines(styles: Entries<Style>, t: LineTemplate): seq<string>
    decreases |styles|
  {
    if |styles| == 0 then []
    else
      var s := styles[|styles| - 1].1;
      IfLines(styles[..|styles| - 1], t) + (if s.select.Some? then [IfLine(t, s.select.value, s.name)] else [])
  }

  function Concat(lines: seq<string>): string
    decreases |lines|
  {
    if |lines| == 0 then "" else Concat(lines[..|lines| - 1]) + lines[|lines| - 1]
  }

  lemma ConcatSnoc(lines: seq<string>, l: string)
    ensures Concat(lines + [l]) == Concat(lines) + l
  {
    assert (lines + [l])[..|lines|] == lines;
  }

  /** The generated selection script. */
  function AutoScript(styles: Entries<Style>): string {
    AutoPrelude + Concat(IfLines(styles, SelectLine)) + AutoEpilogue
  }

  /** Each style with a selector symbol has its line, and every line is such
      a style's, in the order of the styles. */
  lemma {:induction false} IfLinesPerStyle(styles: Entries<Style>, t: LineTemplate)
    ensures |IfLines(styles, t)| <= |styles|
    ensures forall i :: 0 <= i < |styles| && styles[i].1.select.Some? ==>
      IfLine(t, styles[i].1.select.value, styles[i].1.name) in IfLines(styles, t)
    ensures forall l :: l in IfLines(styles, t) ==>
      exists i :: 0 <= i < |styles| && styles[i].1.select.Some? && l == IfLine(t, styles[i].1.select.value, styles[i].1.name)
    ensures |IfLines(styles, t)| == 0 <==> !AnySelect(styles)
    decreases |styles|
  {
    if |styles| > 0 {
      var init := styles[..|styles| - 1];
      IfLinesPerStyle(init, t);
      assert forall i :: 0 <= i < |styles| - 1 ==> init[i] == styles[i];
    }
  }

  /** The selectors after loading: those configured, plus the automatic one
      when some style has a selector symbol. */
  function LoadedSelectors(conf: SheetConf, styles: Entries<Style>): Entries<StyleSelector> {
    var sels := PutAll([], KeyedBy(conf.selectors, SelectorKey));
    if AnySelect(styles) then Put(sels, AutoSelectorName, AutoSelector) else sels
  }

  /** The script after loading: the generated script is the whole script
      when none was configured, and is appended after a blank line
      otherwise. */
  function ScriptWithAuto(script: Option<ScriptDef>, styles: Entries<Style>): Option<ScriptDef> {
    if !AnySelect(styles) then script
    else match script
      case None => Some(ScriptDef("", "javascript", None, AutoScript(styles)))
      case Some(s) => Some(s.(code := s.code + "\n\n" + AutoScript(styles)))
  }

  // ---------------------------------------------------------------------
  // Saving

  /** The selectors saved: all but the automatic one, in key order. */
  function SavedSelectors(selectors: Entries<StyleSelector>): seq<StyleSelector>
    decreases |selectors|
  {
    if |selectors| == 0 then []
    else
      var last := selectors[|selectors| - 1];
      SavedSelectors(selectors[..|selectors| - 1]) + (if last.0 != AutoSelectorName then [last.1] else [])
  }

  lemma {:induction false} SavedSelectorsFilter(selectors: Entries<StyleSelector>)
    ensures forall i :: 0 <= i < |selectors| && selectors[i].0 != AutoSelectorName ==> selectors[i].1 in SavedSelectors(selectors)
    ensures forall s :: s in SavedSelectors(selectors) ==>
      exists i :: 0 <= i < |selectors| && selectors[i].0 != AutoSelectorName && selectors[i].1 == s
    decreases |selectors|
  {
    if |selectors| > 0 {
      var init := selectors[..|selectors| - 1];
      SavedSelectorsFilter(init);
      assert forall i :: 0 <= i < |selectors| - 1 ==> init[i] == selectors[i];
    }
  }

  /** The map's values in key order. */
  function Values<V>(m: Entries<V>): (r: seq<V>)
    ensures |r| == |m| && forall i :: 0 <= i < |m| ==> r[i] == m[i].1
  {
    seq(|m|, i requires 0 <= i < |m| => m[i].1)
  }

  /** Script code as saved: cut at the automatic marker, if present. */
  function CutAtMarker(code: string): (r: string)
    ensures |r| <= |code| && r == code[..|r|]
    ensures Find(code, AutoMarker).None? <==> r == code
  {
    match Find(code, AutoMarker)
    case Some(p) => code[..p]
    case None => code
  }

  /** The `script` child written for a script. */
  function SavedScript(s: ScriptDef): ScriptConf {
    ScriptConf(s.name, s.language, s.url, if s.url.None? && s.code != "" then CutAtMarker(s.code) else "")
  }

  /** The marker contains no line break. */
  lemma MarkerHasNoNewline()
    ensures forall j :: 0 <= j < |AutoMarker| ==> AutoMarker[j] != '\n'
  {
  }

  /** The first marker of `code + "\n\n" + generated` is that of the
      generated script when `code` holds none. */
  lemma FindAfterBlankLine(code: string, generated: string)
    requires Find(code, AutoMarker).None?
    requires OccursAt(generated, AutoMarker, 0)
    ensures Find(code + "\n\n" + generated, AutoMarker) == Some(|code| + 2)
  {
    var s := code + "\n\n" + generated;
    MarkerHasNoNewline();
    assert s[|code| + 2..|code| + 2 + |AutoMarker|] == generated[..|AutoMarker|];
    assert OccursAt(s, AutoMarker, |code| + 2);
    forall j | 0 <= j < |code| + 2 ensures !OccursAt(s, AutoMarker, j) {
      if j + |AutoMarker| <= |code| {
        assert code[j..j + |AutoMarker|] == s[j..j + |AutoMarker|];
        assert !OccursAt(code, AutoMarker, j);
      } else if j + |AutoMarker| <= |s| {
        var n := if j <= |code| then |code| else |code| + 1;
        assert s[n] == '\n';
        assert s[j..j + |AutoMarker|][n - j] != AutoMarker[n - j];
      }
    }
    var f := Find(s, AutoMarker);
    assert f.Some? && f.value <= |code| + 2;
  }

  lemma PrefixOccurs(a: string, b: string)
    ensures OccursAt(a + b, a, 0)
  {
    assert (a + b)[0..|a|] == a;
  }

  /** The generated script starts with the marker. */
  lemma AutoScriptStartsWithMarker(styles: Entries<Style>)
    ensures OccursAt(AutoScript(styles), AutoMarker, 0)
  {
    var mid := Concat(IfLines(styles, SelectLine));
    ConcatAssoc(AutoMarker, AutoPreludeRest, mid, AutoEpilogue);
    PrefixOccurs(AutoMarker, AutoPreludeRest + mid + AutoEpilogue);
  }

  lemma ConcatAssoc(a: string, b: string, c: string, d: string)
    ensures a + b + c + d == a + (b + c + d)
  {
  }

  /** With no configured script, the saved script is an empty `javascript`
      one. */
  lemma SaveAfterLoadNoScript(styles: Entries<Style>)
    requires AnySelect(styles)
    ensures ScriptWithAuto(None, styles).Some?
    ensures SavedScript(ScriptWithAuto(None, styles).value) == ScriptConf("", "javascript", None, "")
  {
    AutoScriptStartsWithMarker(styles);
    assert Find(AutoScript(styles), AutoMarker) == Some(0);
  }

  /** Inline code without the marker is saved followed by the blank line
      that separated it from the generated script. */
  lemma SaveAfterLoadInline(s: ScriptDef, styles: Entries<Style>)
    requires AnySelect(styles) && s.url.None? && Find(s.code, AutoMarker).None?
    ensures ScriptWithAuto(Some(s), styles).Some?
    ensures SavedScript(ScriptWithAuto(Some(s), styles).value) == ScriptConf(s.name, s.language, None, s.code + "\n\n")
  {
    var g := AutoScript(styles);
    AutoScriptStartsWithMarker(styles);
    FindAfterBlankLine(s.code, g);
    assert (s.code + "\n\n" + g)[..|s.code| + 2] == s.code + "\n\n";
  }

  // ---------------------------------------------------------------------
  // The sheet

  class StyleSheet {
    var styles: Entries<Style>
    var selectors: Entries<StyleSelector>
    var libraries: Entries<Library>
    var script: Option<ScriptDef>
    /** `_emptyStyle`. */
    const emptyStyle: Style

    ghost predicate Valid()
      reads this
    {
      OrderedMaps.Valid(styles) && OrderedMaps.Valid(selectors) && OrderedMaps.Valid(libraries)
    }

    constructor ()
      ensures Valid() && styles == [] && selectors == [] && libraries == [] && script.None?
      ensures emptyStyle == Style("", None)
    {
      styles, selectors, libraries, script := [], [], [], None;
      emptyStyle := Style("", None);
    }

    /** `addStyle`: inserts or replaces the entry named by the style. */
    method AddStyle(style: Style)
      requires Valid()
      modifies this
      ensures Valid() && styles == Put(old(styles), style.name, style)
      ensures forall k :: Get(styles, k) == if k == style.name then Some(style) else Get(old(styles), k)
      ensures selectors == old(selectors) && libraries == old(libraries) && script == old(script)
    {
      styles := Put(styles, style.name, style);
      forall k ensures Get(styles, k) == if k == style.name then Some(style) else Get(old(styles), k) {
        GetPut(old(styles), style.name, style, k);
      }
    }

    /** `removeStyle`: erases that key only. */
    method RemoveStyle(name: string)
      requires Valid()
      modifies this
      ensures Valid() && styles == Erase(old(styles), name)
      ensures forall k :: Get(styles, k) == if k == name then None else Get(old(styles), k)
      ensures selectors == old(selectors) && libraries == old(libraries) && script == old(script)
    {
      styles := Erase(styles, name);
      forall k ensures Get(styles, k) == if k == name then None else Get(old(styles), k) {
        GetErase(old(styles), name, k);
      }
    }

    /** `addSelector`: keyed by the selector's name. */
    method AddSelector(value: StyleSelector)
      requires Valid()
      modifies this
      ensures Valid() && selectors == Put(old(selectors), value.name, value)
      ensures Get(selectors, value.name) == Some(value)
      ensures styles == old(styles) && libraries == old(libraries) && script == old(script)
    {
      selectors := Put(selectors, value.name, value);
      GetPut(old(selectors), value.name, value, value.name);
    }

    /** `getSelector`: the scan over the selectors in key order. */
    method GetSelector(name: string) returns (r: Option<StyleSelector>)
      ensures r == SelectorNamed(selectors, name)
    {
      var i := 0;
      while i < |selectors|
        invariant 0 <= i <= |selectors|
        invariant SelectorNamed(selectors, name) == SelectorNamed(selectors[i..], name)
      {
        if selectors[i].1.name == name {
          return Some(selectors[i].1);
        }
        assert selectors[i..][1..] == selectors[i + 1..];
        i := i + 1;
      }
      return None;
    }

    /** The non-const `getDefaultStyle`: inserts the empty style as
        `"default"` into an empty map. */
    method GetDefaultStyle() returns (r: Style)
      requires Valid()
      modifies this
      ensures Valid() && r == DefaultStyle(old(styles), emptyStyle)
      ensures styles == if old(styles) == [] then [("default", emptyStyle)] else old(styles)
      ensures |styles| > 0 && exists i :: 0 <= i < |styles| && styles[i].1 == r
      ensures selectors == old(selectors) && libraries == old(libraries) && script == old(script)
    {
      if HasKey(styles, "default") {
        r := Get(styles, "default").value;
      } else if HasKey(styles, "") {
        r := Get(styles, "").value;
      } else if |styles| > 0 {
        r := styles[0].1;
      } else {
        styles := Put(styles, "default", emptyStyle);
        assert styles[0] == ("default", emptyStyle);
        r := styles[0].1;
      }
    }

    /** The non-const `getStyle`: the lookup of `StyleLookup`, whose
        fallback may insert the default style into an empty map. */
    method GetStyle(name: string, fallback: bool) returns (r: Option<Style>)
      requires Valid()
      modifies this
      ensures Valid()
      ensures r == StyleLookup(old(styles), name, fallback, Some(DefaultStyle(old(styles), emptyStyle)))
      ensures styles == if fallback && old(styles) == [] then [("default", emptyStyle)] else old(styles)
      ensures selectors == old(selectors) && libraries == old(libraries) && script == old(script)
      decreases |name|
    {
      if HasKey(styles, name) {
        r := Get(styles, name);
      } else if |name| > 1 && name[0] == '#' {
        r := GetStyle(name[1..], fallback);
      } else if fallback {
        var d := GetDefaultStyle();
        r := Some(d);
      } else {
        r := None;
      }
    }

    /** The const `getStyle`. */
    function GetStyleConst(name: string, fallback: bool): (r: Option<Style>)
      reads this
    {
      StyleLookup(styles, name, fallback, Some(DefaultStyleConst(styles, emptyStyle)))
    }

    /** `Options::fromConfig`: clears and refills the libraries, the script,
        the selectors and the styles, then adds the automatic selector and
        the generated script when some style has a selector symbol.
        `fetched` is the text read from the script's URL. */
    method FromConfig(conf: SheetConf, fetched: string)
      modifies this
      ensures Valid()
      ensures libraries == PutAll([], KeyedBy(conf.libraries, LibraryKey))
      ensures styles == PutAll([], KeyedBy(conf.styles, StyleKey))
      ensures selectors == LoadedSelectors(conf, styles)
      ensures script == ScriptWithAuto(LoadedScript(conf.script, fetched), styles)
    {
      libraries := LoadLibraries(conf.libraries);
      var loaded := LoadScript(conf.script, fetched);
      var sels := LoadSelectors(conf.selectors);
      styles := LoadStyles(conf.styles);
      selectors, script := AddAutoScript(sels, loaded, styles);
    }

    /** `Options::getConfig`: the selectors but the automatic one, the
        styles and libraries in key order, and the script with its code cut
        at the automatic marker. */
    method GetConfig() returns (conf: SheetConf)
      ensures conf.selectors == SavedSelectors(selectors)
      ensures conf.styles == Values(styles)
      ensures conf.libraries == Values(libraries)
      ensures conf.script == if script.Some? then Some(SavedScript(script.value)) else None
    {
      var saved := [];
      var i := 0;
      while i < |selectors|
        invariant 0 <= i <= |selectors|
        invariant saved == SavedSelectors(selectors[..i])
      {
        if selectors[i].0 != AutoSelectorName {
          saved := saved + [selectors[i].1];
        }
        assert selectors[..i + 1][..i] == selectors[..i];
        i := i + 1;
      }
      assert selectors[..i] == selectors;
      var sc := None;
      if script.Some? {
        var s := script.value;
        var value := "";
        if s.url.None? && s.code != "" {
          var code := s.code;
          var pos := Find(code, AutoMarker);
          if pos.Some? {
            code := code[..pos.value];
          }
          value := code;
        }
        sc := Some(ScriptConf(s.name, s.language, s.url, value));
      }
      conf := SheetConf(Values(libraries), sc, saved, Values(styles));
    }
  }

  /** The library loop of `fromConfig`. */
  method LoadLibraries(libs: seq<Library>) returns (m: Entries<Library>)
    ensures m == PutAll([], KeyedBy(libs, LibraryKey))
  {
    m := [];
    var i := 0;
    while i < |libs|
      invariant 0 <= i <= |libs|
      invariant m == PutAll([], KeyedBy(libs[..i], LibraryKey))
    {
      assert KeyedBy(libs[..i + 1], LibraryKey)[..i] == KeyedBy(libs[..i], LibraryKey);
      m := Put(m, libs[i].name, libs[i]);
      i := i + 1;
    }
    assert libs[..i] == libs;
  }

  /** The script part of `fromConfig`: a configured script that is not
      empty, its code fetched from its URL when it has one, and its
      language `javascript` when none is given. */
  method LoadScript(c: Option<ScriptConf>, fetched: string) returns (r: Option<ScriptDef>)
    ensures r == LoadedScript(c, fetched)
  {
    r := None;
    if c.Some? && !EmptyScriptConf(c.value) {
      var sc := c.value;
      var code := if sc.url.Some? then fetched else sc.value;
      var lang := sc.language;
      r := Some(ScriptDef(sc.name, if lang == "" then "javascript" else lang, sc.url, code));
    }
  }

  /** The end of `fromConfig`: when some style has a selector symbol, the
      automatic selector is added and the generated script becomes the
      script or is appended to it. */
  method AddAutoScript(sels: Entries<StyleSelector>, script: Option<ScriptDef>, styles: Entries<Style>)
    returns (sels': Entries<StyleSelector>, script': Option<ScriptDef>)
    requires OrderedMaps.Valid(sels)
    ensures sels' == if AnySelect(styles) then Put(sels, AutoSelectorName, AutoSelector) else sels
    ensures script' == ScriptWithAuto(script, styles)
  {
    sels', script' := sels, script;
    var found, text := AutoScriptText(styles, AutoPrelude, SelectLine);
    if found {
      sels' := Put(sels, AutoSelectorName, AutoSelector);
      var newCode := text + AutoEpilogue;
      if script.None? {
        script' := Some(ScriptDef("", "javascript", None, newCode));
      } else {
        script' := Some(script.value.(code := script.value.code + "\n\n" + newCode));
      }
    }
  }

  /** The selector loop of `fromConfig`. */
  method LoadSelectors(sels: seq<StyleSelector>) returns (m: Entries<StyleSelector>)
    ensures m == PutAll([], KeyedBy(sels, SelectorKey))
  {
    m := [];
    var i := 0;
    while i < |sels|
      invariant 0 <= i <= |sels|
      invariant m == PutAll([], KeyedBy(sels[..i], SelectorKey))
    {
      assert KeyedBy(sels[..i + 1], SelectorKey)[..i] == KeyedBy(sels[..i], SelectorKey);
      var unique := sels[i].name + ":" + sels[i].styleName;
      m := Put(m, unique, sels[i]);
      i := i + 1;
    }
    assert sels[..i] == sels;
  }

  /** The style loop of `fromConfig`. */
  method LoadStyles(styles: seq<Style>) returns (m: Entries<Style>)
    ensures m == PutAll([], KeyedBy(styles, StyleKey))
  {
    m := [];
    var i := 0;
    while i < |styles|
      invariant 0 <= i <= |styles|
      invariant m == PutAll([], KeyedBy(styles[..i], StyleKey))
    {
      assert KeyedBy(styles[..i + 1], StyleKey)[..i] == KeyedBy(styles[..i], StyleKey);
      m := Put(m, styles[i].name, styles[i]);
      i := i + 1;
    }
    assert styles[..i] == styles;
  }

  /** One more style of the scan: a selector symbol adds its line. */
  lemma AutoScriptStep(styles: Entries<Style>, i: nat, t: LineTemplate)
    requires i < |styles|
    ensures var s := styles[i].1;
      && (AnySelect(styles[..i + 1]) <==> AnySelect(styles[..i]) || s.select.Some?)
      && IfLines(styles[..i + 1], t) == IfLines(styles[..i], t) + (if s.select.Some? then [IfLine(t, s.select.value, s.name)] else [])
  {
    assert styles[..i + 1][..i] == styles[..i];
    assert styles[..i + 1][i] == styles[i];
  }

  /** The scan that builds `auto_script`: the prelude (`AutoPrelude`) at
      the first style with a selector symbol, then one line per such
      style. */
  method AutoScriptText(styles: Entries<Style>, prelude: string, t: LineTemplate) returns (found: bool, text: string)
    ensures found == AnySelect(styles)
    ensures text == if found then prelude + Concat(IfLines(styles, t)) else ""
  {
    found := false;
    text := "";
    ghost var lines: seq<string> := [];
    var i := 0;
    while i < |styles|
      invariant 0 <= i <= |styles|
      invariant found == AnySelect(styles[..i])
      invariant lines == IfLines(styles[..i], t)
      invariant found ==> text == prelude + Concat(lines)
      invariant !found ==> text == "" && lines == []
    {
      var s := styles[i].1;
      AutoScriptStep(styles, i, t);
      if s.select.Some? {
        var l := IfLine(t, s.select.value, s.name);
        if !found {
          found := true;
          text := prelude;
        }
        ConcatSnoc(lines, l);
        text := text + l;
        lines := lines + [l];
      }
      i := i + 1;
    }
    assert styles[..i] == styles;
  }
}
