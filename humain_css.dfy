/**
 * build-humain-css.js: the HUMAIN core and light-theme colour tokens written
 * as `--humain-` variables, followed by fixed overrides that point six
 * Paragon variables at HUMAIN ones, with the Paragon value as the fallback
 * (the `var(a, b)` form of section 3 of CSS Custom Properties for Cascading
 * Variables Level 1).
 */
module HumainCss {
  import opened Wrappers
  import opened VarSets
  import opened Tokens
  import opened CssText
  import opened HumainTable

  /** The namespace of the HUMAIN variable names. */
  const Humain: string := "--humain-"

  /**
   * `flattenTokens(obj, prefix)`: a fresh object holding each token's
   * `$value` under its dash-joined path (no namespace), the results of nested
   * groups copied in with `Object.assign`.
   */
  method FlattenTokens(obj: Node, prefix: string) returns (result: TokenMap)
    ensures fresh(result) && result.Valid()
    ensures result.Value() == PutAll(Empty, Flatten(obj, "", prefix))
    decreases obj, 1
  {
    result := new TokenMap();
    EmptyWellFormed();
    FlattenFields(obj, prefix, result);
  }

  /** The loop of `flattenTokens` over the members of `obj`, filling `result`. */
  method FlattenFields(obj: Node, prefix: string, result: TokenMap)
    requires result.Valid()
    modifies result
    ensures result.Valid() && result.Value() == PutAll(old(result.Value()), Flatten(obj, "", prefix))
    decreases obj, 0
  {
    var entries := Fields(obj);
    for i := 0 to |entries|
      invariant result.Valid()
      invariant result.Value() == PutAll(old(result.Value()), Writes(obj, i, "", prefix))
    {
      AssignMember(old(result.Value()), obj, i, "", prefix);
      FlattenMember(entries[i], prefix, result);
    }
  }

  /**
   * One pass of the loop in `flattenTokens`: a `$` key is skipped, a token is
   * assigned, and a nested group is flattened into a fresh object that is
   * then copied in with `Object.assign`.
   */
  method FlattenMember(member: (string, Node), prefix: string, result: TokenMap)
    requires result.Valid()
    modifies result
    ensures result.Valid() && result.Value() == PutAll(old(result.Value()), MemberWrites(member, "", prefix))
    decreases member.1, 2
  {
    var (key, value) := member;
    if IsMeta(key) {
      return;
    }
    var newPrefix := Extend(prefix, key);
    match value
    case Token(v, _) =>
      assert "" + newPrefix == newPrefix;
      PutAllSingle(result.Value(), newPrefix, v);
      result.Set(newPrefix, v);
    case Group(_) =>
      var child := FlattenTokens(value, newPrefix);
      result.Assign(child);
      AssignFresh(old(result.Value()), Flatten(value, "", newPrefix));
    case Scalar =>
  }

  /** The variable set `flattenTokens(obj)` returns. */
  function Flat(obj: Node): (r: VarSet)
    ensures WellFormed(r)
  {
    EmptyWellFormed();
    PutAll(Empty, Flatten(obj, "", ""))
  }

  /** `var(H, var(P))`: the HUMAIN variable, or the Paragon one when it is not set. */
  function OverrideValue(m: Mapping): string {
    "var(" + m.humain + ", var(" + m.paragon + "))"
  }

  /** One override declaration per mapping, naming the Paragon variable. */
  function Overrides(ms: seq<Mapping>): (r: seq<(string, string)>)
    ensures |r| == |ms|
    ensures forall k :: 0 <= k < |ms| ==> r[k] == (ms[k].paragon, OverrideValue(ms[k]))
  {
    seq(|ms|, k requires 0 <= k < |ms| => (ms[k].paragon, OverrideValue(ms[k])))
  }

  /**
   * The sheet: the core colour tokens, then the light colour tokens, each as
   * `--humain-` variables, then the overrides, in one `:root` block.
   */
  function HumainSheet(core: VarSet, light: VarSet): string
    requires WellFormed(core) && WellFormed(light)
  {
    RootHead + DeclLines(Entries(core), "  ", Humain) + DeclLines(Entries(light), "  ", Humain)
    + DeclLines(Overrides(Mappings), "  ", "") + RootTail
  }

  lemma OverrideLine(m: Mapping)
    ensures Decl("  ", "" + m.paragon, OverrideValue(m)) ==
      "  " + m.paragon + ": var(" + m.humain + ", var(" + m.paragon + "));\n"
  {
    assert "" + m.paragon == m.paragon;
    var p, h := m.paragon, m.humain;
    calc {
      "  " + p + ": " + ("var(" + h + ", var(" + p + "))") + ";\n";
      "  " + p + (": " + "var(") + h + ", var(" + p + ("))" + ";\n");
      { assert ": " + "var(" == ": var(" && "))" + ";\n" == "));\n"; }
      "  " + p + ": var(" + h + ", var(" + p + "));\n";
    }
  }

  lemma AppendAssoc(a: string, b: string, c: string)
    ensures a + b + c == a + (b + c)
  {
  }

  /**
   * One of the two token loops: appends `  --humain-<key>: <value>;` and a
   * line break to `css` for each entry of `tokens`, in order.
   */
  method AppendTokenLines(css: string, tokens: TokenMap) returns (out: string)
    requires tokens.Valid()
    ensures out == css + DeclLines(Entries(tokens.Value()), "  ", Humain)
  {
    var entries := Entries(tokens.Value());
    out := css;
    for i := 0 to |entries|
      invariant out == css + DeclLines(entries[..i], "  ", Humain)
    {
      var (key, value) := entries[i];
      var varName := "--humain-" + key;
      DeclLinesSnoc(entries, i, "  ", Humain);
      var line := "  " + varName + ": " + value + ";\n";
      assert line == Decl("  ", Humain + key, value);
      AppendAssoc(css, DeclLines(entries[..i], "  ", Humain), line);
      out := out + line;
    }
    assert entries[..|entries|] == entries;
  }

  /** The mapping loop: appends one override line per row of the table, in order. */
  method AppendOverrideLines(css: string) returns (out: string)
    ensures out == css + DeclLines(Overrides(Mappings), "  ", "")
  {
    var overrides := Overrides(Mappings);
    out := css;
    for i := 0 to |Mappings|
      invariant out == css + DeclLines(overrides[..i], "  ", "")
    {
      var mapping := Mappings[i];
      DeclLinesSnoc(overrides, i, "  ", "");
      OverrideLine(mapping);
      var line := "  " + mapping.paragon + ": var(" + mapping.humain + ", var(" + mapping.paragon + "));\n";
      AppendAssoc(css, DeclLines(overrides[..i], "  ", ""), line);
      out := out + line;
    }
    assert overrides[..|overrides|] == overrides;
  }

  /**
   * `createHUMAINOverrides()` on the decoded token files. The component
   * tokens are flattened and then not used.
   */
  method CreateHumainOverrides(coreColors: Node, lightColors: Node, lightComponent: Node) returns (css: string)
    ensures css == HumainSheet(Flat(coreColors), Flat(lightColors))
  {
    var coreColorTokens := FlattenTokens(coreColors, "");
    var lightColorTokens := FlattenTokens(lightColors, "");
    var componentTokens := FlattenTokens(lightComponent, "");
    css := ":root {\n";
    css := AppendTokenLines(css, coreColorTokens);
    css := AppendTokenLines(css, lightColorTokens);
    css := AppendOverrideLines(css);
    css := css + "}\n";
  }

  lemma OverrideValuePrintable(m: Mapping)
    requires '\n' !in m.paragon && '\n' !in m.humain
    ensures '\n' !in OverrideValue(m)
  {
  }

  /** The override names have no `:` and no line break, and their values no line break. */
  lemma OverridesPrintable()
    ensures Printable(Overrides(Mappings), "")
  {
    var os := Overrides(Mappings);
    MappingsPlain();
    forall k | 0 <= k < |Mappings|
      ensures ':' !in "" + os[k].0 && '\n' !in "" + os[k].0 && '\n' !in os[k].1
    {
      var m := Mappings[k];
      assert PlainRow(m);
      OverrideValuePrintable(m);
      assert "" + os[k].0 == m.paragon;
    }
  }

  /** The declarations the sheet holds, in order. */
  function SheetDecls(core: VarSet, light: VarSet): seq<(string, string)>
    requires WellFormed(core) && WellFormed(light)
  {
    Renamed(Entries(core), Humain) + Renamed(Entries(light), Humain) + Overrides(Mappings)
  }

  lemma Regroup(h: string, a: string, b: string, c: string, t: string)
    ensures h + a + b + c + t == h + (a + b + c) + t
  {
  }

  /**
   * The sheet is one `:root` block that reads back as the core colour
   * declarations, then the light colour declarations, each under
   * `--humain-`, then the six overrides in table order.
   */
  lemma HumainSheetReadsBack(core: VarSet, light: VarSet)
    requires WellFormed(core) && WellFormed(light)
    requires Printable(Entries(core), Humain) && Printable(Entries(light), Humain)
    ensures ParseRootBlock(HumainSheet(core, light), "  ") == Some(SheetDecls(core, light))
  {
    var a := DeclLines(Entries(core), "  ", Humain);
    var b := DeclLines(Entries(light), "  ", Humain);
    var c := DeclLines(Overrides(Mappings), "  ", "");
    ParseDeclLines(Entries(core), "  ", Humain);
    ParseDeclLines(Entries(light), "  ", Humain);
    OverridesPrintable();
    ParseDeclLines(Overrides(Mappings), "  ", "");
    RenamedEmpty(Overrides(Mappings));
    var ra, rb := Renamed(Entries(core), Humain), Renamed(Entries(light), Humain);
    ParseDeclsConcat(a, b, "  ", ra, rb);
    ParseDeclsConcat(a + b, c, "  ", ra + rb, Overrides(Mappings));
    assert HumainSheet(core, light) == RootHead + a + b + c + RootTail;
    Regroup(RootHead, a, b, c, RootTail);
    ParseRootBlockBody(a + b + c, "  ");
  }

  /**
   * Where each declaration sits: core colours first, light colours next,
   * the six overrides last.
   */
  lemma SheetLayout(core: VarSet, light: VarSet)
    requires WellFormed(core) && WellFormed(light)
    ensures |SheetDecls(core, light)| == |core.names| + |light.names| + 6
    ensures forall k :: 0 <= k < |core.names| ==>
      SheetDecls(core, light)[k] == (Humain + core.names[k], core.values[core.names[k]])
    ensures forall k :: 0 <= k < |light.names| ==>
      SheetDecls(core, light)[|core.names| + k] == (Humain + light.names[k], light.values[light.names[k]])
    ensures forall k :: 0 <= k < 6 ==>
      SheetDecls(core, light)[|core.names| + |light.names| + k] == (Mappings[k].paragon, OverrideValue(Mappings[k]))
  {
    var ra, rb, os := Renamed(Entries(core), Humain), Renamed(Entries(light), Humain), Overrides(Mappings);
    var d := SheetDecls(core, light);
    assert d == ra + rb + os;
    forall k | 0 <= k < |core.names|
      ensures d[k] == (Humain + core.names[k], core.values[core.names[k]])
    {
      assert d[k] == ra[k];
    }
    forall k | 0 <= k < |light.names|
      ensures d[|core.names| + k] == (Humain + light.names[k], light.values[light.names[k]])
    {
      assert d[|core.names| + k] == rb[k];
    }
    forall k | 0 <= k < 6
      ensures d[|core.names| + |light.names| + k] == (Mappings[k].paragon, OverrideValue(Mappings[k]))
    {
      assert d[|core.names| + |light.names| + k] == os[k];
    }
  }

  /**
   * The two token sets are not merged: a key in both is declared twice, the
   * core colour value first and the light colour value after it.
   */
  lemma SharedKeyDeclaredTwice(core: VarSet, light: VarSet, key: string) returns (p: nat, q: nat)
    requires WellFormed(core) && WellFormed(light)
    requires key in core.values && key in light.values
    ensures p < q < |SheetDecls(core, light)|
    ensures SheetDecls(core, light)[p] == (Humain + key, core.values[key])
    ensures SheetDecls(core, light)[q] == (Humain + key, light.values[key])
  {
    var ra, rb := Renamed(Entries(core), Humain), Renamed(Entries(light), Humain);
    var d := SheetDecls(core, light);
    assert d == ra + rb + Overrides(Mappings);
    var i := FirstIndex(core.names, key);
    var j := FirstIndex(light.names, key);
    assert d[i] == ra[i];
    assert d[|ra| + j] == rb[j];
    p, q := i, |ra| + j;
  }
}
