/**
 * build-merged-css.js: the combined `--pgn-` variable set spliced into the
 * first `:root{...}` block of Paragon's `light.min.css`, or put in a fresh
 * block before the stylesheet when there is no such block.
 */
module MergedCss {
  import opened Wrappers
  import opened VarSets
  import opened Tokens
  import opened CssText
  import opened PgnTokens

  /** `createCSSVariables(tokens)`: the fallback block, declarations not indented. */
  method CreateCssVariables(tokens: TokenMap) returns (css: string)
    requires tokens.Valid()
    ensures css == RootBlock(Entries(tokens.Value()), "")
  {
    var entries := Entries(tokens.Value());
    css := ":root {\n";
    for i := 0 to |entries|
      invariant css == RootHead + DeclLines(entries[..i], "", "")
    {
      var (varName, value) := entries[i];
      DeclLinesSnoc(entries, i, "", "");
      UnindentedDecl(varName, value);
      css := css + (varName + ": " + value + ";\n");
    }
    assert entries[..|entries|] == entries;
    css := css + "}\n";
  }

  lemma UnindentedDecl(name: string, value: string)
    ensures Decl("", "" + name, value) == name + ": " + value + ";\n"
  {
    assert "" + name == name;
  }

  /** The `newRootVars` loop: `name: value;` per entry, run together. */
  method NewRootVars(tokens: TokenMap) returns (newRootVars: string)
    requires tokens.Valid()
    ensures newRootVars == InlineDecls(Entries(tokens.Value()))
  {
    var entries := Entries(tokens.Value());
    newRootVars := "";
    for i := 0 to |entries|
      invariant newRootVars == InlineDecls(entries[..i])
    {
      var (varName, value) := entries[i];
      assert entries[..i + 1][..i] == entries[..i];
      newRootVars := newRootVars + varName + ": " + value + ";";
    }
    assert entries[..|entries|] == entries;
  }

  /** `s` holds `pat` from index `i` on. */
  ghost predicate OccursAt(s: string, pat: string, i: nat) {
    i + |pat| <= |s| && s[i..i + |pat|] == pat
  }

  function ContainsFrom(s: string, pat: string, from: nat): (r: bool)
    ensures r <==> exists i :: from <= i && OccursAt(s, pat, i)
    decreases |s| - from
  {
    if from + |pat| > |s| then false
    else if s[from..from + |pat|] == pat then
      assert OccursAt(s, pat, from);
      true
    else
      var r := ContainsFrom(s, pat, from + 1);
      assert !OccursAt(s, pat, from);
      r
  }

  /** `s.includes(pat)` */
  function Contains(s: string, pat: string): (r: bool)
    ensures r <==> exists i :: OccursAt(s, pat, i)
  {
    ContainsFrom(s, pat, 0)
  }

  /** The text both the test and the pattern look for: `:root{` with no space. */
  const RootOpen: string := ":root{"

  /**
   * `/:root\{([^}]+)\}/` matches `s[i..j + 1]`: `:root{` at `i`, then one or
   * more characters other than `}`, then the `}` at `j`.
   */
  ghost predicate RootMatch(s: string, i: nat, j: nat) {
    && i + 6 < j < |s|
    && s[i..i + 6] == RootOpen
    && s[j] == '}'
    && (forall k :: i + 6 <= k < j ==> s[k] != '}')
  }

  /** At a given start there is at most one match: its body stops at the first `}`. */
  lemma MatchEndUnique(s: string, i: nat, j: nat, j': nat)
    requires RootMatch(s, i, j) && RootMatch(s, i, j')
    ensures j == j'
  {
  }

  /** The leftmost match starting at or after `from`, as (start, index of the closing `}`). */
  function FindRootFrom(s: string, from: nat): (r: Option<(nat, nat)>)
    ensures r.Some? ==> from <= r.value.0 && RootMatch(s, r.value.0, r.value.1)
    ensures r.Some? ==> forall i, j :: from <= i < r.value.0 ==> !RootMatch(s, i, j)
    ensures r.None? ==> forall i, j :: from <= i ==> !RootMatch(s, i, j)
    decreases |s| - from
  {
    if |s| < from + 8 then None
    else
      var j := IndexOf(s, '}', from + 6);
      IndexOfSpec(s, '}', from + 6);
      if s[from..from + 6] == RootOpen && from + 6 < j < |s| then Some((from, j))
      else
        var r := FindRootFrom(s, from + 1);
        assert forall j' :: !RootMatch(s, from, j') by {
          forall j': nat | RootMatch(s, from, j') ensures false {
          }
        }
        r
  }

  /** `s.match(/:root\{([^}]+)\}/)`: the leftmost match, if any. */
  function FindRoot(s: string): (r: Option<(nat, nat)>)
    ensures r.Some? ==> RootMatch(s, r.value.0, r.value.1)
    ensures r.Some? ==> forall i, j :: RootMatch(s, i, j) ==> r.value.0 <= i
    ensures r.None? ==> forall i, j :: !RootMatch(s, i, j)
  {
    FindRootFrom(s, 0)
  }

  /**
   * The replacement text `String.prototype.replace` inserts for the template
   * `rep` (GetSubstitution, section 22.1.3.19.1 of ECMA-262, 2024 edition), for
   * a pattern with no capture groups: `$$` gives `$`, `` $& `` the matched
   * text, `` $` `` the text before the match, `$'` the text after it; any other
   * character, a lone `$` included, stands for itself.
   */
  function Substitute(rep: string, matched: string, before: string, after: string): string
    decreases |rep|
  {
    if rep == "" then ""
    else if rep[0] == '$' && |rep| >= 2 && rep[1] in "$&`'" then
      (if rep[1] == '$' then "$" else if rep[1] == '&' then matched else if rep[1] == '`' then before else after)
      + Substitute(rep[2..], matched, before, after)
    else [rep[0]] + Substitute(rep[1..], matched, before, after)
  }

  /** A template without `$` is inserted as it is. */
  lemma {:induction false} SubstituteLiteral(rep: string, matched: string, before: string, after: string)
    requires '$' !in rep
    ensures Substitute(rep, matched, before, after) == rep
    decreases |rep|
  {
    if rep != "" {
      assert rep[0] != '$';
      assert '$' !in rep[1..];
      SubstituteLiteral(rep[1..], matched, before, after);
      assert [rep[0]] + rep[1..] == rep;
    }
  }

  /** Text without `$` before the first pattern is copied through. */
  lemma {:induction false} SubstitutePrefix(pre: string, rest: string, matched: string, before: string, after: string)
    requires '$' !in pre
    ensures Substitute(pre + rest, matched, before, after) == pre + Substitute(rest, matched, before, after)
    decreases |pre|
  {
    if pre != "" {
      var s := pre + rest;
      assert s[0] == pre[0] && s[0] != '$';
      assert s[1..] == pre[1..] + rest;
      assert Substitute(s, matched, before, after) == [s[0]] + Substitute(s[1..], matched, before, after);
      assert '$' !in pre[1..];
      SubstitutePrefix(pre[1..], rest, matched, before, after);
      var tail := Substitute(rest, matched, before, after);
      assert [pre[0]] + (pre[1..] + tail) == pre + tail;
    } else {
      assert pre + rest == rest;
    }
  }

  /** The replacement `:root{${newRootVars}${existingVars}}` */
  function Template(entries: seq<(string, string)>, existing: string): string {
    RootOpen + InlineDecls(entries) + existing + "}"
  }

  /**
   * The script as written: `lightMinCSS.replace(/:root\{[^}]+\}/, template)`
   * with the template `:root{${newRootVars}${existingVars}}`, which
   * `replace` reads for `$` patterns.
   */
  function MergeAsWritten(entries: seq<(string, string)>, css: string): string {
    if !Contains(css, RootOpen) then RootBlock(entries, "") + css
    else match FindRoot(css)
      case None => RootBlock(entries, "") + css
      case Some((i, j)) =>
        css[..i] + Substitute(Template(entries, css[i + 6..j]), css[i..j + 1], css[..i], css[j + 1..]) + css[j + 1..]
  }

  /**
   * The merge with the template inserted literally: the first `:root{body}`
   * becomes `:root{` + the new declarations + `body}`; with no such block a
   * fresh unindented block goes before the whole stylesheet.
   */
  function Merge(entries: seq<(string, string)>, css: string): string {
    if !Contains(css, RootOpen) then RootBlock(entries, "") + css
    else match FindRoot(css)
      case None => RootBlock(entries, "") + css
      case Some((i, j)) => css[..i] + Template(entries, css[i + 6..j]) + css[j + 1..]
  }

  /** The leftmost match is the one `FindRoot` reports, and the test for `:root{` passes. */
  lemma LeftmostIsFound(css: string, i: nat, j: nat)
    requires RootMatch(css, i, j)
    requires forall i', j' :: RootMatch(css, i', j') ==> i <= i'
    ensures Contains(css, RootOpen) && FindRoot(css) == Some((i, j))
  {
    assert OccursAt(css, RootOpen, i);
    var r := FindRoot(css);
    MatchEndUnique(css, i, r.value.1, j);
  }

  /** The literal merge at a found match, unfolded. */
  lemma MergeAt(entries: seq<(string, string)>, css: string, i: nat, j: nat)
    requires Contains(css, RootOpen) && FindRoot(css) == Some((i, j))
    ensures i + 6 < j < |css|
    ensures Merge(entries, css) == css[..i] + Template(entries, css[i + 6..j]) + css[j + 1..]
  {
    assert RootMatch(css, i, j);
  }

  /** The merge as written at a found match, unfolded. */
  lemma MergeAsWrittenAt(entries: seq<(string, string)>, css: string, i: nat, j: nat)
    requires Contains(css, RootOpen) && FindRoot(css) == Some((i, j))
    ensures i + 6 < j < |css|
    ensures MergeAsWritten(entries, css) ==
      css[..i] + Substitute(Template(entries, css[i + 6..j]), css[i..j + 1], css[..i], css[j + 1..]) + css[j + 1..]
  {
    assert RootMatch(css, i, j);
  }

  /**
   * When the stylesheet has a `:root{body}` block, only the leftmost one
   * changes: the new declarations go in right after its `:root{`, ahead of
   * the old body, and every other character is kept, so the result is longer
   * by exactly the inserted declarations.
   */
  lemma MergeSplices(entries: seq<(string, string)>, css: string, i: nat, j: nat)
    requires RootMatch(css, i, j)
    requires forall i', j' :: RootMatch(css, i', j') ==> i <= i'
    ensures Merge(entries, css) == css[..i + 6] + InlineDecls(entries) + css[i + 6..]
    ensures |Merge(entries, css)| == |css| + |InlineDecls(entries)|
  {
    LeftmostIsFound(css, i, j);
    MergeAt(entries, css, i, j);
    SpliceIsInsertion(css, i, j, InlineDecls(entries));
  }

  lemma SpliceIsInsertion(css: string, i: nat, j: nat, decls: string)
    requires i + 6 < j < |css| && css[i..i + 6] == RootOpen && css[j] == '}'
    ensures css[..i] + (RootOpen + decls + css[i + 6..j] + "}") + css[j + 1..] == css[..i + 6] + decls + css[i + 6..]
  {
    assert css[..i] + RootOpen == css[..i + 6];
    assert css[i + 6..j] + "}" + css[j + 1..] == css[i + 6..];
  }

  /**
   * With no `:root{body}` block (whether or not `:root{` occurs), the result
   * is the fresh block followed by the unchanged stylesheet.
   */
  lemma MergePrepends(entries: seq<(string, string)>, css: string)
    requires forall i, j :: !RootMatch(css, i, j)
    ensures Merge(entries, css) == RootBlock(entries, "") + css
  {
  }

  /** `:root{}` has the text the test looks for but no match: the fallback prepends. */
  lemma EmptyRootFallsBack(entries: seq<(string, string)>)
    ensures Merge(entries, ":root{}") == RootBlock(entries, "") + ":root{}"
  {
    assert OccursAt(":root{}", RootOpen, 0);
    MergePrepends(entries, ":root{}");
  }

  lemma DeclLinesNonEmpty(entries: seq<(string, string)>, indent: string, ns: string)
    requires entries != []
    ensures |DeclLines(entries, indent, ns)| > 0
  {
  }

  lemma InlineDeclsNonEmpty(entries: seq<(string, string)>)
    requires entries != []
    ensures |InlineDecls(entries)| > 0
  {
  }

  /** Merging a non-empty set always lengthens the stylesheet. */
  lemma MergeGrows(entries: seq<(string, string)>, css: string)
    requires entries != []
    ensures |Merge(entries, css)| > |css|
  {
    var r := FindRoot(css);
    if Contains(css, RootOpen) && r.Some? {
      MergeSplices(entries, css, r.value.0, r.value.1);
      InlineDeclsNonEmpty(entries);
    }
  }

  /**
   * The script reads and writes the same stylesheet, and a second run inserts
   * the declarations again: merging is not idempotent for a non-empty set.
   */
  lemma MergeNotIdempotent(entries: seq<(string, string)>, css: string)
    requires entries != []
    ensures Merge(entries, Merge(entries, css)) != Merge(entries, css)
  {
    MergeGrows(entries, Merge(entries, css));
  }

  /**
   * Merging `{"--a-b": "1px"}` into `:root{--c:2px;}` puts the new
   * declaration, written as `name: value;`, before the old body.
   */
  lemma MergeExample()
    ensures Merge([("--a-b", "1px")], ":root{--c:2px;}") == ":root{--a-b: 1px;--c:2px;}"
  {
    var entries, css := [("--a-b", "1px")], ":root{--c:2px;}";
    ExampleMatch();
    MergeSplices(entries, css, 0, 14);
    ExampleDecls();
    ExampleText();
  }

  /** `:root{--c:2px;}` is one whole match. */
  lemma ExampleMatch()
    ensures RootMatch(":root{--c:2px;}", 0, 14)
  {
    assert ":root{--c:2px;}"[..6] == RootOpen;
  }

  lemma ExampleText()
    ensures ":root{--c:2px;}"[..6] + "--a-b: 1px;" + ":root{--c:2px;}"[6..] == ":root{--a-b: 1px;--c:2px;}"
  {
    assert ":root{--c:2px;}"[..6] == ":root{" && ":root{--c:2px;}"[6..] == "--c:2px;}";
  }

  lemma ExampleDecls()
    ensures InlineDecls([("--a-b", "1px")]) == "--a-b: 1px;"
  {
    var entries := [("--a-b", "1px")];
    assert entries[..0] == [];
  }

  lemma NotInSlice(s: string, c: char, a: nat, b: nat)
    requires a <= b <= |s| && c !in s
    ensures c !in s[a..b]
  {
    assert forall x :: x in s[a..b] ==> x in s;
  }

  lemma NotInTemplate(entries: seq<(string, string)>, existing: string)
    requires '$' !in InlineDecls(entries) && '$' !in existing
    ensures '$' !in Template(entries, existing)
  {
  }

  /** Without `$` in the inserted text or the stylesheet, the script does the literal merge. */
  lemma AsWrittenIsLiteralWithoutDollar(entries: seq<(string, string)>, css: string)
    requires '$' !in InlineDecls(entries) && '$' !in css
    ensures MergeAsWritten(entries, css) == Merge(entries, css)
  {
    var r := FindRoot(css);
    if Contains(css, RootOpen) && r.Some? {
      var (i, j) := r.value;
      MergeAt(entries, css, i, j);
      MergeAsWrittenAt(entries, css, i, j);
      NotInSlice(css, '$', i + 6, j);
      NotInTemplate(entries, css[i + 6..j]);
      SubstituteLiteral(Template(entries, css[i + 6..j]), css[i..j + 1], css[..i], css[j + 1..]);
    }
  }

  /**
   * A token value holding `$&` is not inserted as written: `replace` puts the
   * whole matched `:root{...}` block in its place.
   */
  lemma DollarAmpersandRewrites()
    ensures MergeAsWritten([("--a", "$&")], ":root{x}") == ":root{--a: :root{x};x}"
    ensures Merge([("--a", "$&")], ":root{x}") == ":root{--a: $&;x}"
  {
    DollarMatch();
    LeftmostIsFound(":root{x}", 0, 7);
    DollarAsWritten();
    DollarLiteral();
  }

  lemma DollarAsWritten()
    requires Contains(":root{x}", RootOpen) && FindRoot(":root{x}") == Some((0, 7))
    ensures MergeAsWritten([("--a", "$&")], ":root{x}") == ":root{--a: :root{x};x}"
  {
    var entries, css := [("--a", "$&")], ":root{x}";
    MergeAsWrittenAt(entries, css, 0, 7);
    DollarSlices();
    calc {
      MergeAsWritten(entries, css);
      css[..0] + Substitute(Template(entries, css[6..7]), css[0..8], css[..0], css[8..]) + css[8..];
      "" + Substitute(Template(entries, "x"), css, "", "") + "";
      { DollarTemplate(); }
      "" + Substitute(":root{--a: $&;x}", css, "", "") + "";
      { DollarSubstitution(); }
      "" + ":root{--a: :root{x};x}" + "";
    }
  }

  lemma DollarLiteral()
    requires Contains(":root{x}", RootOpen) && FindRoot(":root{x}") == Some((0, 7))
    ensures Merge([("--a", "$&")], ":root{x}") == ":root{--a: $&;x}"
  {
    var entries, css := [("--a", "$&")], ":root{x}";
    MergeAt(entries, css, 0, 7);
    DollarSlices();
    calc {
      Merge(entries, css);
      css[..0] + Template(entries, css[6..7]) + css[8..];
      "" + Template(entries, "x") + "";
      { DollarTemplate(); }
      "" + ":root{--a: $&;x}" + "";
    }
  }

  /** `:root{x}` is one whole match. */
  lemma DollarMatch()
    ensures RootMatch(":root{x}", 0, 7)
    ensures forall i', j' :: RootMatch(":root{x}", i', j') ==> 0 <= i'
  {
    assert ":root{x}"[..6] == RootOpen;
  }

  lemma DollarSlices()
    ensures ":root{x}"[..0] == "" && ":root{x}"[6..7] == "x" && ":root{x}"[0..8] == ":root{x}" && ":root{x}"[8..] == ""
  {
  }

  lemma DollarTemplate()
    ensures Template([("--a", "$&")], "x") == ":root{--a: $&;x}"
  {
    var entries := [("--a", "$&")];
    assert entries[..0] == [];
  }

  /** `$&;x}` becomes the matched text followed by `;x}`. */
  lemma DollarPattern(matched: string)
    ensures Substitute("$&;x}", matched, "", "") == matched + ";x}"
  {
    var rest := "$&;x}";
    assert rest[0] == '$' && rest[1] == '&' && rest[2..] == ";x}";
    SubstituteLiteral(";x}", matched, "", "");
  }

  lemma DollarSubstitution()
    ensures Substitute(":root{--a: $&;x}", ":root{x}", "", "") == ":root{--a: :root{x};x}"
  {
    DollarPieces();
    SubstitutePrefix(":root{--a: ", "$&;x}", ":root{x}", "", "");
    DollarPattern(":root{x}");
  }

  /** The template and the expected output, cut where the `$&` pattern sits. */
  lemma DollarPieces()
    ensures ":root{--a: $&;x}" == ":root{--a: " + "$&;x}"
    ensures ":root{--a: " + (":root{x}" + ";x}") == ":root{--a: :root{x};x}"
  {
  }

  /**
   * The whole script on the decoded token files and the text of
   * `light.min.css`: the merged stylesheet it writes back, with `replace`
   * reading the template for `$` patterns as the code does. Without `$` in
   * the declarations and the stylesheet this is the literal merge.
   */
  method MergeIntoStylesheet(coreColors: Node, coreTypography: Node, coreSpacing: Node, lightColors: Node, lightComponent: Node,
                             lightMinCss: string)
    returns (mergedCss: string, total: nat)
    ensures mergedCss == MergeAsWritten(Entries(AllTokens(coreColors, coreTypography, coreSpacing, lightColors, lightComponent)), lightMinCss)
    ensures '$' !in InlineDecls(Entries(AllTokens(coreColors, coreTypography, coreSpacing, lightColors, lightComponent))) && '$' !in lightMinCss ==>
      mergedCss == Merge(Entries(AllTokens(coreColors, coreTypography, coreSpacing, lightColors, lightComponent)), lightMinCss)
    ensures total == |AllTokens(coreColors, coreTypography, coreSpacing, lightColors, lightComponent).names|
  {
    var allTokens := CombineAll(coreColors, coreTypography, coreSpacing, lightColors, lightComponent);
    var hasRootSelector := Contains(lightMinCss, RootOpen);
    var rootMatch := FindRoot(lightMinCss);
    if hasRootSelector && rootMatch.Some? {
      var (i, j) := rootMatch.value;
      var existingVars := lightMinCss[i + 6..j];
      var newRootVars := NewRootVars(allTokens);
      var template := RootOpen + newRootVars + existingVars + "}";
      mergedCss := lightMinCss[..i] + Substitute(template, lightMinCss[i..j + 1], lightMinCss[..i], lightMinCss[j + 1..])
        + lightMinCss[j + 1..];
    } else {
      var tokenCss := CreateCssVariables(allTokens);
      mergedCss := tokenCss + lightMinCss;
    }
    if '$' !in InlineDecls(Entries(allTokens.Value())) && '$' !in lightMinCss {
      AsWrittenIsLiteralWithoutDollar(Entries(allTokens.Value()), lightMinCss);
    }
    total := |allTokens.names|;
  }
}
