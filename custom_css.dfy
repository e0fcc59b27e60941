/**
 * build-custom-css.js: the combined `--pgn-` variable set written as one
 * fresh `:root` block with two-space indented declarations.
 */
module CustomCss {
  import opened Wrappers
  import opened VarSets
  import opened Tokens
  import opened CssText
  import opened PgnTokens

  /** `createCSSFile(tokens)` */
  method CreateCssFile(tokens: TokenMap) returns (css: string)
    requires tokens.Valid()
    ensures css == RootBlock(Entries(tokens.Value()), "  ")
  {
    var entries := Entries(tokens.Value());
    css := ":root {\n";
    for i := 0 to |entries|
      invariant css == RootHead + DeclLines(entries[..i], "  ", "")
    {
      var (varName, value) := entries[i];
      DeclLinesSnoc(entries, i, "  ", "");
      IndentedDecl(varName, value);
      css := css + ("  " + varName + ": " + value + ";\n");
    }
    assert entries[..|entries|] == entries;
    css := css + "}\n";
  }

  lemma IndentedDecl(name: string, value: string)
    ensures Decl("  ", "" + name, value) == "  " + name + ": " + value + ";\n"
  {
    assert "" + name == name;
  }

  /**
   * The whole script on the decoded token files: the stylesheet it writes and
   * the token count it reports.
   */
  method BuildCustomCss(coreColors: Node, coreTypography: Node, coreSpacing: Node, lightColors: Node, lightComponent: Node)
    returns (cssContent: string, total: nat)
    ensures cssContent == RootBlock(Entries(AllTokens(coreColors, coreTypography, coreSpacing, lightColors, lightComponent)), "  ")
    ensures total == |AllTokens(coreColors, coreTypography, coreSpacing, lightColors, lightComponent).names|
  {
    var allTokens := CombineAll(coreColors, coreTypography, coreSpacing, lightColors, lightComponent);
    cssContent := CreateCssFile(allTokens);
    total := |allTokens.names|;
  }

  /**
   * The file holds one declaration line per variable, in the set's order and
   * with its value, so the count the script reports is the number of
   * declarations written.
   */
  lemma CountIsDeclarationCount(all: VarSet)
    requires WellFormed(all) && Printable(Entries(all), "")
    ensures ParseRootBlock(RootBlock(Entries(all), "  "), "  ") == Some(Entries(all))
    ensures |ParseRootBlock(RootBlock(Entries(all), "  "), "  ").value| == |all.names|
  {
    RootBlockRoundTrip(Entries(all), "  ");
  }

  /** An empty set gives an empty block. */
  lemma EmptySetEmptyBlock()
    ensures RootBlock([], "  ") == ":root {\n}\n"
  {
  }
}
