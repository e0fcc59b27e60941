/**
 * The `--pgn-` flattener shared, line for line, by build-custom-css.js and
 * build-merged-css.js, and the object spread that combines the five token
 * files into one variable set.
 */
module PgnTokens {
  import opened VarSets
  import opened Tokens

  /**
   * `generateCSSVariables(obj, prefix, result)`: walks `obj` and assigns each
   * token's `$value` to `result` under `--pgn-` and its dash-joined path,
   * threading the one `result` object through the recursion.
   */
  method GenerateCssVariables(obj: Node, prefix: string, result: TokenMap)
    requires result.Valid()
    modifies result
    ensures result.Valid() && result.Value() == PutAll(old(result.Value()), Flatten(obj, Pgn, prefix))
    decreases obj
  {
    var entries := Fields(obj);
    for i := 0 to |entries|
      invariant result.Valid() && result.Value() == PutAll(old(result.Value()), Writes(obj, i, Pgn, prefix))
    {
      var (key, value) := entries[i];
      AssignMember(old(result.Value()), obj, i, Pgn, prefix);
      if IsMeta(key) {
        continue;
      }
      var newPrefix := Extend(prefix, key);
      match value
      case Token(v, _) =>
        PutAllSingle(result.Value(), Pgn + newPrefix, v);
        result.Set(Pgn + newPrefix, v);
      case Group(_) =>
        GenerateCssVariables(value, newPrefix, result);
      case Scalar =>
    }
  }

  /** The variable set one top-level call `generateCSSVariables(obj)` returns. */
  function Generated(obj: Node): (r: VarSet)
    ensures WellFormed(r)
  {
    EmptyWellFormed();
    PutAll(Empty, Flatten(obj, Pgn, ""))
  }

  /** `generateCSSVariables(obj)` with the default empty prefix and a fresh `{}`. */
  method GenerateFresh(obj: Node) returns (result: TokenMap)
    ensures fresh(result) && result.Valid() && result.Value() == Generated(obj)
  {
    result := new TokenMap();
    EmptyWellFormed();
    GenerateCssVariables(obj, "", result);
  }

  /**
   * `allTokens`: the five flattened sets spread into one object, in the order
   * core colors, typography, spacing, light colors, component.
   */
  function AllTokens(coreColors: Node, coreTypography: Node, coreSpacing: Node, lightColors: Node, lightComponent: Node): (r: VarSet)
    ensures WellFormed(r)
  {
    Spread([Generated(coreColors), Generated(coreTypography), Generated(coreSpacing), Generated(lightColors), Generated(lightComponent)])
  }

  /** Spreading one more set copies its entries, in order, over the result so far. */
  lemma SpreadSnoc(sets: seq<VarSet>, s: VarSet)
    requires forall k :: 0 <= k < |sets| ==> WellFormed(sets[k])
    requires WellFormed(s)
    ensures Spread(sets + [s]) == PutAll(Spread(sets), Entries(s))
  {
    assert (sets + [s])[..|sets|] == sets;
  }

  /** Spreading one set copies its entries into `{}`. */
  lemma SpreadOne(a: VarSet)
    requires WellFormed(a)
    ensures Spread([a]) == PutAll(Empty, Entries(a))
  {
    assert [a][..0] == [];
  }

  /** Spreading the first two of the five sets. */
  lemma SpreadTwo(a: VarSet, b: VarSet)
    requires WellFormed(a) && WellFormed(b)
    ensures Spread([a, b]) == PutAll(PutAll(Empty, Entries(a)), Entries(b))
  {
    SpreadOne(a);
    assert [a] + [b] == [a, b];
    SpreadSnoc([a], b);
  }

  /** Spreading the first three of the five sets. */
  lemma SpreadThree(a: VarSet, b: VarSet, c: VarSet)
    requires WellFormed(a) && WellFormed(b) && WellFormed(c)
    ensures Spread([a, b, c]) == PutAll(PutAll(PutAll(Empty, Entries(a)), Entries(b)), Entries(c))
  {
    SpreadTwo(a, b);
    assert [a, b] + [c] == [a, b, c];
    SpreadSnoc([a, b], c);
  }

  /** Spreading the first four of the five sets. */
  lemma SpreadFour(a: VarSet, b: VarSet, c: VarSet, d: VarSet)
    requires WellFormed(a) && WellFormed(b) && WellFormed(c) && WellFormed(d)
    ensures Spread([a, b, c, d]) == PutAll(PutAll(PutAll(PutAll(Empty, Entries(a)), Entries(b)), Entries(c)), Entries(d))
  {
    SpreadThree(a, b, c);
    assert [a, b, c] + [d] == [a, b, c, d];
    SpreadSnoc([a, b, c], d);
  }

  /** Spreading five sets copies their entries in turn into `{}`. */
  lemma SpreadFive(a: VarSet, b: VarSet, c: VarSet, d: VarSet, e: VarSet)
    requires WellFormed(a) && WellFormed(b) && WellFormed(c) && WellFormed(d) && WellFormed(e)
    ensures Spread([a, b, c, d, e]) ==
      PutAll(PutAll(PutAll(PutAll(PutAll(Empty, Entries(a)), Entries(b)), Entries(c)), Entries(d)), Entries(e))
  {
    SpreadFour(a, b, c, d);
    assert [a, b, c, d] + [e] == [a, b, c, d, e];
    SpreadSnoc([a, b, c, d], e);
  }

  /**
   * The `allTokens` object literal, built as the engine builds a spread: a
   * fresh object into which each source's entries are copied in turn.
   */
  method CombineAll(coreColors: Node, coreTypography: Node, coreSpacing: Node, lightColors: Node, lightComponent: Node)
    returns (all: TokenMap)
    ensures fresh(all) && all.Valid()
    ensures all.Value() == AllTokens(coreColors, coreTypography, coreSpacing, lightColors, lightComponent)
  {
    all := new TokenMap();
    var t := GenerateFresh(coreColors);
    all.Assign(t);
    t := GenerateFresh(coreTypography);
    all.Assign(t);
    t := GenerateFresh(coreSpacing);
    all.Assign(t);
    t := GenerateFresh(lightColors);
    all.Assign(t);
    t := GenerateFresh(lightComponent);
    all.Assign(t);
    SpreadFive(Generated(coreColors), Generated(coreTypography), Generated(coreSpacing), Generated(lightColors), Generated(lightComponent));
  }

  /** Spreading one more freshly filled set continues the same walk. */
  lemma WalkStep(s: VarSet, acc: seq<(string, string)>, w: seq<(string, string)>)
    requires s == PutAll(Empty, acc)
    ensures PutAll(s, Entries(PutAll(Empty, w))) == PutAll(Empty, acc + w)
  {
    EmptyWellFormed();
    AssignFresh(s, w);
    PutAllConcat(Empty, acc, w);
  }

  /** Copying the first three flattened sets into `{}` is one walk over the three trees. */
  lemma WalkThree(x: Node, y: Node, z: Node)
    ensures PutAll(PutAll(PutAll(Empty, Entries(Generated(x))), Entries(Generated(y))), Entries(Generated(z))) ==
      PutAll(Empty, Flatten(x, Pgn, "") + Flatten(y, Pgn, "") + Flatten(z, Pgn, ""))
  {
    var f1, f2, f3 := Flatten(x, Pgn, ""), Flatten(y, Pgn, ""), Flatten(z, Pgn, "");
    assert [] + f1 == f1;
    WalkStep(Empty, [], f1);
    WalkStep(PutAll(Empty, f1), f1, f2);
    WalkStep(PutAll(Empty, f1 + f2), f1 + f2, f3);
  }

  /**
   * Spreading the five flattened sets is the same as one walk that assigns
   * every leaf of the five trees, one tree after another, into one object.
   */
  lemma AllTokensIsOneWalk(coreColors: Node, coreTypography: Node, coreSpacing: Node, lightColors: Node, lightComponent: Node)
    ensures AllTokens(coreColors, coreTypography, coreSpacing, lightColors, lightComponent) ==
      PutAll(Empty, Flatten(coreColors, Pgn, "") + Flatten(coreTypography, Pgn, "") + Flatten(coreSpacing, Pgn, "")
                    + Flatten(lightColors, Pgn, "") + Flatten(lightComponent, Pgn, ""))
  {
    var f3 := Flatten(coreColors, Pgn, "") + Flatten(coreTypography, Pgn, "") + Flatten(coreSpacing, Pgn, "");
    var f4, f5 := Flatten(lightColors, Pgn, ""), Flatten(lightComponent, Pgn, "");
    SpreadFive(Generated(coreColors), Generated(coreTypography), Generated(coreSpacing), Generated(lightColors), Generated(lightComponent));
    WalkThree(coreColors, coreTypography, coreSpacing);
    WalkStep(PutAll(Empty, f3), f3, f4);
    WalkStep(PutAll(Empty, f3 + f4), f3 + f4, f5);
  }

  /** The walk of `{"a": {"b": {"$value": "1"}}, "a-b": {"$value": "2"}}`. */
  lemma CollidingWalk()
    ensures Flatten(Group([("a", Group([("b", Token("1", []))])), ("a-b", Token("2", []))]), Pgn, "")
      == [("--pgn-a-b", "1"), ("--pgn-a-b", "2")]
  {
    var inner := Group([("b", Token("1", []))]);
    var first, second := ("a", inner), ("a-b", Token("2", []));
    assert Extend("a", "b") == "a-b" && Extend("", "a-b") == "a-b";
    assert Pgn + "a-b" == "--pgn-a-b";
    TokenIsLeaf("b", "1", [], Pgn, "a");
    FlattenSingle(first, Pgn, "");
    TokenIsLeaf("a-b", "2", [], Pgn, "");
    assert [first] + [second] == [first, second];
    FlattenSnoc([first], second, Pgn, "");
  }

  /** Two assignments to one name into `{}` leave that name once, with the later value. */
  lemma AssignTwice(n: string, u: string, v: string)
    ensures PutAll(Empty, [(n, u), (n, v)]) == VarSet([n], map[n := v])
  {
    var w := [(n, u), (n, v)];
    assert w[..1][..0] == [];
    assert PutAll(Empty, w[..1]) == VarSet([n], map[n := u]);
    assert map[n := u][n := v] == map[n := v];
  }

  /**
   * Two paths that build the same name collide in the one shared object:
   * `{"a": {"b": {"$value": "1"}}, "a-b": {"$value": "2"}}` leaves a single
   * `--pgn-a-b`, holding the later value.
   */
  lemma PathCollision()
    ensures Generated(Group([("a", Group([("b", Token("1", []))])), ("a-b", Token("2", []))]))
      == VarSet(["--pgn-a-b"], map["--pgn-a-b" := "2"])
  {
    CollidingWalk();
    AssignTwice("--pgn-a-b", "1", "2");
  }
}
