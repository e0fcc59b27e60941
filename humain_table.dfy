/**
 * The six-row table in build-humain-css.js that points Paragon variables at
 * HUMAIN ones, and the plain-name facts the sheet's read-back needs.
 */
module HumainTable {

  /** A row of the mapping table; its description is only logged. */
  datatype Mapping = Mapping(paragon: string, humain: string)

  /** The mapping table, in its order. */
  const Mappings: seq<Mapping> := [
    Mapping("--pgn-color-primary-500", "--humain-primary-base"),
    Mapping("--pgn-color-brand-500", "--humain-brand-base"),
    Mapping("--pgn-color-secondary-500", "--humain-secondary-base"),
    Mapping("--pgn-color-success-500", "--humain-status-success"),
    Mapping("--pgn-color-warning-500", "--humain-status-warning"),
    Mapping("--pgn-color-danger-500", "--humain-status-error")
  ]

  /** A row whose Paragon name has no `:` and whose names have no line break. */
  predicate PlainRow(m: Mapping) {
    ':' !in m.paragon && '\n' !in m.paragon && '\n' !in m.humain
  }

  /** A name of dashes, lower-case letters and digits has no `:` and no line break. */
  lemma NamePlain(s: string)
    requires forall k :: 0 <= k < |s| ==> s[k] == '-' || 'a' <= s[k] <= 'z' || '0' <= s[k] <= '9'
    ensures ':' !in s && '\n' !in s
  {
  }

  /** The table's names have no `:` and no line break. */
  lemma MappingsPlain()
    ensures forall k :: 0 <= k < |Mappings| ==> PlainRow(Mappings[k])
  {
    ParagonPlain0();
    HumainPlain0();
    ParagonPlain1();
    HumainPlain1();
    ParagonPlain2();
    HumainPlain2();
    ParagonPlain3();
    HumainPlain3();
    ParagonPlain4();
    HumainPlain4();
    ParagonPlain5();
    HumainPlain5();
  }

  lemma ParagonPlain0()
    ensures ':' !in Mappings[0].paragon && '\n' !in Mappings[0].paragon
  {
    assert Mappings[0].paragon == "--pgn-color-primary-500";
    NamePlain("--pgn-color-primary-500");
  }

  lemma HumainPlain0()
    ensures '\n' !in Mappings[0].humain
  {
    assert Mappings[0].humain == "--humain-primary-base";
    NamePlain("--humain-primary-base");
  }

  lemma ParagonPlain1()
    ensures ':' !in Mappings[1].paragon && '\n' !in Mappings[1].paragon
  {
    assert Mappings[1].paragon == "--pgn-color-brand-500";
    NamePlain("--pgn-color-brand-500");
  }

  lemma HumainPlain1()
    ensures '\n' !in Mappings[1].humain
  {
    assert Mappings[1].humain == "--humain-brand-base";
    NamePlain("--humain-brand-base");
  }

  lemma ParagonPlain2()
    ensures ':' !in Mappings[2].paragon && '\n' !in Mappings[2].paragon
  {
    assert Mappings[2].paragon == "--pgn-color-secondary-500";
    NamePlain("--pgn-color-secondary-500");
  }

  lemma HumainPlain2()
    ensures '\n' !in Mappings[2].humain
  {
    assert Mappings[2].humain == "--humain-secondary-base";
    NamePlain("--humain-secondary-base");
  }

  lemma ParagonPlain3()
    ensures ':' !in Mappings[3].paragon && '\n' !in Mappings[3].paragon
  {
    assert Mappings[3].paragon == "--pgn-color-success-500";
    NamePlain("--pgn-color-success-500");
  }

  lemma HumainPlain3()
    ensures '\n' !in Mappings[3].humain
  {
    assert Mappings[3].humain == "--humain-status-success";
    NamePlain("--humain-status-success");
  }

  lemma ParagonPlain4()
    ensures ':' !in Mappings[4].paragon && '\n' !in Mappings[4].paragon
  {
    assert Mappings[4].paragon == "--pgn-color-warning-500";
    NamePlain("--pgn-color-warning-500");
  }

  lemma HumainPlain4()
    ensures '\n' !in Mappings[4].humain
  {
    assert Mappings[4].humain == "--humain-status-warning";
    NamePlain("--humain-status-warning");
  }

  lemma ParagonPlain5()
    ensures ':' !in Mappings[5].paragon && '\n' !in Mappings[5].paragon
  {
    assert Mappings[5].paragon == "--pgn-color-danger-500";
    NamePlain("--pgn-color-danger-500");
  }

  lemma HumainPlain5()
    ensures '\n' !in Mappings[5].humain
  {
    assert Mappings[5].humain == "--humain-status-error";
    NamePlain("--humain-status-error");
  }
}
