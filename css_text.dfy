/**
 * The CSS text the scripts produce from a variable set: declaration lines,
 * `:root` blocks and inline declaration runs, and a reader for declaration
 * lines that recovers the (name, value) pairs from a block.
 */
module CssText {
  import opened Wrappers

  /** One declaration line: `${indent}${name}: ${value};` and a line break. */
  function Decl(indent: string, name: string, value: string): string {
    indent + name + ": " + value + ";\n"
  }

  /** One declaration line per entry, in order, each name preceded by `ns`. */
  function DeclLines(entries: seq<(string, string)>, indent: string, ns: string): string
    decreases |entries|
  {
    if entries == [] then ""
    else
      DeclLines(entries[..|entries| - 1], indent, ns)
      + Decl(indent, ns + entries[|entries| - 1].0, entries[|entries| - 1].1)
  }

  /** `${name}: ${value};` per entry, in order, with no line breaks. */
  function InlineDecls(entries: seq<(string, string)>): string
    decreases |entries|
  {
    if entries == [] then ""
    else InlineDecls(entries[..|entries| - 1]) + entries[|entries| - 1].0 + ": " + entries[|entries| - 1].1 + ";"
  }

  const RootHead: string := ":root {\n"
  const RootTail: string := "}\n"

  /** A fresh `:root` block holding one declaration line per entry. */
  function RootBlock(entries: seq<(string, string)>, indent: string): string {
    RootHead + DeclLines(entries, indent, "") + RootTail
  }

  /** `entries` with `ns` put before every name. */
  function Renamed(entries: seq<(string, string)>, ns: string): (r: seq<(string, string)>)
    ensures |r| == |entries|
    ensures forall i :: 0 <= i < |r| ==> r[i] == (ns + entries[i].0, entries[i].1)
  {
    seq(|entries|, i requires 0 <= i < |entries| => (ns + entries[i].0, entries[i].1))
  }

  /**
   * Every name (with `ns` before it) is free of `:` and line breaks, and every
   * value is free of line breaks, so each declaration reads back unambiguously.
   */
  ghost predicate Printable(entries: seq<(string, string)>, ns: string) {
    forall i :: 0 <= i < |entries| ==>
      ':' !in ns + entries[i].0 && '\n' !in ns + entries[i].0 && '\n' !in entries[i].1
  }

  /** The first index at or after `from` that holds `c`, or `|s|` if there is none. */
  function IndexOf(s: string, c: char, from: nat): (k: nat)
    requires from <= |s|
    ensures from <= k <= |s|
    decreases |s| - from
  {
    if from == |s| || s[from] == c then from else IndexOf(s, c, from + 1)
  }

  /** `IndexOf` finds the first `c` at or after `from`. */
  lemma {:induction false} IndexOfSpec(s: string, c: char, from: nat)
    requires from <= |s|
    ensures forall j :: from <= j < IndexOf(s, c, from) ==> s[j] != c
    ensures IndexOf(s, c, from) < |s| ==> s[IndexOf(s, c, from)] == c
    decreases |s| - from
  {
    if from < |s| && s[from] != c {
      IndexOfSpec(s, c, from + 1);
    }
  }

  /** Reads one line `${indent}${name}: ${value};` (without its line break). */
  function ParseDecl(line: string, indent: string): Option<(string, string)> {
    if |line| < |indent| + 1 || line[..|indent|] != indent || line[|line| - 1] != ';' then None
    else
      var body := line[|indent|..|line| - 1];
      var colon := IndexOf(body, ':', 0);
      if colon + 1 < |body| && body[colon + 1] == ' ' then Some((body[..colon], body[colon + 2..]))
      else None
  }

  /** Reads a run of declaration lines, each ending with a line break. */
  function ParseDecls(text: string, indent: string): Option<seq<(string, string)>>
    decreases |text|
  {
    if text == "" then Some([])
    else
      var eol := IndexOf(text, '\n', 0);
      if eol == |text| then None
      else match ParseDecl(text[..eol], indent)
        case None => None
        case Some(d) =>
          match ParseDecls(text[eol + 1..], indent)
          case None => None
          case Some(rest) => Some([d] + rest)
  }

  /** Reads a `:root` block in the format of `RootBlock`. */
  function ParseRootBlock(css: string, indent: string): Option<seq<(string, string)>> {
    if |css| >= |RootHead| + |RootTail|
       && css[..|RootHead|] == RootHead
       && css[|css| - |RootTail|..] == RootTail
    then ParseDecls(css[|RootHead|..|css| - |RootTail|], indent)
    else None
  }

  lemma {:induction false} DeclLinesAppend(a: seq<(string, string)>, b: seq<(string, string)>, indent: string, ns: string)
    ensures DeclLines(a + b, indent, ns) == DeclLines(a, indent, ns) + DeclLines(b, indent, ns)
    decreases |b|
  {
    if b == [] {
      assert a + b == a;
    } else {
      var ab, b' := a + b, b[..|b| - 1];
      var last := b[|b| - 1];
      assert ab[..|ab| - 1] == a + b';
      assert ab[|ab| - 1] == last;
      var line := Decl(indent, ns + last.0, last.1);
      assert DeclLines(ab, indent, ns) == DeclLines(a + b', indent, ns) + line;
      assert DeclLines(b, indent, ns) == DeclLines(b', indent, ns) + line;
      DeclLinesAppend(a, b', indent, ns);
    }
  }

  /** One more entry adds its line at the end. */
  lemma DeclLinesSnoc(entries: seq<(string, string)>, i: nat, indent: string, ns: string)
    requires i < |entries|
    ensures DeclLines(entries[..i + 1], indent, ns) ==
      DeclLines(entries[..i], indent, ns) + Decl(indent, ns + entries[i].0, entries[i].1)
  {
    assert entries[..i + 1][..i] == entries[..i];
  }

  lemma {:induction false} IndexOfAt(s: string, c: char, from: nat, k: nat)
    requires from <= k < |s| && s[k] == c
    requires forall j :: from <= j < k ==> s[j] != c
    ensures IndexOf(s, c, from) == k
    decreases k - from
  {
    if from < k {
      IndexOfAt(s, c, from + 1, k);
    }
  }

  lemma ParseDeclOf(indent: string, name: string, value: string)
    requires ':' !in name
    ensures ParseDecl(indent + name + ": " + value + ";", indent) == Some((name, value))
  {
    var line := indent + name + ": " + value + ";";
    assert line[..|indent|] == indent;
    var body := line[|indent|..|line| - 1];
    assert body == name + ": " + value;
    assert body[|name|] == ':';
    forall j | 0 <= j < |name| ensures body[j] != ':' {
      assert body[j] == name[j];
    }
    IndexOfAt(body, ':', 0, |name|);
    assert body[..|name|] == name;
    assert body[|name| + 2..] == value;
  }

  /** One declaration line followed by more text reads as that declaration, then the rest. */
  lemma ParseDeclsCons(indent: string, name: string, value: string, rest: string)
    requires ':' !in name && '\n' !in indent && '\n' !in name && '\n' !in value
    ensures ParseDecls(Decl(indent, name, value) + rest, indent) ==
      match ParseDecls(rest, indent)
      case None => None
      case Some(ds) => Some([(name, value)] + ds)
  {
    var line := indent + name + ": " + value + ";";
    var text := Decl(indent, name, value) + rest;
    assert text == line + "\n" + rest;
    assert '\n' !in line;
    forall j | 0 <= j < |line| ensures text[j] != '\n' {
      assert text[j] == line[j];
    }
    IndexOfAt(text, '\n', 0, |line|);
    assert text[..|line|] == line;
    assert text[|line| + 1..] == rest;
    ParseDeclOf(indent, name, value);
  }

  lemma PrintableTail(entries: seq<(string, string)>, ns: string)
    requires entries != [] && Printable(entries, ns)
    ensures Printable(entries[1..], ns)
  {
    forall i | 0 <= i < |entries| - 1
      ensures ':' !in ns + entries[1..][i].0 && '\n' !in ns + entries[1..][i].0 && '\n' !in entries[1..][i].1
    {
      assert entries[1..][i] == entries[i + 1];
    }
  }

  lemma DeclLinesCons(entries: seq<(string, string)>, indent: string, ns: string)
    requires entries != []
    ensures DeclLines(entries, indent, ns) ==
      Decl(indent, ns + entries[0].0, entries[0].1) + DeclLines(entries[1..], indent, ns)
  {
    assert entries == [entries[0]] + entries[1..];
    DeclLinesAppend([entries[0]], entries[1..], indent, ns);
    assert [entries[0]][..0] == [];
  }

  /** Declaration lines read back as the entries they were written from. */
  lemma {:induction false} ParseDeclLines(entries: seq<(string, string)>, indent: string, ns: string)
    requires Printable(entries, ns) && '\n' !in indent
    ensures ParseDecls(DeclLines(entries, indent, ns), indent) == Some(Renamed(entries, ns))
    decreases |entries|
  {
    if entries != [] {
      var first, rest := entries[0], entries[1..];
      DeclLinesCons(entries, indent, ns);
      PrintableTail(entries, ns);
      ParseDeclLines(rest, indent, ns);
      assert ':' !in ns + first.0 && '\n' !in ns + first.0 && '\n' !in first.1;
      ParseDeclsCons(indent, ns + first.0, first.1, DeclLines(rest, indent, ns));
      assert Renamed(entries, ns) == [(ns + first.0, first.1)] + Renamed(rest, ns);
    }
  }

  lemma LineOfConcat(x: string, y: string, eol: nat)
    requires eol < |x| && IndexOf(x, '\n', 0) == eol
    ensures IndexOf(x + y, '\n', 0) == eol
    ensures (x + y)[..eol] == x[..eol] && (x + y)[eol + 1..] == x[eol + 1..] + y
  {
    var xy := x + y;
    IndexOfSpec(x, '\n', 0);
    forall j | 0 <= j < eol ensures xy[j] != '\n' {
      assert xy[j] == x[j];
    }
    IndexOfAt(xy, '\n', 0, eol);
  }

  /** The first line of `text` reads as `d` and the rest as `ds`, so `text` reads as both. */
  lemma ParseDeclsStep(text: string, indent: string, eol: nat, d: (string, string), ds: seq<(string, string)>)
    requires eol < |text| && IndexOf(text, '\n', 0) == eol
    requires ParseDecl(text[..eol], indent) == Some(d)
    requires ParseDecls(text[eol + 1..], indent) == Some(ds)
    ensures ParseDecls(text, indent) == Some([d] + ds)
  {
  }

  /** A non-empty text that reads back has a first line, which reads back too. */
  lemma ParseDeclsHead(text: string, indent: string) returns (eol: nat, d: (string, string), ds: seq<(string, string)>)
    requires text != "" && ParseDecls(text, indent).Some?
    ensures eol < |text| && IndexOf(text, '\n', 0) == eol
    ensures ParseDecl(text[..eol], indent) == Some(d)
    ensures ParseDecls(text[eol + 1..], indent) == Some(ds)
    ensures ParseDecls(text, indent) == Some([d] + ds)
  {
    eol := IndexOf(text, '\n', 0);
    d := ParseDecl(text[..eol], indent).value;
    ds := ParseDecls(text[eol + 1..], indent).value;
  }

  /** A first line of `x` followed by `y` reads as that line, then the rest of `x` with `y`. */
  lemma ParseDeclsFirstLine(x: string, y: string, indent: string, eol: nat, d: (string, string), rest: seq<(string, string)>)
    requires eol < |x| && IndexOf(x, '\n', 0) == eol
    requires ParseDecl(x[..eol], indent) == Some(d)
    requires ParseDecls(x[eol + 1..] + y, indent) == Some(rest)
    ensures ParseDecls(x + y, indent) == Some([d] + rest)
  {
    LineOfConcat(x, y, eol);
    ParseDeclsStep(x + y, indent, eol, d, rest);
  }

  /** Reading two runs of complete lines one after the other reads both runs. */
  lemma {:induction false} ParseDeclsConcat(x: string, y: string, indent: string, xs: seq<(string, string)>, ys: seq<(string, string)>)
    requires ParseDecls(x, indent) == Some(xs) && ParseDecls(y, indent) == Some(ys)
    ensures ParseDecls(x + y, indent) == Some(xs + ys)
    decreases |x|
  {
    if x == "" {
      assert x + y == y;
      assert xs + ys == ys;
    } else {
      var eol, d, r := ParseDeclsHead(x, indent);
      ParseDeclsConcat(x[eol + 1..], y, indent, r, ys);
      ParseDeclsFirstLine(x, y, indent, eol, d, r + ys);
      assert [d] + (r + ys) == xs + ys;
    }
  }

  /** A `:root` block reads as the declaration lines between its head and its tail. */
  lemma ParseRootBlockBody(body: string, indent: string)
    ensures ParseRootBlock(RootHead + body + RootTail, indent) == ParseDecls(body, indent)
  {
    var css := RootHead + body + RootTail;
    assert css[..|RootHead|] == RootHead;
    assert css[|css| - |RootTail|..] == RootTail;
    assert css[|RootHead|..|css| - |RootTail|] == body;
  }

  /**
   * A `:root` block reads back as exactly the entries it was written from, so
   * it has one declaration line per entry, in order.
   */
  lemma RootBlockRoundTrip(entries: seq<(string, string)>, indent: string)
    requires Printable(entries, "") && '\n' !in indent
    ensures ParseRootBlock(RootBlock(entries, indent), indent) == Some(entries)
  {
    ParseRootBlockBody(DeclLines(entries, indent, ""), indent);
    ParseDeclLines(entries, indent, "");
    RenamedEmpty(entries);
  }

  /** No namespace leaves the names as they are. */
  lemma RenamedEmpty(entries: seq<(string, string)>)
    ensures Renamed(entries, "") == entries
  {
    forall i | 0 <= i < |entries| ensures Renamed(entries, "")[i] == entries[i] {
      assert "" + entries[i].0 == entries[i].0;
    }
  }
}
