/** The binding checker (`BindingChecker/main.swift`): for every backend C
    header it records which functions, enums, enum cases and structs declared
    in that header are mentioned in the text of the Swift bindings, and it
    reports per-header and overall coverage.

    Parsing the headers and reading the files are left out: a header is the
    sequence of declaration nodes, as the parser's visitor reaches them, and
    the bindings are the contents of their files. */
module BindingChecker {

  /** `SymbolPresence`. */
  datatype SymbolPresence = SymbolPresence(name: string, presentInBindings: bool)

  /** `HeaderInfo`: the four categories, each in order of discovery. */
  datatype HeaderInfo = HeaderInfo(
    url: string,
    enums: seq<SymbolPresence>,
    enumCases: seq<SymbolPresence>,
    structs: seq<SymbolPresence>,
    functions: seq<SymbolPresence>)

  /** `needle` occurs in `hay` starting at position `i`. */
  predicate OccursAt(needle: string, hay: string, i: int) {
    0 <= i <= |hay| - |needle| && hay[i..i + |needle|] == needle
  }

  /** Foundation's `contains(_:)`: whether `needle` is non-empty and occurs
      in `hay` as a contiguous run of characters.  The empty string is
      contained in no text. */
  function Occurs(needle: string, hay: string): (r: bool)
    ensures r <==> needle != [] && exists i :: OccursAt(needle, hay, i)
    decreases |hay|
  {
    if needle == [] then false
    else if |needle| > |hay| then false
    else if hay[..|needle|] == needle then
      assert OccursAt(needle, hay, 0);
      true
    else
      var r := Occurs(needle, hay[1..]);
      assert forall i :: OccursAt(needle, hay[1..], i) <==> OccursAt(needle, hay, i + 1) by {
        forall i ensures OccursAt(needle, hay[1..], i) <==> OccursAt(needle, hay, i + 1) {
          if 0 <= i <= |hay| - 1 - |needle| {
            assert hay[1..][i..i + |needle|] == hay[i + 1..i + 1 + |needle|];
          }
        }
      }
      assert !OccursAt(needle, hay, 0);
      assert r <==> exists i :: OccursAt(needle, hay, i) by {
        if r {
          var i :| OccursAt(needle, hay[1..], i);
          assert OccursAt(needle, hay, i + 1);
        }
        if exists i :: OccursAt(needle, hay, i) {
          var i :| OccursAt(needle, hay, i);
          assert OccursAt(needle, hay[1..], i - 1);
        }
      }
      r
  }

  /** `isPresentInBindings(symbol:allWrapperContents:)`: the symbol occurs
      in the contents of at least one bindings file. */
  function IsPresentInBindings(symbol: string, allWrapperContents: seq<string>): (r: bool)
    ensures r <==> exists k | 0 <= k < |allWrapperContents| :: Occurs(symbol, allWrapperContents[k])
  {
    if allWrapperContents == [] then false
    else Occurs(symbol, allWrapperContents[0]) || IsPresentInBindings(symbol, allWrapperContents[1..])
  }

  /** The number of present symbols in one category (`count { $0.presentInBindings }`). */
  function CountPresent(xs: seq<SymbolPresence>): (n: nat)
    ensures n <= |xs|
  {
    if xs == [] then 0
    else (if xs[0].presentInBindings then 1 else 0) + CountPresent(xs[1..])
  }

  /** The `missing*` lists: the names of the symbols not present, in their
      original order.  With the present ones they make up the whole
      category. */
  function MissingNames(xs: seq<SymbolPresence>): (r: seq<string>)
    ensures |r| + CountPresent(xs) == |xs|
  {
    if xs == [] then []
    else (if xs[0].presentInBindings then [] else [xs[0].name]) + MissingNames(xs[1..])
  }

  /** A name is listed as missing exactly when some symbol of that name is
      not present. */
  lemma {:induction false} MissingNamesMembers(xs: seq<SymbolPresence>, s: string)
    ensures s in MissingNames(xs) <==> exists i | 0 <= i < |xs| :: !xs[i].presentInBindings && xs[i].name == s
  {
    if xs != [] {
      MissingNamesMembers(xs[1..], s);
      if s in MissingNames(xs[1..]) {
        var i :| 0 <= i < |xs[1..]| && !xs[1..][i].presentInBindings && xs[1..][i].name == s;
        assert xs[i + 1] == xs[1..][i];
      }
      if exists i | 0 <= i < |xs| :: !xs[i].presentInBindings && xs[i].name == s {
        var i :| 0 <= i < |xs| && !xs[i].presentInBindings && xs[i].name == s;
        if i > 0 {
          assert xs[1..][i - 1] == xs[i];
        }
      }
    }
  }

  /** Nothing is listed as missing exactly when every symbol is present. */
  lemma NothingMissing(xs: seq<SymbolPresence>)
    ensures MissingNames(xs) == [] <==> forall i | 0 <= i < |xs| :: xs[i].presentInBindings
  {
    if MissingNames(xs) != [] {
      MissingNamesMembers(xs, MissingNames(xs)[0]);
    } else {
      forall i | 0 <= i < |xs|
        ensures xs[i].presentInBindings
      {
        MissingNamesMembers(xs, xs[i].name);
      }
    }
  }

  /** Filtering then mapping keeps the order: the missing names of two runs
      of symbols are those of the first followed by those of the second. */
  lemma {:induction false} MissingNamesConcat(a: seq<SymbolPresence>, b: seq<SymbolPresence>)
    ensures MissingNames(a + b) == MissingNames(a) + MissingNames(b)
  {
    if a == [] {
      assert a + b == b;
    } else {
      assert (a + b)[0] == a[0];
      assert (a + b)[1..] == a[1..] + b;
      MissingNamesConcat(a[1..], b);
    }
  }

  /** The missing symbols of one header, over its four categories. */
  function MissingCount(h: HeaderInfo): nat {
    |MissingNames(h.enums)| + |MissingNames(h.enumCases)|
      + |MissingNames(h.functions)| + |MissingNames(h.structs)|
  }

  /** The symbols of one header, over its four categories. */
  function SymbolCount(h: HeaderInfo): nat {
    |h.enums| + |h.enumCases| + |h.functions| + |h.structs|
  }

  /** The present symbols of one header, over its four categories. */
  function PresentCount(h: HeaderInfo): nat {
    CountPresent(h.enums) + CountPresent(h.enumCases)
      + CountPresent(h.functions) + CountPresent(h.structs)
  }

  /** `totalMissing`: a left fold of the missing counts from `acc`. */
  function ReduceMissing(acc: int, headers: seq<HeaderInfo>): int
    decreases |headers|
  {
    if headers == [] then acc
    else ReduceMissing(acc + MissingCount(headers[0]), headers[1..])
  }

  /** `total`: a left fold of the category sizes from `acc`. */
  function ReduceTotal(acc: int, headers: seq<HeaderInfo>): int
    decreases |headers|
  {
    if headers == [] then acc
    else ReduceTotal(acc + SymbolCount(headers[0]), headers[1..])
  }

  /** The present symbols over all headers. */
  function TotalPresent(headers: seq<HeaderInfo>): nat {
    if headers == [] then 0 else PresentCount(headers[0]) + TotalPresent(headers[1..])
  }

  /** The reported `total - totalMissing` is the number of present symbols
      over all headers, so it is never negative and never exceeds the
      total. */
  lemma TotalReport(headers: seq<HeaderInfo>)
    ensures ReduceTotal(0, headers) - ReduceMissing(0, headers) == TotalPresent(headers)
    ensures 0 <= ReduceTotal(0, headers) - ReduceMissing(0, headers) <= ReduceTotal(0, headers)
  {
    FoldDifference(0, 0, headers);
    FoldTotalAtLeast(0, headers);
  }

  lemma {:induction false} FoldDifference(a: int, b: int, headers: seq<HeaderInfo>)
    ensures ReduceTotal(a, headers) - ReduceMissing(b, headers) == a - b + TotalPresent(headers)
    decreases |headers|
  {
    if headers != [] {
      var h := headers[0];
      HeaderCounts(h);
      FoldDifference(a + SymbolCount(h), b + MissingCount(h), headers[1..]);
    }
  }

  /** Every symbol of a header is either missing or present. */
  lemma HeaderCounts(h: HeaderInfo)
    ensures MissingCount(h) + PresentCount(h) == SymbolCount(h)
  {
  }

  lemma {:induction false} FoldTotalAtLeast(a: int, headers: seq<HeaderInfo>)
    ensures ReduceTotal(a, headers) >= a + TotalPresent(headers)
    decreases |headers|
  {
    if headers != [] {
      var h := headers[0];
      assert PresentCount(h) <= SymbolCount(h);
      FoldTotalAtLeast(a + SymbolCount(h), headers[1..]);
    }
  }

  /** The kinds of declaration the visitor distinguishes. */
  datatype Declaration =
    | FunctionDecl(spelling: string)
    | EnumDecl(spelling: string, isAnonymous: bool, constants: seq<string>)
    | StructDecl(spelling: string)
    | OtherDecl

  /** A node of the translation unit: its declaration, and whether its range
      starts in the header being analysed rather than in one it includes. */
  datatype Node = Node(isFromMainFile: bool, decl: Declaration)

  datatype Category = Enums | EnumCases | Structs | Functions

  /** The names one node contributes to a category: nothing unless it comes
      from the main file; an anonymous enum is not listed among the enums,
      but its constants are still listed among the enum cases. */
  function Recorded(n: Node, c: Category): (r: seq<string>)
    ensures !n.isFromMainFile ==> r == []
    ensures c == Enums && n.decl.EnumDecl? && n.decl.isAnonymous ==> r == []
    ensures c == EnumCases && n.isFromMainFile && n.decl.EnumDecl? ==> r == n.decl.constants
    ensures c == EnumCases && !n.decl.EnumDecl? ==> r == []
    ensures c != EnumCases ==> |r| <= 1
  {
    if !n.isFromMainFile then []
    else
      match c
      case Functions => if n.decl.FunctionDecl? then [n.decl.spelling] else []
      case Enums => if n.decl.EnumDecl? && !n.decl.isAnonymous then [n.decl.spelling] else []
      case EnumCases => if n.decl.EnumDecl? then n.decl.constants else []
      case Structs => if n.decl.StructDecl? then [n.decl.spelling] else []
  }

  /** The names recorded in a category for a run of nodes, in visiting
      order. */
  function Names(nodes: seq<Node>, c: Category): seq<string> {
    if nodes == [] then [] else Recorded(nodes[0], c) + Names(nodes[1..], c)
  }

  /** A presence record for each name. */
  function Records(names: seq<string>, bindings: seq<string>): (r: seq<SymbolPresence>)
    ensures |r| == |names|
    ensures forall i | 0 <= i < |r| ::
      r[i].name == names[i] && r[i].presentInBindings == IsPresentInBindings(names[i], bindings)
  {
    seq(|names|, i requires 0 <= i < |names| =>
      SymbolPresence(names[i], IsPresentInBindings(names[i], bindings)))
  }

  /** What the analysis of a header records. */
  function Expected(url: string, nodes: seq<Node>, bindings: seq<string>): HeaderInfo {
    HeaderInfo(url,
      Records(Names(nodes, Enums), bindings),
      Records(Names(nodes, EnumCases), bindings),
      Records(Names(nodes, Structs), bindings),
      Records(Names(nodes, Functions), bindings))
  }

  /** The names of two runs of nodes are those of the first followed by
      those of the second. */
  lemma {:induction false} NamesConcat(a: seq<Node>, b: seq<Node>, c: Category)
    ensures Names(a + b, c) == Names(a, c) + Names(b, c)
  {
    if a == [] {
      assert a + b == b;
    } else {
      assert (a + b)[0] == a[0];
      assert (a + b)[1..] == a[1..] + b;
      NamesConcat(a[1..], b, c);
    }
  }

  /** One more node appends what it contributes. */
  lemma NamesSnoc(nodes: seq<Node>, n: Node, c: Category)
    ensures Names(nodes + [n], c) == Names(nodes, c) + Recorded(n, c)
  {
    NamesConcat(nodes, [n], c);
    assert [n][1..] == [];
  }

  /** The nodes whose range starts in the main file. */
  function MainFileNodes(nodes: seq<Node>): seq<Node> {
    if nodes == [] then []
    else (if nodes[0].isFromMainFile then [nodes[0]] else []) + MainFileNodes(nodes[1..])
  }

  /** Only declarations from the main file are recorded: dropping every
      node from an included header records the same names. */
  lemma {:induction false} OnlyMainFileRecorded(nodes: seq<Node>, c: Category)
    ensures Names(nodes, c) == Names(MainFileNodes(nodes), c)
  {
    if nodes != [] {
      var kept := if nodes[0].isFromMainFile then [nodes[0]] else [];
      OnlyMainFileRecorded(nodes[1..], c);
      NamesConcat(kept, MainFileNodes(nodes[1..]), c);
      if nodes[0].isFromMainFile {
        assert kept[1..] == [];
      }
    }
  }

  /** A header with the names one more node contributes appended. */
  function Visit(h: HeaderInfo, n: Node, bindings: seq<string>): HeaderInfo {
    h.(enums := h.enums + Records(Recorded(n, Enums), bindings),
       enumCases := h.enumCases + Records(Recorded(n, EnumCases), bindings),
       structs := h.structs + Records(Recorded(n, Structs), bindings),
       functions := h.functions + Records(Recorded(n, Functions), bindings))
  }

  lemma RecordsConcat(a: seq<string>, b: seq<string>, bindings: seq<string>)
    ensures Records(a + b, bindings) == Records(a, bindings) + Records(b, bindings)
  {
  }

  /** Analysing one more node appends what it contributes. */
  lemma ExpectedStep(url: string, nodes: seq<Node>, i: nat, bindings: seq<string>)
    requires i < |nodes|
    ensures Expected(url, nodes[..i + 1], bindings) == Visit(Expected(url, nodes[..i], bindings), nodes[i], bindings)
  {
    CategoryStep(nodes, i, Enums, bindings);
    CategoryStep(nodes, i, EnumCases, bindings);
    CategoryStep(nodes, i, Structs, bindings);
    CategoryStep(nodes, i, Functions, bindings);
  }

  /** The records of one category after one more node. */
  lemma CategoryStep(nodes: seq<Node>, i: nat, c: Category, bindings: seq<string>)
    requires i < |nodes|
    ensures Records(Names(nodes[..i + 1], c), bindings)
      == Records(Names(nodes[..i], c), bindings) + Records(Recorded(nodes[i], c), bindings)
  {
    assert nodes[..i + 1] == nodes[..i] + [nodes[i]];
    NamesSnoc(nodes[..i], nodes[i], c);
    RecordsConcat(Names(nodes[..i], c), Recorded(nodes[i], c), bindings);
  }

  /** `analyzeFile(at:bindings:)`: visits the nodes in order and appends a
      presence record for each recorded name to its category. */
  method AnalyzeFile(url: string, nodes: seq<Node>, bindings: seq<string>) returns (header: HeaderInfo)
    ensures header == Expected(url, nodes, bindings)
  {
    header := HeaderInfo(url, [], [], [], []);
    for i := 0 to |nodes|
      invariant header == Expected(url, nodes[..i], bindings)
    {
      ExpectedStep(url, nodes, i, bindings);
      header := VisitNode(header, nodes[i], bindings);
    }
    assert nodes[..|nodes|] == nodes;
  }

  /** The visitor's body for one node: nothing for a node from another
      file, otherwise one record per name it declares. */
  method VisitNode(header: HeaderInfo, node: Node, bindings: seq<string>) returns (h: HeaderInfo)
    ensures h == Visit(header, node, bindings)
  {
    h := header;
    if !node.isFromMainFile {
      return;
    }
    match node.decl {
      case FunctionDecl(spelling) =>
        var present := IsPresentInBindings(spelling, bindings);
        h := h.(functions := h.functions + [SymbolPresence(spelling, present)]);
      case EnumDecl(spelling, isAnonymous, constants) =>
        if !isAnonymous {
          var present := IsPresentInBindings(spelling, bindings);
          h := h.(enums := h.enums + [SymbolPresence(spelling, present)]);
        }
        var cases := AppendCases(h.enumCases, constants, bindings);
        h := h.(enumCases := cases);
      case StructDecl(spelling) =>
        var present := IsPresentInBindings(spelling, bindings);
        h := h.(structs := h.structs + [SymbolPresence(spelling, present)]);
      case OtherDecl =>
    }
  }

  /** The loop over an enum's constants, each appended to the enum cases. */
  method AppendCases(cases: seq<SymbolPresence>, constants: seq<string>, bindings: seq<string>)
    returns (r: seq<SymbolPresence>)
    ensures r == cases + Records(constants, bindings)
  {
    r := cases;
    for j := 0 to |constants|
      invariant r == cases + Records(constants[..j], bindings)
    {
      var present := IsPresentInBindings(constants[j], bindings);
      assert constants[..j + 1] == constants[..j] + [constants[j]];
      RecordsConcat(constants[..j], [constants[j]], bindings);
      r := r + [SymbolPresence(constants[j], present)];
    }
    assert constants[..|constants|] == constants;
  }
}
