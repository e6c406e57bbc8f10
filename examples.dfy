/** Hand-built record arrays showing how the scans behave on small inputs.  Only
    the fields the lookups read (`level`, `kind`, `text`) are meaningful in the
    scan examples: the `element` and `hasNodes` flags and the positions are
    placeholders, and records the examples do not need (keywords, blocks,
    parameter lists, the JSX opening elements) are omitted, so these arrays are
    not the flattening of a real syntax tree. */
module Examples {

  import opened Records
  import opened TreeParser
  import opened JsxFunctions
  import opened LevelCompaction
  import opened JsxElements
  import opened SourceReplay
  import opened Text

  /** A record for the scan examples: only its level, kind and text matter. */
  function R(level: nat, kind: string, text: string): LineInfo {
    LineInfo(false, level, kind, 0, 0, 0, 0, text, true)
  }

  /** `function Hello() { <jsx/> }` followed by `export function World() { <jsx/> }`,
      reduced to the records the lookups need: the keywords, blocks, punctuation
      and the JSX elements' inner records are left out. */
  function TwoDeclarations(): seq<LineInfo> {
    [ R(0, "SourceFile", ""),
      R(1, "FunctionDeclaration", ""),
      R(2, "Identifier", "Hello"),
      R(2, "JsxElement", ""),
      R(1, "FunctionDeclaration", ""),
      R(2, "SyntaxList", ""),
      R(3, "ExportKeyword", "export"),
      R(2, "Identifier", "World"),
      R(2, "JsxElement", "") ]
  }

  /** A kind that does not begin with the first character of `prefix` does not
      begin with `prefix`. */
  lemma {:induction false} FirstCharDiffers(s: string, prefix: string)
    requires s != [] && prefix != [] && s[0] != prefix[0]
    ensures !StartsWith(s, prefix)
  {
  }

  /** The export lookup of the first declaration runs on into its exported
      sibling, and the span of the first declaration ends at that sibling. */
  lemma LookupsOnTwoDeclarations()
    ensures FindForward(TwoDeclarations(), 1, "ExportKeyword") == 6
    ensures SpanEnd(TwoDeclarations(), 1) == 4
  {
    var ns := TwoDeclarations();
    var k := "ExportKeyword";
    forall m | 2 <= m < 6
      ensures !StartsWith(ns[m].kind, k)
    {
      FirstCharDiffers(ns[m].kind, k);
    }
    assert StartsWith(ns[6].kind, k);
    assert FindForwardFrom(ns, 1, 2, k) == FindForwardFrom(ns, 1, 3, k) == FindForwardFrom(ns, 1, 4, k)
        == FindForwardFrom(ns, 1, 5, k) == FindForwardFrom(ns, 1, 6, k) == 6;
    assert SpanEndFrom(ns, 1, 2) == SpanEndFrom(ns, 1, 3) == SpanEndFrom(ns, 1, 4) == 4;
  }

  /** The first declaration is reported, and as exported although it is not; the
      exported second declaration sits at the end of the first one's span and is
      never examined. */
  lemma ComponentsOfTwoDeclarations()
    ensures Components(TwoDeclarations()) == ComponentScan([Component(1, Declaration, 2, true, "Hello")], None)
  {
    var ns := TwoDeclarations();
    LookupsOnTwoDeclarations();
    assert FindForward(ns, 1, "Identifier") == 2;
    assert FindForward(ns, 2, "JsxElement") == 3;
    var c := Component(1, Declaration, 2, true, "Hello");
    assert StepAt(ns, 1) == Visit([c], 5);
    forall m | 5 <= m < |ns|
      ensures StepAt(ns, m) == Visit([], m + 1)
    {
      assert ns[m].kind != "FunctionDeclaration" && ns[m].kind != "VariableStatement";
    }
    assert ComponentsFrom(ns, 9) == ComponentScan([], None);
    assert ComponentsFrom(ns, 5) == ComponentsFrom(ns, 6) == ComponentsFrom(ns, 7) == ComponentsFrom(ns, 8)
        == ComponentsFrom(ns, 9);
    assert StepAt(ns, 0) == Visit([], 1);
    assert ComponentsFrom(ns, 0) == ComponentsFrom(ns, 1) == Prepend([c], ComponentsFrom(ns, 5));
  }

  /** Raw depths 1, 2, 1, 2 become 0, 1, 0, 1. */
  lemma CompactSiblings()
    ensures Compacted([1, 2, 1, 2]) == [0, 1, 0, 1]
  {
    var raws := [1, 2, 1, 2];
    assert raws[..3][..2][..1][..0] == [];
    assert Compact(raws[..1]) == Compaction([1], [0]);
    assert Compact(raws[..2]) == Compaction([1, 2], [0, 1]) by {
      assert raws[..2][..1] == raws[..1];
    }
    assert Compact(raws[..3]) == Compaction([1], [0, 1, 0]) by {
      assert raws[..3][..2] == raws[..2];
      assert Settle([1, 2], 1) == Settle([1], 1) == [1];
    }
    assert raws[..4] == raws;
    assert raws[..4][..3] == raws[..3];
  }

  /** The outline entry each record contributes, before compaction. */
  lemma SlotsOfTwoDeclarations()
    ensures SlotAt(TwoDeclarations(), 1) == Emit(ScanNode(1, Some("export "), "FunctionDeclaration", Some("Hello")))
    ensures SlotAt(TwoDeclarations(), 3) == Emit(ScanNode(2, None, "JsxElement", None))
    ensures SlotAt(TwoDeclarations(), 4) == Emit(ScanNode(1, Some("export "), "FunctionDeclaration", Some("World")))
    ensures SlotAt(TwoDeclarations(), 8) == Emit(ScanNode(2, None, "JsxElement", None))
    ensures forall m :: 0 <= m < 9 && m != 1 && m != 3 && m != 4 && m != 8 ==> SlotAt(TwoDeclarations(), m) == Skip
  {
    var ns := TwoDeclarations();
    LookupsOnTwoDeclarations();
    assert FindForward(ns, 1, "Identifier") == 2;
    assert FindForward(ns, 4, "ExportKeyword") == 6 by {
      FirstCharDiffers(ns[5].kind, "ExportKeyword");
      assert FindForwardFrom(ns, 4, 5, "ExportKeyword") == FindForwardFrom(ns, 4, 6, "ExportKeyword") == 6;
    }
    assert FindForward(ns, 4, "Identifier") == 7 by {
      forall m | 5 <= m < 7
        ensures !StartsWith(ns[m].kind, "Identifier")
      {
        FirstCharDiffers(ns[m].kind, "Identifier");
      }
      assert FindForwardFrom(ns, 4, 5, "Identifier") == FindForwardFrom(ns, 4, 6, "Identifier")
          == FindForwardFrom(ns, 4, 7, "Identifier") == 7;
    }
    assert FindPath(ns, 3, ["JsxOpeningElement", "Identifier"]) == -1 by {
      assert FindForward(ns, 3, "JsxOpeningElement") == -1;
    }
    assert FindPath(ns, 8, ["JsxOpeningElement", "Identifier"]) == -1 by {
      assert FindForward(ns, 8, "JsxOpeningElement") == -1;
    }
  }

  lemma {:induction false} SkipStep(nodes: seq<LineInfo>, n: nat, es: seq<ScanNode>)
    requires n < |nodes| && RawOutline(nodes, n) == Ok(es) && SlotAt(nodes, n) == Skip
    ensures RawOutline(nodes, n + 1) == Ok(es)
  {
  }

  lemma {:induction false} EmitStep(nodes: seq<LineInfo>, n: nat, es: seq<ScanNode>, e: ScanNode)
    requires n < |nodes| && RawOutline(nodes, n) == Ok(es) && SlotAt(nodes, n) == Emit(e)
    ensures RawOutline(nodes, n + 1) == Ok(es + [e])
  {
  }

  /** The entries pushed over nine records that contribute as the ones of
      `TwoDeclarations` do. */
  lemma {:induction false} RawOutlineFromSlots(ns: seq<LineInfo>, e0: ScanNode, e1: ScanNode, e2: ScanNode, e3: ScanNode)
    requires |ns| == 9
    requires SlotAt(ns, 1) == Emit(e0) && SlotAt(ns, 3) == Emit(e1)
    requires SlotAt(ns, 4) == Emit(e2) && SlotAt(ns, 8) == Emit(e3)
    requires forall m :: 0 <= m < 9 && m != 1 && m != 3 && m != 4 && m != 8 ==> SlotAt(ns, m) == Skip
    ensures RawOutline(ns, 9) == Ok([e0, e1, e2, e3])
  {
    SkipStep(ns, 0, []);
    EmitStep(ns, 1, [], e0);
    assert [] + [e0] == [e0];
    SkipStep(ns, 2, [e0]);
    EmitStep(ns, 3, [e0], e1);
    assert [e0] + [e1] == [e0, e1];
    EmitStep(ns, 4, [e0, e1], e2);
    assert [e0, e1] + [e2] == [e0, e1, e2];
    SkipStep(ns, 5, [e0, e1, e2]);
    SkipStep(ns, 6, [e0, e1, e2]);
    SkipStep(ns, 7, [e0, e1, e2]);
    EmitStep(ns, 8, [e0, e1, e2], e3);
    assert [e0, e1, e2] + [e3] == [e0, e1, e2, e3];
  }

  /** Four entries at raw depths 1, 2, 1, 2 are compacted to 0, 1, 0, 1. */
  lemma {:induction false} RelevelSiblings(es: seq<ScanNode>)
    requires |es| == 4 && es[0].level == 1 && es[1].level == 2 && es[2].level == 1 && es[3].level == 2
    ensures Relevel(es) == [es[0].(level := 0), es[1].(level := 1), es[2].(level := 0), es[3].(level := 1)]
  {
    assert Levels(es) == [1, 2, 1, 2];
    CompactSiblings();
  }

  lemma {:induction false} OutlineOfRaw(ns: seq<LineInfo>, es: seq<ScanNode>)
    requires RawOutline(ns, |ns|) == Ok(es)
    ensures Outline(ns) == Ok(Relevel(es))
  {
  }

  /** Both declarations and both JSX elements are outlined; the first
      declaration carries the export mark of the second, and the JSX elements,
      whose opening-element lookup leaves their own span, have no name. */
  lemma OutlineOfTwoDeclarations()
    ensures Outline(TwoDeclarations()) == Ok([
              ScanNode(0, Some("export "), "FunctionDeclaration", Some("Hello")),
              ScanNode(1, None, "JsxElement", None),
              ScanNode(0, Some("export "), "FunctionDeclaration", Some("World")),
              ScanNode(1, None, "JsxElement", None)])
  {
    var e0 := ScanNode(1, Some("export "), "FunctionDeclaration", Some("Hello"));
    var e1 := ScanNode(2, None, "JsxElement", None);
    var e2 := ScanNode(1, Some("export "), "FunctionDeclaration", Some("World"));
    var e3 := ScanNode(2, None, "JsxElement", None);
    SlotsOfTwoDeclarations();
    RawOutlineFromSlots(TwoDeclarations(), e0, e1, e2, e3);
    OutlineOfRaw(TwoDeclarations(), [e0, e1, e2, e3]);
    RelevelSiblings([e0, e1, e2, e3]);
  }

  function Leaf(line: int, pos: int, text: string): LineInfo {
    LineInfo(true, 1, "Identifier", line, line, pos, pos + |text|, text, false)
  }

  /** Two leaves on line 0 separated by one column, then a leaf indented on line
      2: the gap on line 0 becomes a space, the line change two newlines, and the
      indentation of the third leaf is lost because `pos` is reset. */
  lemma ReplayLosesIndentation()
    ensures Replay([Leaf(0, 0, "let"), Leaf(0, 4, "x"), Leaf(2, 10, "y")]).out == "let x\n\ny"
  {
    var rs := [Leaf(0, 0, "let"), Leaf(0, 4, "x"), Leaf(2, 10, "y")];
    var w0 := Written("", Cursor(0, 0));
    assert rs[..2][..1][..0] == [];
    assert Gap(Cursor(0, 0), rs[0]) == "";
    assert ReplayFrom(w0, rs[..1]) == Written("let", Cursor(0, 3));
    assert Gap(Cursor(0, 3), rs[1]) == " " by {
      assert Repeat(' ', 1) == " ";
    }
    assert rs[..2][..1] == rs[..1];
    assert ReplayFrom(w0, rs[..2]) == Written("let x", Cursor(0, 5));
    assert Gap(Cursor(0, 5), rs[2]) == "\n\n" by {
      assert Repeat('\n', 2) == "\n\n";
    }
    assert rs[..3] == rs;
    assert rs[..3][..2] == rs[..2];
  }
}
