/** `scanJsxElements`: an outline of return statements, function declarations,
    arrow-function variable statements and JSX elements, each with its depth
    among the outline entries. */
module JsxElements {

  import opened Records
  import opened TreeParser
  import opened LevelCompaction

  /** What one record contributes to the outline: nothing, one entry, or a
      TypeError (reading `text` of `nodes[-1]`). */
  datatype Slot = Skip | Emit(entry: ScanNode) | Throw

  /** The outline, or the record at which the scan threw a TypeError. */
  datatype Result<T> = Ok(value: T) | TypeError(at: nat)

  /** The `if … else if …` chain of the loop body for record `i`. */
  function SlotAt(nodes: seq<LineInfo>, i: nat): Slot
    requires i < |nodes|
  {
    var node := nodes[i];
    if node.kind == "ReturnStatement" then
      Emit(ScanNode(node.level, None, node.kind, None))
    else if node.kind == "FunctionDeclaration" then
      var exp := ExportMark(FindForward(nodes, i, "ExportKeyword") >= 0);
      var t := FindForward(nodes, i, "Identifier");
      if t < 0 then Throw
      else Emit(ScanNode(node.level, Some(exp), node.kind, Some(nodes[t].text)))
    else if node.kind == "VariableStatement" then
      var exp := ExportMark(FindPath(nodes, i, ["SyntaxList", "ExportKeyword"]) >= 0);
      var a := FindForward(nodes, i, "ArrowFunction");
      if a < 0 then Skip
      else
        var t := FindBackward(nodes, a, "Identifier");
        Emit(ScanNode(node.level, Some(exp), nodes[a].kind, if t >= 0 then Some(nodes[t].text) else None))
    else if node.kind == "JsxElement" then
      var n := FindPath(nodes, i, ["JsxOpeningElement", "Identifier"]);
      Emit(ScanNode(node.level, None, node.kind, if n >= 0 then Some(nodes[n].text) else None))
    else if node.kind == "JsxSelfClosingElement" then
      var n := FindPath(nodes, i, ["Identifier"]);
      Emit(ScanNode(node.level, None, node.kind, if n >= 0 then Some(nodes[n].text) else None))
    else Skip
  }

  /** The entries pushed for the first `n` records, before the depths are compacted. */
  function RawOutline(nodes: seq<LineInfo>, n: nat): Result<seq<ScanNode>>
    requires n <= |nodes|
  {
    if n == 0 then Ok([])
    else match RawOutline(nodes, n - 1)
         case TypeError(at) => TypeError(at)
         case Ok(es) =>
           match SlotAt(nodes, n - 1)
           case Skip => Ok(es)
           case Emit(e) => Ok(es + [e])
           case Throw => TypeError(n - 1)
  }

  function Outline(nodes: seq<LineInfo>): Result<seq<ScanNode>> {
    match RawOutline(nodes, |nodes|)
    case Ok(es) => Ok(Relevel(es))
    case TypeError(at) => TypeError(at)
  }

  /** A function declaration in which no identifier can be found. */
  predicate Unnamed(nodes: seq<LineInfo>, i: nat)
    requires i < |nodes|
  {
    nodes[i].kind == "FunctionDeclaration" && FindForward(nodes, i, "Identifier") < 0
  }

  /** The records that give an outline entry: return statements, function
      declarations, JSX elements and self-closing JSX elements, and variable
      statements where an arrow function is found. */
  predicate Selectable(nodes: seq<LineInfo>, i: nat)
    requires i < |nodes|
  {
    || nodes[i].kind == "ReturnStatement"
    || nodes[i].kind == "FunctionDeclaration"
    || (nodes[i].kind == "VariableStatement" && FindForward(nodes, i, "ArrowFunction") >= 0)
    || nodes[i].kind == "JsxElement"
    || nodes[i].kind == "JsxSelfClosingElement"
  }

  /** The selectable records among the first `n`, in record order. */
  function Origins(nodes: seq<LineInfo>, n: nat): (r: seq<nat>)
    requires n <= |nodes|
    ensures forall k :: 0 <= k < |r| ==> r[k] < n
  {
    if n == 0 then []
    else Origins(nodes, n - 1) + (if Selectable(nodes, n - 1) then [n - 1] else [])
  }

  /** A name taken from the record a lookup found, or none when it found nothing. */
  ghost predicate NamedBy(nodes: seq<LineInfo>, found: int, name: Option<string>) {
    && (name.Some? <==> found >= 0)
    && (name.Some? ==> found < |nodes| && name.value == nodes[found].text)
  }

  /** The entry produced for the selectable record `i`: its raw depth; its kind
      (the arrow function's kind for a variable statement); an export mark exactly
      for declarations and arrow functions, "export " exactly when their export
      lookup succeeds; and a name exactly when the record's name lookup succeeds,
      the text of the record found (for a declaration that lookup always succeeds,
      as it throws otherwise). */
  ghost predicate EntryFor(nodes: seq<LineInfo>, i: nat, e: ScanNode)
    requires i < |nodes|
  {
    && e.level == nodes[i].level
    && (e.exportMark.Some? <==> nodes[i].kind in {"FunctionDeclaration", "VariableStatement"})
    && (e.exportMark.Some? ==> e.exportMark.value in {"export ", ""})
    && (if nodes[i].kind == "ReturnStatement" then
          e.kind == nodes[i].kind && e.name == None
        else if nodes[i].kind == "FunctionDeclaration" then
          var t := FindForward(nodes, i, "Identifier");
          && e.kind == nodes[i].kind
          && e.exportMark == Some(ExportMark(FindForward(nodes, i, "ExportKeyword") >= 0))
          && i < t < |nodes| && StartsWith(nodes[t].kind, "Identifier")
          && e.name == Some(nodes[t].text)
        else if nodes[i].kind == "VariableStatement" then
          var a := FindForward(nodes, i, "ArrowFunction");
          && 0 <= a < |nodes| && e.kind == nodes[a].kind && StartsWith(e.kind, "ArrowFunction")
          && e.exportMark == Some(ExportMark(FindPath(nodes, i, ["SyntaxList", "ExportKeyword"]) >= 0))
          && NamedBy(nodes, FindBackward(nodes, a, "Identifier"), e.name)
        else if nodes[i].kind == "JsxElement" then
          e.kind == nodes[i].kind && NamedBy(nodes, FindPath(nodes, i, ["JsxOpeningElement", "Identifier"]), e.name)
        else
          e.kind == nodes[i].kind && NamedBy(nodes, FindPath(nodes, i, ["Identifier"]), e.name))
  }

  /** A record throws exactly when it is an unnamed function declaration. */
  lemma {:induction false} SlotThrows(nodes: seq<LineInfo>, i: nat)
    requires i < |nodes|
    ensures SlotAt(nodes, i).Throw? <==> Unnamed(nodes, i)
  {
  }

  /** A record contributes an entry exactly when it is selectable and not an
      unnamed function declaration, and the entry is the one `EntryFor` describes. */
  lemma {:induction false} SlotSpec(nodes: seq<LineInfo>, i: nat)
    requires i < |nodes|
    ensures SlotAt(nodes, i).Emit? <==> Selectable(nodes, i) && !Unnamed(nodes, i)
    ensures SlotAt(nodes, i).Emit? ==> EntryFor(nodes, i, SlotAt(nodes, i).entry)
  {
    if nodes[i].kind == "FunctionDeclaration" {
      FindForwardSpec(nodes, i, "Identifier");
    } else if nodes[i].kind == "VariableStatement" && FindForward(nodes, i, "ArrowFunction") >= 0 {
      FindForwardSpec(nodes, i, "ArrowFunction");
    }
  }

  /** The scan throws at the first unnamed function declaration, and only if
      there is one. */
  lemma {:induction false} RawOutlineThrows(nodes: seq<LineInfo>, n: nat)
    requires n <= |nodes|
    ensures RawOutline(nodes, n).TypeError? ==>
              RawOutline(nodes, n).at < n && Unnamed(nodes, RawOutline(nodes, n).at)
              && forall j :: 0 <= j < RawOutline(nodes, n).at ==> !Unnamed(nodes, j)
    ensures RawOutline(nodes, n).Ok? ==> forall j :: 0 <= j < n ==> !Unnamed(nodes, j)
  {
    if n > 0 {
      RawOutlineThrows(nodes, n - 1);
      SlotThrows(nodes, n - 1);
    }
  }

  /** Without a TypeError there is one entry per selectable record, in record
      order, each built from its record as `EntryFor` describes. */
  lemma {:induction false} RawOutlineEntries(nodes: seq<LineInfo>, n: nat)
    requires n <= |nodes|
    ensures RawOutline(nodes, n).Ok? ==>
              && |RawOutline(nodes, n).value| == |Origins(nodes, n)|
              && forall k :: 0 <= k < |Origins(nodes, n)| ==>
                   EntryFor(nodes, Origins(nodes, n)[k], RawOutline(nodes, n).value[k])
  {
    if n > 0 {
      RawOutlineEntries(nodes, n - 1);
      if RawOutline(nodes, n).Ok? {
        var es := RawOutline(nodes, n - 1).value;
        var os := Origins(nodes, n - 1);
        if SlotAt(nodes, n - 1).Emit? {
          SlotSpec(nodes, n - 1);
          assert RawOutline(nodes, n).value == es + [SlotAt(nodes, n - 1).entry];
          assert Origins(nodes, n) == os + [n - 1];
          EntriesSnoc(nodes, os, es, n - 1, SlotAt(nodes, n - 1).entry);
        } else {
          SlotThrows(nodes, n - 1);
          SlotSpec(nodes, n - 1);
          assert RawOutline(nodes, n).value == es;
          assert Origins(nodes, n) == os;
        }
      }
    }
  }

  /** Pairing one more record with one more entry keeps every pair matched. */
  lemma {:induction false} EntriesSnoc(nodes: seq<LineInfo>, os: seq<nat>, es: seq<ScanNode>, o: nat, e: ScanNode)
    requires |os| == |es| && o < |nodes| && EntryFor(nodes, o, e)
    requires forall k :: 0 <= k < |os| ==> os[k] < |nodes| && EntryFor(nodes, os[k], es[k])
    ensures forall k :: 0 <= k < |os| + 1 ==> (os + [o])[k] < |nodes| && EntryFor(nodes, (os + [o])[k], (es + [e])[k])
  {
    forall k | 0 <= k < |os| + 1
      ensures (os + [o])[k] < |nodes| && EntryFor(nodes, (os + [o])[k], (es + [e])[k])
    {
      if k < |os| {
        assert (os + [o])[k] == os[k] && (es + [e])[k] == es[k];
      }
    }
  }

  /** Origins are listed in strictly increasing record order. */
  lemma {:induction false} OriginsIncreasing(nodes: seq<LineInfo>, n: nat)
    requires n <= |nodes|
    ensures forall j, k :: 0 <= j < k < |Origins(nodes, n)| ==> Origins(nodes, n)[j] < Origins(nodes, n)[k]
  {
    if n > 0 {
      OriginsIncreasing(nodes, n - 1);
    }
  }

  /** The scan's outcome over the whole record array: a TypeError at the first
      unnamed function declaration, or else one entry per selectable record whose
      depth is the compacted raw depth and whose other fields are kept. */
  lemma {:induction false} OutlineSpec(nodes: seq<LineInfo>)
    ensures Outline(nodes).TypeError? <==> exists j :: 0 <= j < |nodes| && Unnamed(nodes, j)
    ensures Outline(nodes).TypeError? ==>
              Outline(nodes).at < |nodes| && Unnamed(nodes, Outline(nodes).at)
              && forall j :: 0 <= j < Outline(nodes).at ==> !Unnamed(nodes, j)
    ensures Outline(nodes).Ok? ==>
              var es := RawOutline(nodes, |nodes|).value;
              && |Outline(nodes).value| == |es| == |Origins(nodes, |nodes|)|
              && forall k :: 0 <= k < |es| ==>
                   EntryFor(nodes, Origins(nodes, |nodes|)[k], es[k])
                   && Outline(nodes).value[k] == es[k].(level := Compacted(Levels(es))[k])
  {
    RawOutlineThrows(nodes, |nodes|);
    RawOutlineEntries(nodes, |nodes|);
  }

  /** Once the scan has thrown, later records change nothing. */
  lemma {:induction false} ThrownStays(nodes: seq<LineInfo>, n: nat, m: nat)
    requires n <= m <= |nodes|
    requires RawOutline(nodes, n).TypeError?
    ensures RawOutline(nodes, m) == RawOutline(nodes, n)
    decreases m
  {
    if m > n {
      ThrownStays(nodes, n, m - 1);
    }
  }

  /** The loop body for record `i`. */
  method VisitRecord(nodes: seq<LineInfo>, i: nat) returns (slot: Slot)
    requires i < |nodes|
    ensures slot == SlotAt(nodes, i)
  {
    var node := nodes[i];
    if node.kind == "ReturnStatement" {
      slot := Emit(ScanNode(node.level, None, node.kind, None));
    } else if node.kind == "FunctionDeclaration" {
      var x := NextFind(nodes, i, "ExportKeyword");
      var exp := ExportMark(x >= 0);
      var t := NextFind(nodes, i, "Identifier");
      if t < 0 {
        // `nodes[-1]` is undefined and reading its `text` throws
        slot := Throw;
      } else {
        slot := Emit(ScanNode(node.level, Some(exp), node.kind, Some(nodes[t].text)));
      }
    } else if node.kind == "VariableStatement" {
      var x := NextFindPath(nodes, i, ["SyntaxList", "ExportKeyword"]);
      var exp := ExportMark(x >= 0);
      var a := NextFind(nodes, i, "ArrowFunction");
      slot := Skip;
      if a >= 0 {
        var t := PrevFind(nodes, a, "Identifier");
        if t >= 0 {
          slot := Emit(ScanNode(node.level, Some(exp), nodes[a].kind, Some(nodes[t].text)));
        } else {
          slot := Emit(ScanNode(node.level, Some(exp), nodes[a].kind, None));
        }
      }
    } else if node.kind == "JsxElement" {
      var n := NextFindPath(nodes, i, ["JsxOpeningElement", "Identifier"]);
      if n >= 0 {
        slot := Emit(ScanNode(node.level, None, node.kind, Some(nodes[n].text)));
      } else {
        slot := Emit(ScanNode(node.level, None, node.kind, None));
      }
    } else if node.kind == "JsxSelfClosingElement" {
      var n := NextFindPath(nodes, i, ["Identifier"]);
      if n >= 0 {
        slot := Emit(ScanNode(node.level, None, node.kind, Some(nodes[n].text)));
      } else {
        slot := Emit(ScanNode(node.level, None, node.kind, None));
      }
    } else {
      slot := Skip;
    }
  }

  /** One more record: its contribution is added, or the scan throws there. */
  lemma {:induction false} RawOutlineNext(nodes: seq<LineInfo>, i: nat, es: seq<ScanNode>, slot: Slot)
    requires i < |nodes| && RawOutline(nodes, i) == Ok(es) && slot == SlotAt(nodes, i)
    ensures RawOutline(nodes, i + 1)
         == if slot.Throw? then TypeError(i) else Ok(es + (if slot.Emit? then [slot.entry] else []))
  {
    assert es + [] == es;
  }

  /** `scanJsxElements(nodes)`. */
  method ScanJsxElements(nodes: seq<LineInfo>) returns (r: Result<seq<ScanNode>>)
    ensures r == Outline(nodes)
  {
    var result: seq<ScanNode> := [];
    for i := 0 to |nodes|
      invariant RawOutline(nodes, i) == Ok(result)
    {
      var slot := VisitRecord(nodes, i);
      RawOutlineNext(nodes, i, result, slot);
      if slot.Throw? {
        ThrownStays(nodes, i + 1, |nodes|);
        return TypeError(i);
      }
      result := result + (if slot.Emit? then [slot.entry] else []);
    }
    var out := CompactLevels(result);
    return Ok(out);
  }
}
