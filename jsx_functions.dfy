/** `scanJsxFunctions`: report function declarations and arrow-function variable
    statements whose bodies contain JSX.  What the program prints with
    `console.log` is returned as a list of lines. */
module JsxFunctions {

  import opened Records
  import opened TreeParser

  /** How a component was declared: a `FunctionDeclaration`, or a
      `VariableStatement` whose arrow-function record is `arrow`. */
  datatype Form = Declaration | Arrow(arrow: nat)

  /** One printed line: the statement record `decl`, the record `name` whose text
      is printed, and whether the line starts with "export ". */
  datatype Component = Component(decl: nat, form: Form, name: nat, exported: bool, text: string)

  /** What the scan reports: the components in the order they were printed, and
      the record at which it threw a TypeError, if it did. */
  datatype ComponentScan = ComponentScan(found: seq<Component>, thrownAt: Option<nat>)

  function Line(c: Component): string {
    ExportMark(c.exported) + c.text
  }

  function Lines(cs: seq<Component>): (r: seq<string>)
    ensures |r| == |cs|
    ensures forall k :: 0 <= k < |cs| ==> r[k] == Line(cs[k])
  {
    if cs == [] then [] else Lines(cs[..|cs| - 1]) + [Line(cs[|cs| - 1])]
  }

  function Prepend(cs: seq<Component>, s: ComponentScan): ComponentScan {
    ComponentScan(cs + s.found, s.thrownAt)
  }

  /** One turn of the loop at record `i`: the components it prints and the index
      the next turn starts from, or a TypeError. */
  datatype Step = Visit(here: seq<Component>, next: nat) | Throw

  /** A function declaration prints its identifier when a `JsxElement` follows
      it; the loop then resumes one record past the end of the declaration's span,
      so the record at the end of the span is never examined. */
  function DeclarationStep(nodes: seq<LineInfo>, i: nat): (r: Step)
    requires i < |nodes|
    ensures r.Visit? ==> i < r.next <= |nodes| + 1
  {
    var e := FindForward(nodes, i, "ExportKeyword");
    var t := FindForward(nodes, i, "Identifier");
    if t < 0 then Throw
    else
      var here := if FindForward(nodes, t, "JsxElement") >= 0
                  then [Component(i, Declaration, t, e >= 0, nodes[t].text)] else [];
      Visit(here, SpanEnd(nodes, i) + 1)
  }

  /** A variable statement with an arrow function prints the identifier found
      backwards from the arrow when a `JsxElement` or a `JsxSelfClosingElement`
      follows that identifier; the loop resumes one record past the end of the
      arrow's span. */
  function ArrowStep(nodes: seq<LineInfo>, i: nat, a: nat): (r: Step)
    requires i < a < |nodes|
    ensures r.Visit? && i < r.next <= |nodes| + 1
  {
    var e := FindPath(nodes, i, ["SyntaxList", "ExportKeyword"]);
    var t := FindBackward(nodes, a, "Identifier");
    var here := if t >= 0 && (FindForward(nodes, t, "JsxElement") >= 0 || FindForward(nodes, t, "JsxSelfClosingElement") >= 0)
                then [Component(i, Arrow(a), t, e >= 0, nodes[t].text)] else [];
    Visit(here, SpanEnd(nodes, a) + 1)
  }

  function StepAt(nodes: seq<LineInfo>, i: nat): (r: Step)
    requires i < |nodes|
    ensures r.Visit? ==> i < r.next <= |nodes| + 1
  {
    if nodes[i].kind == "FunctionDeclaration" then DeclarationStep(nodes, i)
    else if nodes[i].kind == "VariableStatement" && FindForward(nodes, i, "ArrowFunction") >= 0 then
      ArrowStep(nodes, i, FindForward(nodes, i, "ArrowFunction"))
    else Visit([], i + 1)
  }

  /** The scan from loop index `i` on. */
  function ComponentsFrom(nodes: seq<LineInfo>, i: nat): ComponentScan
    requires i <= |nodes| + 1
    decreases |nodes| + 1 - i
  {
    if i >= |nodes| then ComponentScan([], None)
    else match StepAt(nodes, i)
         case Throw => ComponentScan([], Some(i))
         case Visit(here, next) => Prepend(here, ComponentsFrom(nodes, next))
  }

  function Components(nodes: seq<LineInfo>): ComponentScan {
    ComponentsFrom(nodes, 0)
  }

  /** What makes a printed line: the kind of its statement, the record its text
      comes from, the export lookup behind its prefix and the JSX lookup that let
      it through. */
  ghost predicate Reported(nodes: seq<LineInfo>, c: Component) {
    && c.decl < |nodes| && c.name < |nodes|
    && c.text == nodes[c.name].text
    && match c.form
       case Declaration =>
         && nodes[c.decl].kind == "FunctionDeclaration"
         && c.name == FindForward(nodes, c.decl, "Identifier")
         && c.decl < c.name && StartsWith(nodes[c.name].kind, "Identifier")
         && c.exported == (FindForward(nodes, c.decl, "ExportKeyword") >= 0)
         && FindForward(nodes, c.name, "JsxElement") >= 0
       case Arrow(a) =>
         && nodes[c.decl].kind == "VariableStatement"
         && a == FindForward(nodes, c.decl, "ArrowFunction")
         && c.decl < a < |nodes|
         && c.name == FindBackward(nodes, a, "Identifier")
         && (c.name < a || c.name == 0)
         && (StartsWith(nodes[c.name].kind, "Identifier") || c.name == 0)
         && c.exported == (FindPath(nodes, c.decl, ["SyntaxList", "ExportKeyword"]) >= 0)
         && (FindForward(nodes, c.name, "JsxElement") >= 0 || FindForward(nodes, c.name, "JsxSelfClosingElement") >= 0)
  }

  /** The index the loop moves to after reporting `c`, less one. */
  function Resume(nodes: seq<LineInfo>, c: Component): nat
    requires Reported(nodes, c)
  {
    match c.form
    case Declaration => SpanEnd(nodes, c.decl)
    case Arrow(a) => SpanEnd(nodes, a)
  }

  /** What one turn prints is explained by its lookups; the next turn starts one
      record past the end of the declaration's span, or of the arrow function's
      span, and otherwise at the next record; a turn throws only at a function
      declaration where the identifier lookup fails. */
  lemma {:induction false} StepSound(nodes: seq<LineInfo>, i: nat)
    requires i < |nodes|
    ensures StepAt(nodes, i).Visit? ==>
              && |StepAt(nodes, i).here| <= 1
              && forall c :: c in StepAt(nodes, i).here ==>
                   Reported(nodes, c) && c.decl == i && Resume(nodes, c) + 1 == StepAt(nodes, i).next
    ensures StepAt(nodes, i).Throw? ==>
              nodes[i].kind == "FunctionDeclaration" && FindForward(nodes, i, "Identifier") == -1
    ensures StepAt(nodes, i).Visit? ==>
              StepAt(nodes, i).next ==
                if nodes[i].kind == "FunctionDeclaration" then SpanEnd(nodes, i) + 1
                else if nodes[i].kind == "VariableStatement" && FindForward(nodes, i, "ArrowFunction") >= 0
                then SpanEnd(nodes, FindForward(nodes, i, "ArrowFunction")) + 1
                else i + 1
  {
    if nodes[i].kind == "FunctionDeclaration" {
      FindForwardSpec(nodes, i, "Identifier");
    } else if nodes[i].kind == "VariableStatement" && FindForward(nodes, i, "ArrowFunction") >= 0 {
      FindBackwardSpec(nodes, FindForward(nodes, i, "ArrowFunction"), "Identifier");
    }
  }

  /** The converse of `StepSound`: a turn whose lookups succeed prints its line.
      A declaration with an identifier prints exactly when a `JsxElement` follows
      the identifier; a variable statement with an arrow function prints exactly
      when the backward identifier lookup succeeds and a `JsxElement` or
      `JsxSelfClosingElement` follows it; any other record prints nothing. */
  lemma {:induction false} StepComplete(nodes: seq<LineInfo>, i: nat)
    requires i < |nodes|
    ensures var t := FindForward(nodes, i, "Identifier");
            nodes[i].kind == "FunctionDeclaration" && t >= 0 ==>
              StepAt(nodes, i).Visit?
              && (|StepAt(nodes, i).here| == 1 <==> FindForward(nodes, t, "JsxElement") >= 0)
    ensures var a := FindForward(nodes, i, "ArrowFunction");
            nodes[i].kind == "VariableStatement" && a >= 0 ==>
              var t := FindBackward(nodes, a, "Identifier");
              StepAt(nodes, i).Visit?
              && (|StepAt(nodes, i).here| == 1 <==>
                    t >= 0 && (FindForward(nodes, t, "JsxElement") >= 0 || FindForward(nodes, t, "JsxSelfClosingElement") >= 0))
    ensures nodes[i].kind != "FunctionDeclaration"
            && !(nodes[i].kind == "VariableStatement" && FindForward(nodes, i, "ArrowFunction") >= 0) ==>
              StepAt(nodes, i) == Visit([], i + 1)
  {
  }

  /** Every component reported from loop index `i` on comes from a record at or
      after `i` and is explained by its lookups. */
  lemma {:induction false} ComponentsFromReported(nodes: seq<LineInfo>, i: nat)
    requires i <= |nodes| + 1
    ensures forall k :: 0 <= k < |ComponentsFrom(nodes, i).found| ==>
              Reported(nodes, ComponentsFrom(nodes, i).found[k]) && i <= ComponentsFrom(nodes, i).found[k].decl
    decreases |nodes| + 1 - i
  {
    if i < |nodes| {
      StepSound(nodes, i);
      var st := StepAt(nodes, i);
      if st.Visit? {
        ComponentsFromReported(nodes, st.next);
        var rest := ComponentsFrom(nodes, st.next).found;
        var all := st.here + rest;
        assert ComponentsFrom(nodes, i).found == all;
        forall k | 0 <= k < |all|
          ensures Reported(nodes, all[k]) && i <= all[k].decl
        {
          if k < |st.here| {
            assert all[k] in st.here;
            assert Reported(nodes, all[k]);
            assert all[k].decl == i;
          } else {
            assert all[k] == rest[k - |st.here|];
            assert Reported(nodes, rest[k - |st.here|]);
            assert st.next <= rest[k - |st.here|].decl;
          }
        }
      }
    }
  }

  /** Each reported component lies beyond the span skipped after the one before it. */
  lemma {:induction false} ComponentsFromOrdered(nodes: seq<LineInfo>, i: nat)
    requires i <= |nodes| + 1
    ensures forall k :: 0 <= k < |ComponentsFrom(nodes, i).found| - 1 ==>
              Reported(nodes, ComponentsFrom(nodes, i).found[k])
              && Resume(nodes, ComponentsFrom(nodes, i).found[k]) < ComponentsFrom(nodes, i).found[k + 1].decl
    decreases |nodes| + 1 - i
  {
    if i < |nodes| {
      StepSound(nodes, i);
      var st := StepAt(nodes, i);
      if st.Visit? {
        ComponentsFromOrdered(nodes, st.next);
        ComponentsFromReported(nodes, st.next);
        var rest := ComponentsFrom(nodes, st.next).found;
        var all := st.here + rest;
        assert ComponentsFrom(nodes, i).found == all;
        forall k | 0 <= k < |all| - 1
          ensures Reported(nodes, all[k]) && Resume(nodes, all[k]) < all[k + 1].decl
        {
          if k < |st.here| {
            assert all[k] in st.here;
            assert all[k + 1] == rest[0];
          } else {
            assert all[k] == rest[k - |st.here|];
            assert all[k + 1] == rest[k + 1 - |st.here|];
          }
        }
      }
    }
  }

  /** A TypeError is thrown only at a function declaration with no identifier,
      and only after every reported component. */
  lemma {:induction false} ComponentsFromThrown(nodes: seq<LineInfo>, i: nat)
    requires i <= |nodes| + 1
    ensures ComponentsFrom(nodes, i).thrownAt.Some? ==>
              && i <= ComponentsFrom(nodes, i).thrownAt.value < |nodes|
              && nodes[ComponentsFrom(nodes, i).thrownAt.value].kind == "FunctionDeclaration"
              && FindForward(nodes, ComponentsFrom(nodes, i).thrownAt.value, "Identifier") == -1
              && forall k :: 0 <= k < |ComponentsFrom(nodes, i).found| ==>
                   ComponentsFrom(nodes, i).found[k].decl < ComponentsFrom(nodes, i).thrownAt.value
    decreases |nodes| + 1 - i
  {
    if i < |nodes| {
      StepSound(nodes, i);
      var st := StepAt(nodes, i);
      if st.Visit? {
        ComponentsFromThrown(nodes, st.next);
        ComponentsFromReported(nodes, st.next);
        var rest := ComponentsFrom(nodes, st.next);
        var all := st.here + rest.found;
        assert ComponentsFrom(nodes, i).found == all;
        if rest.thrownAt.Some? {
          forall k | 0 <= k < |all|
            ensures all[k].decl < rest.thrownAt.value
          {
            if k < |st.here| {
              assert all[k] in st.here;
            } else {
              assert all[k] == rest.found[k - |st.here|];
            }
          }
        }
      }
    }
  }

  /** Every printed line is "export " or nothing, followed by the text of the
      record named by the component, and the lines are in record order. */
  lemma {:induction false} LinesInRecordOrder(nodes: seq<LineInfo>)
    ensures var s := Components(nodes);
            |Lines(s.found)| == |s.found|
            && (forall k :: 0 <= k < |s.found| ==>
                  Reported(nodes, s.found[k])
                  && Lines(s.found)[k] == ExportMark(s.found[k].exported) + nodes[s.found[k].name].text)
            && (forall k :: 0 <= k < |s.found| - 1 ==> s.found[k].decl < s.found[k + 1].decl)
  {
    ComponentsFromReported(nodes, 0);
    ComponentsFromOrdered(nodes, 0);
  }

  /** Moving the loop past one turn that did not throw keeps the scan's total. */
  lemma {:induction false} VisitStep(nodes: seq<LineInfo>, i: nat, found: seq<Component>, here: seq<Component>, next: nat)
    requires i < |nodes|
    requires StepAt(nodes, i) == Visit(here, next)
    ensures Prepend(found, ComponentsFrom(nodes, i)) == Prepend(found + here, ComponentsFrom(nodes, next))
  {
    assert found + (here + ComponentsFrom(nodes, next).found) == (found + here) + ComponentsFrom(nodes, next).found;
  }

  lemma {:induction false} LinesAppend(cs: seq<Component>, ds: seq<Component>)
    ensures Lines(cs + ds) == Lines(cs) + Lines(ds)
  {
  }

  /** The body of the loop for a `FunctionDeclaration` record. */
  method DeclarationTurn(nodes: seq<LineInfo>, i: nat) returns (printed: seq<string>, next: nat, threw: bool, ghost here: seq<Component>)
    requires i < |nodes| && nodes[i].kind == "FunctionDeclaration"
    ensures threw <==> DeclarationStep(nodes, i).Throw?
    ensures !threw ==> DeclarationStep(nodes, i) == Visit(here, next) && printed == Lines(here)
    ensures !threw ==> printed == Lines(DeclarationStep(nodes, i).here) && next == DeclarationStep(nodes, i).next
  {
    var f := NextFind(nodes, i, "FunctionKeyword");
    var e := NextFind(nodes, i, "ExportKeyword");
    var t := NextFind(nodes, i, "Identifier");
    if t < 0 {
      // `nextFind(-1, …)` reads `level` of `nodes[-1]`, which is undefined
      return [], 0, true, [];
    }
    var jsx := NextFind(nodes, t, "JsxElement");
    printed, here := [], [];
    if jsx >= 0 {
      here := [Component(i, Declaration, t, e >= 0, nodes[t].text)];
      printed := [ExportMark(e >= 0) + nodes[t].text];
    }
    var last := NextFunction(nodes, i);
    next, threw := last + 1, false;
  }

  /** The body of the loop for a `VariableStatement` record whose arrow function is `a`. */
  method ArrowTurn(nodes: seq<LineInfo>, i: nat, a: nat) returns (printed: seq<string>, next: nat, ghost here: seq<Component>)
    requires i < a < |nodes|
    ensures ArrowStep(nodes, i, a) == Visit(here, next) && printed == Lines(here)
    ensures printed == Lines(ArrowStep(nodes, i, a).here) && next == ArrowStep(nodes, i, a).next
  {
    var e := NextFindPath(nodes, i, ["SyntaxList", "ExportKeyword"]);
    var t := PrevFind(nodes, a, "Identifier");
    printed, here := [], [];
    if t >= 0 {
      var jsx := NextFind(nodes, t, "JsxElement");
      if jsx < 0 {
        jsx := NextFind(nodes, t, "JsxSelfClosingElement");
      }
      if jsx >= 0 {
        here := [Component(i, Arrow(a), t, e >= 0, nodes[t].text)];
        printed := [ExportMark(e >= 0) + nodes[t].text];
      }
    }
    var last := NextFunction(nodes, a);
    next := last + 1;
  }

  /** `scanJsxFunctions(result)`.  The loop's `i = nextFunction(…)` followed by
      `i++` is `next`, one past the end of the span. */
  method ScanJsxFunctions(nodes: seq<LineInfo>) returns (lines: seq<string>, thrownAt: Option<nat>)
    ensures lines == Lines(Components(nodes).found)
    ensures thrownAt == Components(nodes).thrownAt
  {
    lines := [];
    ghost var found: seq<Component> := [];
    var i: nat := 0;
    while i < |nodes|
      invariant i <= |nodes| + 1
      invariant lines == Lines(found)
      invariant Prepend(found, ComponentsFrom(nodes, i)) == Components(nodes)
      decreases |nodes| + 1 - i
    {
      var node := nodes[i];
      var printed: seq<string> := [];
      var next: nat := i + 1;
      ghost var here: seq<Component> := [];
      if node.kind == "FunctionDeclaration" {
        var threw;
        printed, next, threw, here := DeclarationTurn(nodes, i);
        if threw {
          assert ComponentsFrom(nodes, i) == ComponentScan([], Some(i));
          assert found + [] == found;
          return lines, Some(i);
        }
      } else if node.kind == "VariableStatement" {
        var a := NextFind(nodes, i, "ArrowFunction");
        if a >= 0 {
          printed, next, here := ArrowTurn(nodes, i, a);
        }
      }
      assert StepAt(nodes, i) == Visit(here, next);
      VisitStep(nodes, i, found, here, next);
      LinesAppend(found, here);
      lines := lines + printed;
      found := found + here;
      i := next;
    }
    return lines, None;
  }
}
