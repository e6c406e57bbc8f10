/** `TreeParser`: the three read-only scans over the record array.  The class in
    the program only keeps a reference to the array, which it never changes, so
    here every scan takes the array as its first argument.  Each scan is a loop
    proved equal to a recursive specification function, and each specification
    function carries the characterisation of what it finds. */
module TreeParser {

  import opened Records

  /** Every record in `(i, j]` is at least as deep as record `i`: a forward scan
      from `i` has not yet left the scope of `i` when it examines `j`. */
  ghost predicate InScopeAfter(nodes: seq<LineInfo>, i: nat, j: nat)
    requires i < |nodes| && j < |nodes|
  {
    forall m :: i < m <= j ==> nodes[m].level >= nodes[i].level
  }

  /** Every record in `[j, i)` is at least as deep as record `i`: a backward scan
      from `i` has not yet left the scope of `i` when it examines `j`. */
  ghost predicate InScopeBefore(nodes: seq<LineInfo>, i: nat, j: nat)
    requires i < |nodes| && j <= i
  {
    forall m :: j <= m < i ==> nodes[m].level >= nodes[i].level
  }

  // ---------------------------------------------------------------- nextFunction

  function SpanEndFrom(nodes: seq<LineInfo>, i: nat, j: nat): (r: nat)
    requires i < |nodes| && j <= |nodes|
    ensures j <= r <= |nodes|
    decreases |nodes| - j
  {
    if j == |nodes| then |nodes|
    else if nodes[j].level <= nodes[i].level then j
    else SpanEndFrom(nodes, i, j + 1)
  }

  /** The exclusive end of the span of record `i` (see `SpanEndSpec`). */
  function SpanEnd(nodes: seq<LineInfo>, i: nat): (r: nat)
    requires i < |nodes|
    ensures i < r <= |nodes|
  {
    SpanEndFrom(nodes, i, i + 1)
  }

  lemma {:induction false} SpanEndFromSpec(nodes: seq<LineInfo>, i: nat, j: nat)
    requires i < j <= |nodes|
    requires forall m :: i < m < j ==> nodes[m].level > nodes[i].level
    ensures var r := SpanEndFrom(nodes, i, j);
            (forall m :: i < m < r ==> nodes[m].level > nodes[i].level)
            && (r < |nodes| ==> nodes[r].level <= nodes[i].level)
    decreases |nodes| - j
  {
    if j < |nodes| && nodes[j].level > nodes[i].level {
      SpanEndFromSpec(nodes, i, j + 1);
    }
  }

  /** `SpanEnd(nodes, i)` is the first record after `i` that is no deeper than
      `i`, or the length of the array: everything strictly between is deeper. */
  lemma {:induction false} SpanEndSpec(nodes: seq<LineInfo>, i: nat)
    requires i < |nodes|
    ensures var r := SpanEnd(nodes, i);
            (forall m :: i < m < r ==> nodes[m].level > nodes[i].level)
            && (r < |nodes| ==> nodes[r].level <= nodes[i].level)
  {
    SpanEndFromSpec(nodes, i, i + 1);
  }

  /** The facts of `SpanEndSpec` determine the bound. */
  lemma {:induction false} SpanEndUnique(nodes: seq<LineInfo>, i: nat, r: nat)
    requires i < r <= |nodes|
    requires forall m :: i < m < r ==> nodes[m].level > nodes[i].level
    requires r < |nodes| ==> nodes[r].level <= nodes[i].level
    ensures r == SpanEnd(nodes, i)
  {
    SpanEndSpec(nodes, i);
  }

  /** `nextFunction(i)`. */
  method NextFunction(nodes: seq<LineInfo>, i: nat) returns (r: nat)
    requires i < |nodes|
    ensures r == SpanEnd(nodes, i)
  {
    var node := nodes[i];
    for j := i + 1 to |nodes|
      invariant SpanEndFrom(nodes, i, j) == SpanEnd(nodes, i)
    {
      var tnode := nodes[j];
      if tnode.level <= node.level {
        return j;
      }
    }
    return |nodes|;
  }

  // ---------------------------------------------------------------- nextFind

  function FindForwardFrom(nodes: seq<LineInfo>, i: nat, j: nat, kind: string): (r: int)
    requires i < |nodes| && j <= |nodes|
    ensures r == -1 || j <= r < |nodes|
    decreases |nodes| - j
  {
    if j == |nodes| then -1
    else if nodes[j].level < nodes[i].level then -1
    else if StartsWith(nodes[j].kind, kind) then j
    else FindForwardFrom(nodes, i, j + 1, kind)
  }

  /** `nextFind(i, kind)` with a single kind (see `FindForwardSpec`). */
  function FindForward(nodes: seq<LineInfo>, i: nat, kind: string): (r: int)
    requires i < |nodes|
    ensures r == -1 || i < r < |nodes|
  {
    FindForwardFrom(nodes, i, i + 1, kind)
  }

  lemma {:induction false} FindForwardFromSpec(nodes: seq<LineInfo>, i: nat, j: nat, kind: string)
    requires i < j <= |nodes|
    requires forall m :: i < m < j ==> nodes[m].level >= nodes[i].level && !StartsWith(nodes[m].kind, kind)
    ensures var r := FindForwardFrom(nodes, i, j, kind);
            (r >= 0 ==> StartsWith(nodes[r].kind, kind) && InScopeAfter(nodes, i, r))
            && (r >= 0 ==> forall m :: i < m < r ==> !StartsWith(nodes[m].kind, kind))
            && (r == -1 ==> forall m :: i < m < |nodes| && InScopeAfter(nodes, i, m) ==> !StartsWith(nodes[m].kind, kind))
    decreases |nodes| - j
  {
    if j < |nodes| {
      if nodes[j].level < nodes[i].level {
        assert forall m :: j <= m < |nodes| ==> !InScopeAfter(nodes, i, m);
      } else if !StartsWith(nodes[j].kind, kind) {
        FindForwardFromSpec(nodes, i, j + 1, kind);
      }
    }
  }

  /** `FindForward(nodes, i, kind)` is the first record after `i` whose kind begins
      with `kind`, provided no shallower record comes first, and -1 when a
      shallower record or the end of the array comes first.  Later records at the
      level of `i` (its later siblings) do not stop the search. */
  lemma {:induction false} FindForwardSpec(nodes: seq<LineInfo>, i: nat, kind: string)
    requires i < |nodes|
    ensures var r := FindForward(nodes, i, kind);
            (r >= 0 ==> StartsWith(nodes[r].kind, kind) && InScopeAfter(nodes, i, r))
            && (r >= 0 ==> forall m :: i < m < r ==> !StartsWith(nodes[m].kind, kind))
            && (r == -1 ==> forall m :: i < m < |nodes| && InScopeAfter(nodes, i, m) ==> !StartsWith(nodes[m].kind, kind))
  {
    FindForwardFromSpec(nodes, i, i + 1, kind);
  }

  /** `findCore`, the loop behind `nextFind`. */
  method NextFind(nodes: seq<LineInfo>, i: nat, kind: string) returns (r: int)
    requires i < |nodes|
    ensures r == FindForward(nodes, i, kind)
  {
    var node := nodes[i];
    for j := i + 1 to |nodes|
      invariant FindForwardFrom(nodes, i, j, kind) == FindForward(nodes, i, kind)
    {
      var tnode := nodes[j];
      if tnode.level < node.level {
        return -1;
      }
      if StartsWith(nodes[j].kind, kind) {
        return j;
      }
    }
    return -1;
  }

  /** `nextFind(i, kinds)` with a list of kinds: each search starts from the record
      the previous one found; the first failure gives -1. */
  function FindPath(nodes: seq<LineInfo>, i: nat, kinds: seq<string>): (r: int)
    requires i < |nodes|
    ensures -1 <= r < |nodes|
    ensures kinds == [] ==> r == i
    ensures kinds != [] && r >= 0 ==> i < r
    decreases |kinds|
  {
    if kinds == [] then i
    else
      var n := FindForward(nodes, i, kinds[0]);
      if n < 0 then -1 else FindPath(nodes, n, kinds[1..])
  }

  /** A successful list search ends at a record of the last kind of the list. */
  lemma {:induction false} FindPathEndsAtLastKind(nodes: seq<LineInfo>, i: nat, kinds: seq<string>)
    requires i < |nodes| && kinds != []
    requires FindPath(nodes, i, kinds) >= 0
    ensures StartsWith(nodes[FindPath(nodes, i, kinds)].kind, kinds[|kinds| - 1])
    decreases |kinds|
  {
    var n := FindForward(nodes, i, kinds[0]);
    if |kinds| == 1 {
      FindForwardSpec(nodes, i, kinds[0]);
    } else {
      FindPathEndsAtLastKind(nodes, n, kinds[1..]);
    }
  }

  /** A one-element list searches exactly as the single kind does. */
  lemma {:induction false} FindPathSingle(nodes: seq<LineInfo>, i: nat, kind: string)
    requires i < |nodes|
    ensures FindPath(nodes, i, [kind]) == FindForward(nodes, i, kind)
  {
  }

  /** Searching a concatenated list is searching the first part, then the second
      from where the first stopped. */
  lemma {:induction false} FindPathAppend(nodes: seq<LineInfo>, i: nat, first: seq<string>, second: seq<string>)
    requires i < |nodes|
    ensures FindPath(nodes, i, first + second) ==
            var m := FindPath(nodes, i, first); if m < 0 then -1 else FindPath(nodes, m, second)
    decreases |first|
  {
    if first == [] {
      assert first + second == second;
    } else {
      assert (first + second)[1..] == first[1..] + second;
      var n := FindForward(nodes, i, first[0]);
      if n >= 0 {
        FindPathAppend(nodes, n, first[1..], second);
      }
    }
  }

  /** The list form of `nextFind`. */
  method NextFindPath(nodes: seq<LineInfo>, i: nat, kinds: seq<string>) returns (r: int)
    requires i < |nodes|
    ensures r == FindPath(nodes, i, kinds)
  {
    var cur: nat := i;
    for j := 0 to |kinds|
      invariant cur < |nodes|
      invariant FindPath(nodes, cur, kinds[j..]) == FindPath(nodes, i, kinds)
    {
      assert kinds[j..][1..] == kinds[j + 1..];
      var next := NextFind(nodes, cur, kinds[j]);
      if next < 0 {
        return -1;
      }
      cur := next;
    }
    assert kinds[|kinds|..] == [];
    return cur;
  }

  // ---------------------------------------------------------------- prevFind

  function FindBackwardFrom(nodes: seq<LineInfo>, i: nat, j: int, kind: string): (r: int)
    requires i < |nodes| && -1 <= j < i
    ensures -1 <= r <= j || r == 0
    decreases j + 1
  {
    if j < 0 then 0
    else if nodes[j].level < nodes[i].level then -1
    else if StartsWith(nodes[j].kind, kind) then j
    else FindBackwardFrom(nodes, i, j - 1, kind)
  }

  /** `prevFind(i, kind)` (see `FindBackwardSpec`). */
  function FindBackward(nodes: seq<LineInfo>, i: nat, kind: string): (r: int)
    requires i < |nodes|
    ensures -1 <= r && (r < i || r == 0)
  {
    FindBackwardFrom(nodes, i, i - 1, kind)
  }

  lemma {:induction false} FindBackwardFromSpec(nodes: seq<LineInfo>, i: nat, j: int, kind: string)
    requires i < |nodes| && -1 <= j < i
    requires forall m :: j < m < i ==> nodes[m].level >= nodes[i].level && !StartsWith(nodes[m].kind, kind)
    ensures var r := FindBackwardFrom(nodes, i, j, kind);
            (r == -1 ==> !InScopeBefore(nodes, i, 0)
                         && forall m :: 0 <= m < i && InScopeBefore(nodes, i, m) ==> !StartsWith(nodes[m].kind, kind))
            && (r >= 0 ==> InScopeBefore(nodes, i, r) && forall m :: r < m < i ==> !StartsWith(nodes[m].kind, kind))
            && (r >= 0 ==> (r < i && StartsWith(nodes[r].kind, kind))
                           || (r == 0 && forall m :: 0 <= m < i ==> !StartsWith(nodes[m].kind, kind)))
    decreases j + 1
  {
    if j >= 0 {
      if nodes[j].level < nodes[i].level {
        assert forall m :: 0 <= m <= j ==> !InScopeBefore(nodes, i, m);
      } else if !StartsWith(nodes[j].kind, kind) {
        FindBackwardFromSpec(nodes, i, j - 1, kind);
      }
    }
  }

  /** `FindBackward(nodes, i, kind)` is the nearest record before `i` whose kind
      begins with `kind`, provided no shallower record comes first.  It is -1 when
      a shallower record comes first, even one whose own kind matches, since the
      level test comes first.  When the scan runs off the start of the array the
      result is 0, as for a match at record 0. */
  lemma {:induction false} FindBackwardSpec(nodes: seq<LineInfo>, i: nat, kind: string)
    requires i < |nodes|
    ensures var r := FindBackward(nodes, i, kind);
            (r == -1 ==> !InScopeBefore(nodes, i, 0)
                         && forall m :: 0 <= m < i && InScopeBefore(nodes, i, m) ==> !StartsWith(nodes[m].kind, kind))
            && (r >= 0 ==> InScopeBefore(nodes, i, r) && forall m :: r < m < i ==> !StartsWith(nodes[m].kind, kind))
            && (r >= 0 ==> (r < i && StartsWith(nodes[r].kind, kind))
                           || (r == 0 && forall m :: 0 <= m < i ==> !StartsWith(nodes[m].kind, kind)))
  {
    FindBackwardFromSpec(nodes, i, i - 1, kind);
  }

  /** A backward search from record 0 reports 0, as if record 0 had matched. */
  lemma {:induction false} FindBackwardAtStart(nodes: seq<LineInfo>, kind: string)
    requires |nodes| > 0
    ensures FindBackward(nodes, 0, kind) == 0
  {
  }

  /** When nothing before `i` is shallower and nothing matches, the result is 0,
      indistinguishable from a match at record 0. */
  lemma {:induction false} FindBackwardOffStart(nodes: seq<LineInfo>, i: nat, kind: string)
    requires i < |nodes|
    requires InScopeBefore(nodes, i, 0)
    requires forall m :: 0 <= m < i ==> !StartsWith(nodes[m].kind, kind)
    ensures FindBackward(nodes, i, kind) == 0
  {
    FindBackwardSpec(nodes, i, kind);
  }

  /** `prevFind`. */
  method PrevFind(nodes: seq<LineInfo>, i: nat, kind: string) returns (r: int)
    requires i < |nodes|
    ensures r == FindBackward(nodes, i, kind)
  {
    var node := nodes[i];
    var j: int := i - 1;
    while j >= 0
      invariant -1 <= j < i
      invariant FindBackwardFrom(nodes, i, j, kind) == FindBackward(nodes, i, kind)
    {
      var tnode := nodes[j];
      if tnode.level < node.level {
        return -1;
      }
      if StartsWith(tnode.kind, kind) {
        return j;
      }
      j := j - 1;
    }
    return 0;
  }
}
