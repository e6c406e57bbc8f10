/** `scanAllChildren`: the preorder walk that flattens a syntax tree into records.
    The compiler's node is reduced to the values the walk reads from it, and the
    compiler's offset-to-line conversion is the parameter `lineOf`. */
module Flattener {

  import opened Records
  import opened Text
  import TreeParser

  /** A leading comment range, with offsets relative to the node's full text. */
  datatype CommentRange = CommentRange(kind: string, pos: int, end: int)

  /** A syntax node as the compiler presents it to the walk. */
  datatype Node = Node(
    kind: string,
    pos: int,                     // start of the full text, leading trivia included
    end: int,
    triviaWidth: nat,             // getLeadingTriviaWidth()
    fullText: string,             // getFullText()
    text: string,                 // getText(): the full text without leading trivia
    comments: seq<CommentRange>,  // getLeadingCommentRanges(getFullText(), 0)
    children: seq<Node>)          // getChildren()

  /** Comments are emitted for a node that does not start where its parent starts
      and that has leading trivia. */
  predicate EmitsComments(node: Node, parentPos: int) {
    node.pos != parentPos && node.triviaWidth > 0
  }

  function CommentRecord(node: Node, c: CommentRange, depth: nat, lineOf: int -> int): LineInfo {
    var text := Substring(node.fullText, c.pos, c.end);
    LineInfo(
      element := true,
      level := depth,
      kind := c.kind,
      line := lineOf(node.pos + c.pos),
      endl := lineOf(node.pos + c.pos + |text|),
      pos := c.pos + node.pos,
      end := c.end + node.pos,
      text := text,
      hasNodes := false)
  }

  /** One record per comment range, in order. */
  function CommentRecords(node: Node, cs: seq<CommentRange>, depth: nat, lineOf: int -> int): seq<LineInfo>
  {
    if cs == [] then []
    else CommentRecords(node, cs[..|cs| - 1], depth, lineOf) + [CommentRecord(node, cs[|cs| - 1], depth, lineOf)]
  }

  /** One comment record per range, in order, each built from its range. */
  lemma {:induction false} CommentRecordsSpec(node: Node, cs: seq<CommentRange>, depth: nat, lineOf: int -> int)
    ensures |CommentRecords(node, cs, depth, lineOf)| == |cs|
    ensures forall k :: 0 <= k < |cs| ==> CommentRecords(node, cs, depth, lineOf)[k] == CommentRecord(node, cs[k], depth, lineOf)
  {
    if cs != [] {
      CommentRecordsSpec(node, cs[..|cs| - 1], depth, lineOf);
    }
  }

  /** The comment records pushed before the node's own record. */
  function LeadingRecords(node: Node, parentPos: int, depth: nat, lineOf: int -> int): seq<LineInfo> {
    if EmitsComments(node, parentPos) then CommentRecords(node, node.comments, depth, lineOf) else []
  }

  function NodeRecord(node: Node, depth: nat, lineOf: int -> int): LineInfo {
    var start := node.pos + node.triviaWidth;
    LineInfo(
      element := |node.children| == 0,
      level := depth,
      kind := node.kind,
      line := lineOf(start),
      endl := lineOf(start + |node.text|),
      pos := start,
      end := node.end,
      text := node.text,
      hasNodes := |node.children| > 0)
  }

  /** The records the walk appends for `node`, visited at `depth` from a parent
      that starts at `parentPos`. */
  function Flatten(node: Node, parentPos: int, depth: nat, lineOf: int -> int): seq<LineInfo>
    decreases node, 1, 0
  {
    LeadingRecords(node, parentPos, depth, lineOf)
      + [NodeRecord(node, depth, lineOf)]
      + (if node.kind == "JSDocComment" then [] else FlattenChildren(node, |node.children|, depth + 1, lineOf))
  }

  /** The records of the first `k` children of `node`, each visited at `depth`. */
  function FlattenChildren(node: Node, k: nat, depth: nat, lineOf: int -> int): seq<LineInfo>
    requires k <= |node.children|
    decreases node, 0, k
  {
    if k == 0 then []
    else FlattenChildren(node, k - 1, depth, lineOf) + Flatten(node.children[k - 1], node.pos, depth, lineOf)
  }

  /** The whole file: the root is visited at depth 0 with parent position -1. */
  function Linearized(root: Node, lineOf: int -> int): seq<LineInfo> {
    Flatten(root, -1, 0, lineOf)
  }

  // ---------------------------------------------------------------- the walk

  /** The shared `result` array the walk appends to. */
  class RecordArray {
    var items: seq<LineInfo>

    constructor ()
      ensures items == []
    {
      items := [];
    }

    method Push(r: LineInfo)
      modifies this
      ensures items == old(items) + [r]
    {
      items := items + [r];
    }
  }

  /** The `trivias.forEach` loop: one record per comment range. */
  method PushComments(result: RecordArray, node: Node, depth: nat, lineOf: int -> int)
    modifies result
    ensures result.items == old(result.items) + CommentRecords(node, node.comments, depth, lineOf)
  {
    ghost var start := result.items;
    var k := 0;
    while k < |node.comments|
      invariant k <= |node.comments|
      invariant result.items == start + CommentRecords(node, node.comments[..k], depth, lineOf)
    {
      assert node.comments[..k + 1][..k] == node.comments[..k];
      result.Push(CommentRecord(node, node.comments[k], depth, lineOf));
      k := k + 1;
    }
    assert node.comments[..k] == node.comments;
  }

  /** `scanAllChildren(result, node, pos, depth)`. */
  method ScanAllChildren(result: RecordArray, node: Node, pos: int, depth: nat, lineOf: int -> int)
    modifies result
    ensures result.items == old(result.items) + Flatten(node, pos, depth, lineOf)
    decreases node, 1
  {
    ghost var start := result.items;
    var rec := NodeRecord(node, depth, lineOf);
    if node.pos != pos && node.triviaWidth > 0 {
      PushComments(result, node, depth, lineOf);
    }
    ghost var lead := result.items;
    assert lead == start + LeadingRecords(node, pos, depth, lineOf);
    result.Push(rec);
    if node.kind == "JSDocComment" {
      AppendNode(start, lead, node, pos, depth, lineOf);
      return;
    }
    var childDepth := depth + 1;
    ScanChildren(result, node, childDepth, lineOf);
    AppendNode(start, lead, node, pos, depth, lineOf);
  }

  /** How the walk's pushes for one node add up to its flattening. */
  lemma {:induction false} AppendNode(start: seq<LineInfo>, lead: seq<LineInfo>, node: Node, pos: int, depth: nat, lineOf: int -> int)
    requires lead == start + LeadingRecords(node, pos, depth, lineOf)
    ensures start + Flatten(node, pos, depth, lineOf)
         == lead + [NodeRecord(node, depth, lineOf)]
            + (if node.kind == "JSDocComment" then [] else FlattenChildren(node, |node.children|, depth + 1, lineOf))
  {
    var lr := LeadingRecords(node, pos, depth, lineOf);
    var rec := NodeRecord(node, depth, lineOf);
    var tail := if node.kind == "JSDocComment" then [] else FlattenChildren(node, |node.children|, depth + 1, lineOf);
    assert start + (lr + [rec] + tail) == (start + lr) + [rec] + tail;
  }

  lemma {:induction false} AppendChild(before: seq<LineInfo>, node: Node, k: nat, depth: nat, lineOf: int -> int)
    requires k < |node.children|
    ensures before + FlattenChildren(node, k, depth, lineOf) + Flatten(node.children[k], node.pos, depth, lineOf)
         == before + FlattenChildren(node, k + 1, depth, lineOf)
  {
  }

  /** The `childrend.forEach` loop: each child is walked at `depth`, with the
      node's own position as the parent position. */
  method ScanChildren(result: RecordArray, node: Node, depth: nat, lineOf: int -> int)
    modifies result
    ensures result.items == old(result.items) + FlattenChildren(node, |node.children|, depth, lineOf)
    decreases node, 0
  {
    ghost var before := result.items;
    var k := 0;
    while k < |node.children|
      invariant k <= |node.children|
      invariant result.items == before + FlattenChildren(node, k, depth, lineOf)
    {
      ScanAllChildren(result, node.children[k], node.pos, depth, lineOf);
      AppendChild(before, node, k, depth, lineOf);
      k := k + 1;
    }
  }

  /** `scanAllChildren(result, sourceFile, -1)` on a fresh array. */
  method Linearize(root: Node, lineOf: int -> int) returns (records: seq<LineInfo>)
    ensures records == Linearized(root, lineOf)
  {
    var result := new RecordArray();
    ScanAllChildren(result, root, -1, 0, lineOf);
    records := result.items;
  }

  // ---------------------------------------------------------------- shape lemmas

  /** The record of the node itself sits right after its comment records; the
      comments and the node are at `depth`, everything after them is deeper. */
  lemma {:induction false} FlattenLevels(node: Node, parentPos: int, depth: nat, lineOf: int -> int)
    ensures var f := Flatten(node, parentPos, depth, lineOf);
            var c := |LeadingRecords(node, parentPos, depth, lineOf)|;
            c < |f| && f[c] == NodeRecord(node, depth, lineOf)
            && (forall k :: 0 <= k <= c ==> f[k].level == depth)
            && (forall k :: c < k < |f| ==> f[k].level > depth)
    decreases node, 1, 0
  {
    LeadingRecordsShape(node, parentPos, depth, lineOf);
    if node.kind != "JSDocComment" {
      FlattenChildrenLevels(node, |node.children|, depth + 1, lineOf);
    }
  }

  /** Sibling subtrees: every record is at `depth` or deeper, the first at `depth`. */
  lemma {:induction false} FlattenChildrenLevels(node: Node, k: nat, depth: nat, lineOf: int -> int)
    requires k <= |node.children|
    ensures var f := FlattenChildren(node, k, depth, lineOf);
            (|f| == 0 <==> k == 0)
            && (forall m :: 0 <= m < |f| ==> f[m].level >= depth)
            && (|f| > 0 ==> f[0].level == depth)
    decreases node, 0, k
  {
    if k > 0 {
      FlattenChildrenLevels(node, k - 1, depth, lineOf);
      FlattenLevels(node.children[k - 1], node.pos, depth, lineOf);
    }
  }

  /** Every record has `hasNodes == !element`. */
  lemma {:induction false} FlattenFlags(node: Node, parentPos: int, depth: nat, lineOf: int -> int)
    ensures forall r :: r in Flatten(node, parentPos, depth, lineOf) ==> r.hasNodes == !r.element
    decreases node, 1, 0
  {
    LeadingRecordsShape(node, parentPos, depth, lineOf);
    if node.kind != "JSDocComment" {
      FlattenChildrenFlags(node, |node.children|, depth + 1, lineOf);
    }
  }

  lemma {:induction false} FlattenChildrenFlags(node: Node, k: nat, depth: nat, lineOf: int -> int)
    requires k <= |node.children|
    ensures forall r :: r in FlattenChildren(node, k, depth, lineOf) ==> r.hasNodes == !r.element
    decreases node, 0, k
  {
    if k > 0 {
      FlattenChildrenFlags(node, k - 1, depth, lineOf);
      FlattenFlags(node.children[k - 1], node.pos, depth, lineOf);
    }
  }

  /** Comment records are leaves without children, at the level of the node they
      precede; they are emitted only when the node starts after its parent and
      has leading trivia. */
  lemma {:induction false} LeadingRecordsShape(node: Node, parentPos: int, depth: nat, lineOf: int -> int)
    ensures var cs := LeadingRecords(node, parentPos, depth, lineOf);
            (EmitsComments(node, parentPos) ==> |cs| == |node.comments|)
            && (!EmitsComments(node, parentPos) ==> cs == [])
            && forall k :: 0 <= k < |cs| ==> cs[k].element && !cs[k].hasNodes && cs[k].level == depth
  {
    CommentRecordsSpec(node, node.comments, depth, lineOf);
  }

  /** Going one record forward, the level rises by at most one, and only after a
      record whose node has children. */
  ghost predicate WellNested(rs: seq<LineInfo>) {
    forall k :: 0 <= k < |rs| - 1 ==>
      rs[k + 1].level <= rs[k].level + 1 && (rs[k + 1].level > rs[k].level ==> rs[k].hasNodes)
  }

  lemma {:induction false} WellNestedConcat(a: seq<LineInfo>, b: seq<LineInfo>)
    requires WellNested(a) && WellNested(b)
    requires a != [] && b != [] ==>
      b[0].level <= a[|a| - 1].level || (b[0].level == a[|a| - 1].level + 1 && a[|a| - 1].hasNodes)
    ensures WellNested(a + b)
  {
    var s := a + b;
    forall k | 0 <= k < |s| - 1
      ensures s[k + 1].level <= s[k].level + 1 && (s[k + 1].level > s[k].level ==> s[k].hasNodes)
    {
      if k + 1 < |a| {
        assert s[k] == a[k] && s[k + 1] == a[k + 1];
      } else if k >= |a| {
        assert s[k] == b[k - |a|] && s[k + 1] == b[k + 1 - |a|];
      } else {
        assert s[k] == a[|a| - 1] && s[k + 1] == b[0];
      }
    }
  }

  /** The comment records and the node's own record are well nested. */
  lemma {:induction false} HeadWellNested(node: Node, parentPos: int, depth: nat, lineOf: int -> int)
    ensures WellNested(LeadingRecords(node, parentPos, depth, lineOf) + [NodeRecord(node, depth, lineOf)])
  {
    var lead := LeadingRecords(node, parentPos, depth, lineOf);
    LeadingRecordsShape(node, parentPos, depth, lineOf);
    assert WellNested(lead) by {
      forall k | 0 <= k < |lead| - 1
        ensures lead[k + 1].level == lead[k].level
      {
      }
    }
    WellNestedConcat(lead, [NodeRecord(node, depth, lineOf)]);
  }

  /** The flattened records are well nested (the level-monotonicity property). */
  lemma {:induction false} FlattenWellNested(node: Node, parentPos: int, depth: nat, lineOf: int -> int)
    ensures WellNested(Flatten(node, parentPos, depth, lineOf))
    decreases node, 1, 0
  {
    var rec := NodeRecord(node, depth, lineOf);
    var head := LeadingRecords(node, parentPos, depth, lineOf) + [rec];
    HeadWellNested(node, parentPos, depth, lineOf);
    if node.kind != "JSDocComment" {
      var kids := FlattenChildren(node, |node.children|, depth + 1, lineOf);
      FlattenChildrenWellNested(node, |node.children|, depth + 1, lineOf);
      FlattenChildrenLevels(node, |node.children|, depth + 1, lineOf);
      assert head[|head| - 1] == rec;
      WellNestedConcat(head, kids);
      assert Flatten(node, parentPos, depth, lineOf) == head + kids;
    } else {
      assert Flatten(node, parentPos, depth, lineOf) == head;
    }
  }

  lemma {:induction false} FlattenChildrenWellNested(node: Node, k: nat, depth: nat, lineOf: int -> int)
    requires k <= |node.children|
    ensures WellNested(FlattenChildren(node, k, depth, lineOf))
    decreases node, 0, k
  {
    if k > 0 {
      var prev := FlattenChildren(node, k - 1, depth, lineOf);
      var last := Flatten(node.children[k - 1], node.pos, depth, lineOf);
      FlattenChildrenWellNested(node, k - 1, depth, lineOf);
      FlattenWellNested(node.children[k - 1], node.pos, depth, lineOf);
      FlattenChildrenLevels(node, k - 1, depth, lineOf);
      FlattenStart(node.children[k - 1], node.pos, depth, lineOf);
      SiblingsWellNested(prev, last, depth);
    }
  }

  /** A subtree's records start at the depth it is visited at. */
  lemma {:induction false} FlattenStart(node: Node, parentPos: int, depth: nat, lineOf: int -> int)
    ensures Flatten(node, parentPos, depth, lineOf) != []
    ensures Flatten(node, parentPos, depth, lineOf)[0].level == depth
  {
    FlattenLevels(node, parentPos, depth, lineOf);
  }

  /** A well-nested run starting at `depth` may follow records that are all at
      `depth` or deeper. */
  lemma {:induction false} SiblingsWellNested(prev: seq<LineInfo>, last: seq<LineInfo>, depth: nat)
    requires WellNested(prev) && WellNested(last)
    requires forall m :: 0 <= m < |prev| ==> prev[m].level >= depth
    requires last != [] && last[0].level == depth
    ensures WellNested(prev + last)
  {
    WellNestedConcat(prev, last);
  }

  /** Nothing is emitted below a `JSDocComment`; any other node with children is
      followed at once by the records of its first child, one level deeper. */
  lemma {:induction false} ChildrenFollowNode(node: Node, parentPos: int, depth: nat, lineOf: int -> int)
    ensures var f := Flatten(node, parentPos, depth, lineOf);
            var c := |LeadingRecords(node, parentPos, depth, lineOf)|;
            && (node.kind == "JSDocComment" ==> |f| == c + 1)
            && (node.kind != "JSDocComment" && |node.children| > 0 ==> c + 1 < |f| && f[c + 1].level == depth + 1)
            && (|node.children| == 0 ==> |f| == c + 1)
  {
    if node.kind != "JSDocComment" {
      FlattenChildrenLevels(node, |node.children|, depth + 1, lineOf);
    }
  }

  /** Wherever a node's records sit in the array, `nextFunction` from the node's
      record returns the index just past its last descendant, provided what
      follows is no deeper than the node. */
  lemma {:induction false} SpanEndOfFlattened(pre: seq<LineInfo>, node: Node, parentPos: int, depth: nat, lineOf: int -> int, post: seq<LineInfo>)
    requires post != [] ==> post[0].level <= depth
    ensures var f := Flatten(node, parentPos, depth, lineOf);
            var i := |pre| + |LeadingRecords(node, parentPos, depth, lineOf)|;
            i < |pre + f + post| && TreeParser.SpanEnd(pre + f + post, i) == |pre| + |f|
  {
    var f := Flatten(node, parentPos, depth, lineOf);
    var c := |LeadingRecords(node, parentPos, depth, lineOf)|;
    var s := pre + f + post;
    var i := |pre| + c;
    FlattenLevels(node, parentPos, depth, lineOf);
    assert s[i] == f[c];
    forall m | i < m < |pre| + |f|
      ensures s[m].level > s[i].level
    {
      assert s[m] == f[m - |pre|];
    }
    if post != [] {
      assert s[|pre| + |f|] == post[0];
    }
    TreeParser.SpanEndUnique(s, i, |pre| + |f|);
  }
}
