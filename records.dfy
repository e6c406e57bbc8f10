/** The flat record produced for every syntax node and every leading comment,
    and the small vocabulary shared by the scans over the record array. */
module Records {

  datatype Option<T> = None | Some(value: T)

  /** One entry of the flattened tree (`LineInfo`).  The compiler node the source
      keeps in a commented-out field is not part of the record. */
  datatype LineInfo = LineInfo(
    element: bool,   // the originating node has no children; comments are always elements
    level: nat,      // recursion depth of the walk that produced the record
    kind: string,    // syntax-kind name, or comment-kind name for a comment
    line: int,       // line of the first character of `text`
    endl: int,       // line of the offset just past the end of `text`
    pos: int,        // offset of `text`, leading trivia excluded
    end: int,        // end offset of the node (or of the comment)
    text: string,
    hasNodes: bool)  // the originating node has children

  /** The prefix both scans write in front of a name: "export " when the export
      lookup found a record, nothing otherwise. */
  function ExportMark(exported: bool): string {
    if exported then "export " else ""
  }

  /** `sub` occurs in `s` at offset `k`. */
  predicate OccursAt(s: string, sub: string, k: nat) {
    k + |sub| <= |s| && s[k..k + |sub|] == sub
  }

  /** The first offset at or after `j` where `sub` occurs in `s`, or -1. */
  function OccurrenceFrom(s: string, sub: string, j: nat): (r: int)
    requires j <= |s|
    ensures r == -1 || (j <= r && OccursAt(s, sub, r))
    ensures r >= 0 ==> forall k :: j <= k < r ==> !OccursAt(s, sub, k)
    ensures r == -1 ==> forall k :: j <= k <= |s| ==> !OccursAt(s, sub, k)
    decreases |s| - j
  {
    if OccursAt(s, sub, j) then j
    else if j == |s| then -1
    else OccurrenceFrom(s, sub, j + 1)
  }

  /** `String.prototype.indexOf`: the first offset where `sub` occurs in `s`,
      or -1 when it does not occur (the empty string occurs at 0). */
  function FirstOccurrence(s: string, sub: string): (r: int)
    ensures r == -1 || 0 <= r <= |s| - |sub|
    ensures r >= 0 ==> OccursAt(s, sub, r) && forall k :: 0 <= k < r ==> !OccursAt(s, sub, k)
    ensures r == -1 ==> forall k :: 0 <= k <= |s| ==> !OccursAt(s, sub, k)
  {
    OccurrenceFrom(s, sub, 0)
  }

  /** `s.indexOf(prefix) === 0`, the test every lookup applies to a kind name. */
  predicate StartsWith(s: string, prefix: string) {
    |prefix| <= |s| && s[..|prefix|] == prefix
  }

  /** `indexOf(prefix) === 0` holds exactly when `s` begins with `prefix`. */
  lemma StartsWithIsFirstOccurrence(s: string, prefix: string)
    ensures StartsWith(s, prefix) <==> FirstOccurrence(s, prefix) == 0
  {
    if |prefix| <= |s| {
      assert s[0..|prefix|] == s[..|prefix|];
      assert StartsWith(s, prefix) <==> OccursAt(s, prefix, 0);
    }
  }
}
