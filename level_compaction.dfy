/** The final pass of `scanJsxElements`: the raw walk depth of every outline entry
    is replaced by its depth among the entries themselves.  A stack of raw depths
    is kept; on each entry it is started with the entry's depth when empty, then
    grown by the depth when its top is lower, or popped while its top is higher.
    The new depth is the position of the raw depth in the stack (JavaScript
    `indexOf`), which is -1 once every level has been popped. */
module LevelCompaction {

  import opened Records

  /** One entry of the element outline (`ScanNode`).  `exportMark` is the
      optional `export` field: "export " or "" where present. */
  datatype ScanNode = ScanNode(level: int, exportMark: Option<string>, kind: string, name: Option<string>)

  function Top(s: seq<int>): int
    requires s != []
  {
    s[|s| - 1]
  }

  ghost predicate Increasing(s: seq<int>) {
    forall i, j :: 0 <= i < j < |s| ==> s[i] < s[j]
  }

  /** The inner `while (true)` loop.  On an empty stack `level[level.length - 1]`
      is undefined, both comparisons are false and the loop stops. */
  function Settle(stack: seq<int>, raw: int): seq<int>
    decreases |stack|
  {
    if stack == [] then []
    else if Top(stack) < raw then stack + [raw]
    else if Top(stack) > raw then Settle(stack[..|stack| - 1], raw)
    else stack
  }

  /** One entry's update of the stack: an empty stack is first started with the
      entry's own depth. */
  function Enter(stack: seq<int>, raw: int): seq<int> {
    Settle(if stack == [] then [raw] else stack, raw)
  }

  /** Settling any stack pops the depths above `raw` off its top: it empties
      exactly when every depth in it is above `raw`, and otherwise ends with
      `raw` on top of a prefix of the old stack, adding at most one depth. */
  lemma {:induction false} SettleSpec(stack: seq<int>, raw: int)
    ensures Settle(stack, raw) == [] <==> forall k :: 0 <= k < |stack| ==> stack[k] > raw
    ensures Settle(stack, raw) != [] ==>
              Top(Settle(stack, raw)) == raw && Settle(stack, raw)[..|Settle(stack, raw)| - 1] <= stack
    ensures |Settle(stack, raw)| <= |stack| + 1
    decreases |stack|
  {
    if stack != [] && Top(stack) > raw {
      var p := stack[..|stack| - 1];
      SettleSpec(p, raw);
      assert forall k :: 0 <= k < |p| ==> p[k] == stack[k];
    }
  }

  /** An entry on an empty stack leaves just its own depth; otherwise the stack
      settles as `SettleSpec` describes. */
  lemma {:induction false} EnterSpec(stack: seq<int>, raw: int)
    ensures stack == [] ==> Enter(stack, raw) == [raw]
    ensures Enter(stack, raw) == [] <==> stack != [] && forall k :: 0 <= k < |stack| ==> stack[k] > raw
    ensures Enter(stack, raw) != [] ==>
              Top(Enter(stack, raw)) == raw && Enter(stack, raw)[..|Enter(stack, raw)| - 1] <= stack
  {
    if stack == [] {
      assert Enter(stack, raw) == [raw];
    } else {
      SettleSpec(stack, raw);
    }
  }

  /** `Array.prototype.indexOf`: the first position holding `x`, or -1. */
  function IndexOf(s: seq<int>, x: int): (r: int)
    ensures -1 <= r < |s|
    ensures r >= 0 ==> s[r] == x && forall k :: 0 <= k < r ==> s[k] != x
    ensures r == -1 ==> forall k :: 0 <= k < |s| ==> s[k] != x
    decreases |s|
  {
    if s == [] then -1
    else if s[0] == x then 0
    else var r := IndexOf(s[1..], x); if r < 0 then -1 else r + 1
  }

  /** The stack after a prefix of the entries and the new depths given so far. */
  datatype Compaction = Compaction(stack: seq<int>, levels: seq<int>)

  function Compact(raws: seq<int>): (r: Compaction)
    ensures |r.levels| == |raws|
    decreases |raws|
  {
    if raws == [] then Compaction([], [])
    else
      var c := Compact(raws[..|raws| - 1]);
      var s := Enter(c.stack, raws[|raws| - 1]);
      Compaction(s, c.levels + [IndexOf(s, raws[|raws| - 1])])
  }

  function Compacted(raws: seq<int>): seq<int> {
    Compact(raws).levels
  }

  function Levels(ns: seq<ScanNode>): (r: seq<int>)
    ensures |r| == |ns|
    ensures forall k :: 0 <= k < |ns| ==> r[k] == ns[k].level
  {
    seq(|ns|, k requires 0 <= k < |ns| => ns[k].level)
  }

  /** The entries with the depths of `levels` written into them. */
  function WithLevels(ns: seq<ScanNode>, levels: seq<int>): (r: seq<ScanNode>)
    requires |levels| == |ns|
    ensures |r| == |ns|
    ensures forall k :: 0 <= k < |ns| ==> r[k] == ns[k].(level := levels[k])
  {
    seq(|ns|, k requires 0 <= k < |ns| => ns[k].(level := levels[k]))
  }

  function Relevel(ns: seq<ScanNode>): seq<ScanNode> {
    WithLevels(ns, Compacted(Levels(ns)))
  }

  /** What settling does to a strictly increasing stack: it stays strictly
      increasing, ends with `raw` unless emptied, empties exactly when it was empty
      or `raw` lies below its bottom, keeps its bottom otherwise, and grows by one only when its
      top was below `raw`. */
  lemma {:induction false} SettleShape(stack: seq<int>, raw: int)
    requires Increasing(stack)
    ensures Increasing(Settle(stack, raw))
    ensures Settle(stack, raw) != [] ==> Top(Settle(stack, raw)) == raw
    ensures Settle(stack, raw) == [] <==> stack == [] || raw < stack[0]
    ensures Settle(stack, raw) != [] && stack != [] ==> Settle(stack, raw)[0] == stack[0]
    ensures stack != [] && Top(stack) < raw ==> |Settle(stack, raw)| == |stack| + 1
    ensures stack != [] && Top(stack) >= raw ==> |Settle(stack, raw)| <= |stack|
    ensures stack != [] && Top(stack) == raw ==> Settle(stack, raw) == stack
    decreases |stack|
  {
    if stack != [] && Top(stack) > raw {
      var p := stack[..|stack| - 1];
      assert Increasing(p);
      SettleShape(p, raw);
      if p != [] {
        assert p[0] == stack[0];
      }
    }
  }

  /** On an increasing stack ending in `x`, `indexOf(x)` is its last position. */
  lemma {:induction false} IndexOfTop(s: seq<int>, x: int)
    requires Increasing(s) && s != [] && Top(s) == x
    ensures IndexOf(s, x) == |s| - 1
  {
    assert forall j :: 0 <= j < |s| - 1 ==> s[j] < s[|s| - 1];
  }

  /** The stack after any prefix is strictly increasing and, unless empty, ends
      with the last raw depth, whose new depth is then the stack's height less
      one; an empty stack gives the new depth -1. */
  lemma {:induction false} CompactShape(raws: seq<int>)
    ensures Increasing(Compact(raws).stack)
    ensures raws == [] ==> Compact(raws).stack == []
    ensures raws != [] && Compact(raws).stack != [] ==> Top(Compact(raws).stack) == raws[|raws| - 1]
    ensures raws != [] ==> Compact(raws).levels[|raws| - 1] == |Compact(raws).stack| - 1
    decreases |raws|
  {
    if raws != [] {
      var prev := raws[..|raws| - 1];
      var raw := raws[|raws| - 1];
      CompactShape(prev);
      var c := Compact(prev);
      var start := if c.stack == [] then [raw] else c.stack;
      SettleShape(start, raw);
      var s := Settle(start, raw);
      if s != [] {
        IndexOfTop(s, raw);
      }
    }
  }

  /** The new depths given to a prefix do not change when more entries follow. */
  lemma {:induction false} CompactPrefix(raws: seq<int>, n: nat)
    requires n <= |raws|
    ensures Compact(raws[..n]).levels == Compact(raws).levels[..n]
    decreases |raws|
  {
    if n < |raws| {
      var prev := raws[..|raws| - 1];
      CompactPrefix(prev, n);
      assert prev[..n] == raws[..n];
      assert Compact(raws).levels[..n] == Compact(prev).levels[..n];
    } else {
      assert raws[..n] == raws;
    }
  }

  /** The new depth of entry `k` from the stack left by the entries before it. */
  lemma {:induction false} CompactStep(raws: seq<int>, k: nat)
    requires k < |raws|
    ensures var s := Enter(Compact(raws[..k]).stack, raws[k]);
            && s == Compact(raws[..k + 1]).stack
            && |Compact(raws).levels| == |raws|
            && Compact(raws).levels[k] == |s| - 1
  {
    var pre := raws[..k + 1];
    assert pre[..|pre| - 1] == raws[..k];
    CompactShape(pre);
    CompactPrefix(raws, k + 1);
    CompactShape(raws);
  }

  /** The first entry always gets depth 0. */
  lemma {:induction false} FirstLevelZero(raws: seq<int>)
    requires raws != []
    ensures Compacted(raws)[0] == 0
  {
    CompactStep(raws, 0);
    assert raws[..0] == [];
  }

  /** Compared with the entry before it, an entry is at most one level deeper;
      a deeper raw depth gives exactly one level more, an equal raw depth the
      same level, and a shallower raw depth no deeper a level, so long as the
      earlier entry did not drop out of the stack (new depth -1). */
  lemma {:induction false} NestingPreserved(raws: seq<int>, k: nat)
    requires k + 1 < |raws|
    ensures var l := Compacted(raws);
            && |l| == |raws|
            && l[k + 1] <= l[k] + 1
            && (raws[k] < raws[k + 1] ==> l[k + 1] == l[k] + 1)
            && (raws[k] == raws[k + 1] && l[k] >= 0 ==> l[k + 1] == l[k])
            && (raws[k] > raws[k + 1] && l[k] >= 0 ==> l[k + 1] <= l[k])
  {
    CompactStep(raws, k);
    CompactStep(raws, k + 1);
    var pre := raws[..k + 1];
    CompactShape(pre);
    assert pre[|pre| - 1] == raws[k];
    var stack := Compact(pre).stack;
    assert raws[..k + 1][..|raws[..k + 1]| - 1] == raws[..k];
    var start := if stack == [] then [raws[k + 1]] else stack;
    SettleShape(start, raws[k + 1]);
  }

  /** Every new depth lies between -1 and the entry's position. */
  lemma {:induction false} LevelBounds(raws: seq<int>)
    ensures var l := Compacted(raws);
            |l| == |raws| && forall k :: 0 <= k < |l| ==> -1 <= l[k] <= k
    decreases |raws|
  {
    CompactShape(raws);
    if raws != [] {
      var prev := raws[..|raws| - 1];
      LevelBounds(prev);
      CompactPrefix(raws, |raws| - 1);
      var l := Compacted(raws);
      var n := |raws| - 1;
      if n > 0 {
        NestingPreserved(raws, n - 1);
        assert l[n - 1] == Compacted(prev)[n - 1];
      } else {
        FirstLevelZero(raws);
      }
    }
  }

  /** An entry drops out of the stack (new depth -1) exactly when its raw depth
      lies below the bottom of the stack left by the entries before it. */
  lemma {:induction false} DropsOut(raws: seq<int>, k: nat)
    requires k < |raws|
    ensures var stack := Compact(raws[..k]).stack;
            |Compacted(raws)| == |raws|
            && (Compacted(raws)[k] == -1 <==> stack != [] && raws[k] < stack[0])
  {
    CompactStep(raws, k);
    CompactShape(raws[..k]);
    var stack := Compact(raws[..k]).stack;
    var start := if stack == [] then [raws[k]] else stack;
    SettleShape(start, raws[k]);
  }

  /** When no raw depth lies below the first one, no entry drops out of the
      stack and the bottom of the stack stays the first raw depth. */
  lemma {:induction false} NoDropWhenFirstIsLowest(raws: seq<int>)
    requires raws != []
    requires forall k :: 0 <= k < |raws| ==> raws[0] <= raws[k]
    ensures Compact(raws).stack != [] && Compact(raws).stack[0] == raws[0]
    ensures forall k :: 0 <= k < |Compacted(raws)| ==> Compacted(raws)[k] >= 0
    decreases |raws|
  {
    CompactShape(raws);
    var prev := raws[..|raws| - 1];
    var raw := raws[|raws| - 1];
    if prev == [] {
      FirstLevelZero(raws);
      assert Compact(prev).stack == [];
    } else {
      NoDropWhenFirstIsLowest(prev);
      CompactShape(prev);
      SettleShape(Compact(prev).stack, raw);
      CompactPrefix(raws, |raws| - 1);
      forall k | 0 <= k < |Compacted(raws)|
        ensures Compacted(raws)[k] >= 0
      {
        if k < |prev| {
          assert Compacted(raws)[k] == Compacted(prev)[k];
        }
      }
    }
  }

  function Range(n: nat): (r: seq<int>)
    ensures |r| == n
    ensures forall k :: 0 <= k < n ==> r[k] == k
  {
    seq(n, k requires 0 <= k < n => k)
  }

  /** Settling the stack `0, 1, …, n-1` on a depth `l` with `-1 <= l <= n` leaves
      `0, 1, …, l`. */
  lemma {:induction false} SettleRange(n: nat, l: int)
    requires n > 0 && -1 <= l <= n
    ensures Settle(Range(n), l) == Range(l + 1)
    decreases n
  {
    if l < n - 1 {
      assert Range(n)[..n - 1] == Range(n - 1);
      if n > 1 {
        SettleRange(n - 1, l);
      }
    } else if l == n {
      assert Range(n) + [l] == Range(n + 1);
    }
  }

  /** One entry in both passes: where the first pass holds an increasing stack
      `c` and gives depth `h`, the second pass, holding `0, 1, …, |c|-1`, moves
      to `0, 1, …, h` and gives `h` again. */
  lemma {:induction false} RecompactStep(c: seq<int>, raw: int)
    requires Increasing(c)
    ensures Enter(Range(|c|), IndexOf(Enter(c, raw), raw)) == Range(|Enter(c, raw)|)
    ensures IndexOf(Range(|Enter(c, raw)|), IndexOf(Enter(c, raw), raw)) == IndexOf(Enter(c, raw), raw)
  {
    var start := if c == [] then [raw] else c;
    SettleShape(start, raw);
    var s1 := Enter(c, raw);
    var h := |s1| - 1;
    if s1 != [] {
      IndexOfTop(s1, raw);
    }
    assert IndexOf(s1, raw) == h;
    if c == [] {
      assert Enter(Range(0), h) == [0];
      assert [0] == Range(1);
    } else {
      SettleRange(|c|, h);
    }
    var s2 := Range(h + 1);
    if s2 != [] {
      IndexOfTop(s2, h);
    }
  }

  /** Compacting the compacted depths again changes nothing: the second pass keeps
      the stack `0, 1, …, h-1` where the first keeps a stack of height `h`. */
  lemma {:induction false} CompactTwice(raws: seq<int>)
    ensures Compacted(Compacted(raws)) == Compacted(raws)
    ensures Compact(Compacted(raws)).stack == Range(|Compact(raws).stack|)
    decreases |raws|
  {
    if raws != [] {
      var prev := raws[..|raws| - 1];
      var raw := raws[|raws| - 1];
      CompactTwice(prev);
      CompactShape(prev);
      var l := Compacted(raws);
      var lp := Compacted(prev);
      var c1 := Compact(prev).stack;
      var h := IndexOf(Enter(c1, raw), raw);
      assert l == lp + [h];
      assert l[..|l| - 1] == lp;
      RecompactStep(c1, raw);
    }
  }

  /** The `result.map(…)` callback for one entry: `level` is the stack kept
      between calls, which is started with the entry's depth when empty and then
      settled by the `while (true)` loop; the entry's `level` field is
      overwritten with the index `indexOf` gives. */
  method CompactEntry(level: seq<int>, node: ScanNode) returns (stack: seq<int>, out: ScanNode)
    ensures stack == Enter(level, node.level)
    ensures out == node.(level := IndexOf(stack, node.level))
  {
    var raw := node.level;
    stack := level;
    if |stack| == 0 {
      stack := stack + [raw];
    }
    while true
      invariant Settle(stack, raw) == Enter(level, raw)
      decreases if stack == [] || Top(stack) == raw then 0 else if Top(stack) < raw then 1 else |stack| + 1
    {
      if stack != [] && stack[|stack| - 1] < raw {
        stack := stack + [raw];
      } else if stack != [] && stack[|stack| - 1] > raw {
        stack := stack[..|stack| - 1];
      } else {
        break;
      }
    }
    out := node.(level := IndexOf(stack, raw));
  }

  lemma {:induction false} CompactSnoc(raws: seq<int>, k: nat)
    requires k < |raws|
    ensures Compact(raws[..k + 1]) ==
              var c := Compact(raws[..k]);
              var s := Enter(c.stack, raws[k]);
              Compaction(s, c.levels + [IndexOf(s, raws[k])])
  {
    assert raws[..k + 1][..k] == raws[..k];
  }

  lemma {:induction false} WithLevelsSnoc(ns: seq<ScanNode>, levels: seq<int>, k: nat, l: int)
    requires k < |ns| && |levels| == k
    ensures WithLevels(ns[..k + 1], levels + [l]) == WithLevels(ns[..k], levels) + [ns[k].(level := l)]
  {
  }

  /** `result.map(…)` over all entries, with the stack shared between the calls:
      every entry gets its compacted depth and keeps its other fields. */
  method CompactLevels(nodes: seq<ScanNode>) returns (out: seq<ScanNode>)
    ensures out == Relevel(nodes)
  {
    var level: seq<int> := [];
    out := [];
    ghost var raws := Levels(nodes);
    ghost var levels: seq<int> := [];
    for k := 0 to |nodes|
      invariant Compact(raws[..k]) == Compaction(level, levels)
      invariant |levels| == k
      invariant out == WithLevels(nodes[..k], levels)
    {
      var entry;
      level, entry := CompactEntry(level, nodes[k]);
      CompactSnoc(raws, k);
      WithLevelsSnoc(nodes, levels, k, entry.level);
      levels := levels + [entry.level];
      out := out + [entry];
    }
    assert raws[..|nodes|] == raws;
    assert nodes[..|nodes|] == nodes;
  }
}
