/** The default `src` output mode: the text of every element record is written
    out again, preceded by newlines when the record starts on another line and by
    spaces when it starts further along the same line.  What goes to standard
    output is returned as one string (`console.log('')` writes one newline). */
module SourceReplay {

  import opened Records
  import opened Text

  /** The `line` and `pos` variables of the replay loop. */
  datatype Cursor = Cursor(line: int, pos: int)

  /** What is written for one element record, and the cursor after it. */
  datatype Written = Written(out: string, cur: Cursor)

  /** The layout written before an element record: newlines up to its line when
      it starts on another line (and then no spaces, as `pos` is reset to the
      record's own offset), otherwise spaces up to its offset. */
  function Gap(cur: Cursor, r: LineInfo): (g: string)
    ensures r.line != cur.line ==> g == Repeat('\n', r.line - cur.line)
    ensures r.line == cur.line ==> g == Repeat(' ', r.pos - cur.pos)
  {
    var newlines := if r.line != cur.line then Repeat('\n', r.line - cur.line) else "";
    var p := if r.line != cur.line then r.pos else cur.pos;
    var spaces := if p != r.pos then Repeat(' ', r.pos - p) else "";
    newlines + spaces
  }

  /** The loop's effect for one record: non-element records write nothing and
      leave the cursor alone. */
  function Step(w: Written, r: LineInfo): Written {
    if r.element then Written(w.out + Gap(w.cur, r) + r.text, Cursor(r.endl, r.end))
    else w
  }

  function ReplayFrom(w: Written, rs: seq<LineInfo>): Written
    decreases |rs|
  {
    if rs == [] then w else Step(ReplayFrom(w, rs[..|rs| - 1]), rs[|rs| - 1])
  }

  function Replay(rs: seq<LineInfo>): Written {
    ReplayFrom(Written("", Cursor(0, 0)), rs)
  }

  /** The element records, in order. */
  function Elements(rs: seq<LineInfo>): (r: seq<LineInfo>)
    ensures forall k :: 0 <= k < |r| ==> r[k].element
    ensures forall x :: x in r ==> x in rs
  {
    if rs == [] then []
    else Elements(rs[..|rs| - 1]) + (if rs[|rs| - 1].element then [rs[|rs| - 1]] else [])
  }

  /** The element texts run together. */
  function Texts(rs: seq<LineInfo>): string {
    if rs == [] then ""
    else Texts(rs[..|rs| - 1]) + (if rs[|rs| - 1].element then rs[|rs| - 1].text else "")
  }

  lemma {:induction false} ReplayFromAppend(w: Written, rs: seq<LineInfo>, ts: seq<LineInfo>)
    ensures ReplayFrom(w, rs + ts) == ReplayFrom(ReplayFrom(w, rs), ts)
    decreases |ts|
  {
    if ts == [] {
      assert rs + ts == rs;
    } else {
      assert (rs + ts)[..|rs + ts| - 1] == rs + ts[..|ts| - 1];
      ReplayFromAppend(w, rs, ts[..|ts| - 1]);
    }
  }

  /** Only element records matter: dropping every other record writes the same
      text and ends at the same cursor. */
  lemma {:induction false} OnlyElementsMatter(w: Written, rs: seq<LineInfo>)
    ensures ReplayFrom(w, rs) == ReplayFrom(w, Elements(rs))
    decreases |rs|
  {
    if rs != [] {
      var prev := rs[..|rs| - 1];
      var last := rs[|rs| - 1];
      OnlyElementsMatter(w, prev);
      if last.element {
        ReplayFromAppend(w, Elements(prev), [last]);
        assert [last][..0] == [];
      } else {
        assert Elements(rs) == Elements(prev);
      }
    }
  }

  /** The cursor ends at the line and offset just past the last element record,
      or at the start when there is none. */
  lemma {:induction false} FinalCursor(rs: seq<LineInfo>)
    ensures Elements(rs) == [] ==> Replay(rs).cur == Cursor(0, 0)
    ensures Elements(rs) != [] ==>
              var last := Elements(rs)[|Elements(rs)| - 1];
              Replay(rs).cur == Cursor(last.endl, last.end)
    decreases |rs|
  {
    if rs != [] {
      FinalCursor(rs[..|rs| - 1]);
    }
  }

  predicate IsLayout(c: char) {
    c == ' ' || c == '\n'
  }

  /** The text with every space and newline removed. */
  function Unlayout(s: string): (r: string)
    ensures |r| <= |s|
  {
    if s == [] then ""
    else Unlayout(s[..|s| - 1]) + (if IsLayout(s[|s| - 1]) then "" else [s[|s| - 1]])
  }

  lemma {:induction false} UnlayoutAppend(a: string, b: string)
    ensures Unlayout(a + b) == Unlayout(a) + Unlayout(b)
    decreases |b|
  {
    if b == [] {
      assert a + b == a;
    } else {
      assert (a + b)[..|a + b| - 1] == a + b[..|b| - 1];
      UnlayoutAppend(a, b[..|b| - 1]);
    }
  }

  lemma {:induction false} UnlayoutOfLayout(s: string)
    requires forall k :: 0 <= k < |s| ==> IsLayout(s[k])
    ensures Unlayout(s) == ""
    decreases |s|
  {
    if s != [] {
      UnlayoutOfLayout(s[..|s| - 1]);
    }
  }

  /** The layout written before a record is made of spaces and newlines only. */
  lemma {:induction false} GapIsLayout(cur: Cursor, r: LineInfo)
    ensures Unlayout(Gap(cur, r)) == ""
  {
    UnlayoutOfLayout(Gap(cur, r));
  }

  /** Layout followed by text adds only that text's non-layout characters. */
  lemma {:induction false} UnlayoutStep(out: string, g: string, t: string, before: string)
    requires Unlayout(out) == Unlayout(before)
    requires Unlayout(g) == ""
    ensures Unlayout(out + g + t) == Unlayout(before + t)
  {
    calc {
      Unlayout(out + g + t);
      { UnlayoutAppend(out + g, t); }
      Unlayout(out + g) + Unlayout(t);
      { UnlayoutAppend(out, g); }
      Unlayout(before) + Unlayout(t);
      { UnlayoutAppend(before, t); }
      Unlayout(before + t);
    }
  }

  /** The replay adds nothing but spaces and newlines: with layout removed, the
      output is the element texts run together. */
  lemma {:induction false} OnlyLayoutAdded(rs: seq<LineInfo>)
    ensures Unlayout(Replay(rs).out) == Unlayout(Texts(rs))
    decreases |rs|
  {
    if rs != [] {
      var prev := rs[..|rs| - 1];
      var last := rs[|rs| - 1];
      OnlyLayoutAdded(prev);
      var w := Replay(prev);
      if last.element {
        GapIsLayout(w.cur, last);
        UnlayoutStep(w.out, Gap(w.cur, last), last.text, Texts(prev));
        assert Replay(rs).out == w.out + Gap(w.cur, last) + last.text;
        assert Texts(rs) == Texts(prev) + last.text;
      } else {
        assert Replay(rs) == w;
        assert Texts(rs) == Texts(prev) + "" == Texts(prev);
      }
    }
  }

  function Newlines(s: string): nat {
    if s == [] then 0 else Newlines(s[..|s| - 1]) + (if s[|s| - 1] == '\n' then 1 else 0)
  }

  lemma {:induction false} NewlinesAppend(a: string, b: string)
    ensures Newlines(a + b) == Newlines(a) + Newlines(b)
    decreases |b|
  {
    if b == [] {
      assert a + b == a;
    } else {
      assert (a + b)[..|a + b| - 1] == a + b[..|b| - 1];
      NewlinesAppend(a, b[..|b| - 1]);
    }
  }

  lemma {:induction false} NewlinesRepeat(c: char, n: int)
    ensures Newlines(Repeat(c, n)) == if c == '\n' && n > 0 then n else 0
    decreases if n > 0 then n else 0
  {
    if n > 0 {
      NewlinesRepeat(c, n - 1);
      NewlinesAppend([c], Repeat(c, n - 1));
      assert [c][..0] == [];
    }
  }

  /** Records whose line numbers agree with their texts: every element starts no
      earlier than the line the previous one ended on, and ends as many lines
      later as its text has newlines. */
  ghost predicate LinesAgree(rs: seq<LineInfo>) {
    forall k :: 0 <= k < |rs| && rs[k].element ==>
      Replay(rs[..k]).cur.line <= rs[k].line && rs[k].endl == rs[k].line + Newlines(rs[k].text)
  }

  /** On such records every element text is written on its own line: the output
      holds exactly as many newlines as the line the cursor is on. */
  lemma {:induction false} LinesPreserved(rs: seq<LineInfo>)
    requires LinesAgree(rs)
    ensures Newlines(Replay(rs).out) == Replay(rs).cur.line
    decreases |rs|
  {
    if rs != [] {
      var n := |rs| - 1;
      var prev := rs[..n];
      var last := rs[n];
      assert LinesAgree(prev) by {
        forall k | 0 <= k < |prev| && prev[k].element
          ensures Replay(prev[..k]).cur.line <= prev[k].line && prev[k].endl == prev[k].line + Newlines(prev[k].text)
        {
          assert prev[..k] == rs[..k];
        }
      }
      LinesPreserved(prev);
      var w := Replay(prev);
      if last.element {
        var g := Gap(w.cur, last);
        NewlinesAppend(w.out + g, last.text);
        NewlinesAppend(w.out, g);
        if last.line != w.cur.line {
          NewlinesRepeat('\n', last.line - w.cur.line);
        } else {
          NewlinesRepeat(' ', last.pos - w.cur.pos);
        }
        assert w.out + g + last.text == (w.out + g) + last.text;
      }
    }
  }

  /** The `forEach` callback for one record: for an element, the newline loop
      when it starts on another line (which also resets `pos`), the space loop,
      then its text; the cursor moves to where the record ends. */
  method WriteRecord(out: string, line: int, pos: int, node: LineInfo) returns (out': string, line': int, pos': int)
    ensures Written(out', Cursor(line', pos')) == Step(Written(out, Cursor(line, pos)), node)
  {
    out', line', pos' := out, line, pos;
    if node.element {
      if node.line != line' {
        for i := 0 to if node.line - line' > 0 then node.line - line' else 0
          invariant out' == out + Repeat('\n', i)
        {
          out' := out' + "\n";
          assert Repeat('\n', i + 1) == Repeat('\n', i) + "\n";
        }
        pos' := node.pos;
      }
      ghost var mid := out';
      if pos' != node.pos {
        for i := 0 to if node.pos - pos' > 0 then node.pos - pos' else 0
          invariant out' == mid + Repeat(' ', i)
        {
          out' := out' + " ";
          assert Repeat(' ', i + 1) == Repeat(' ', i) + " ";
        }
      }
      out' := out' + node.text;
      line' := node.endl;
      pos' := node.end;
    }
  }

  /** The `forEach` over the records, writing to `out`. */
  method Regenerate(rs: seq<LineInfo>) returns (out: string)
    ensures out == Replay(rs).out
  {
    out := "";
    var line := 0;
    var pos := 0;
    for k := 0 to |rs|
      invariant Replay(rs[..k]) == Written(out, Cursor(line, pos))
    {
      out, line, pos := WriteRecord(out, line, pos, rs[k]);
      assert rs[..k + 1][..k] == rs[..k];
    }
    assert rs[..|rs|] == rs;
  }
}
