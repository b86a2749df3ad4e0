/** What every outline mode produces: the three aligned lists of an outline
    (tree lines, 1-based body line numbers, levels), the tree-line display
    format, and `Scan`, the filter-map over the body lines that each mode's
    `MakeOutline` loop is proved to compute. */
module Outline {
  import opened Text

  datatype Option<T> = None | Some(value: T)

  /** A recognised heading line: its level and its title (the text shown
      after `|` in the tree). */
  datatype Heading = Heading(level: nat, title: string)

  /** The triple `(tree_lines, body_nodes, levels)` that every mode returns. */
  datatype Outline = Outline(treeLines: seq<string>, bodyNodes: seq<int>, levels: seq<int>)

  /** The tree-pane line of a heading: `"  " + ". " * (level - 1) + "|" + title`. */
  function TreeLine(level: int, title: string): (r: string)
    ensures |r| > |title| + 2 && r[..2] == "  "
    ensures r[|r| - |title| - 1] == '|' && r[|r| - |title|..] == title
  {
    "  " + Repeat(". ", level - 1) + "|" + title
  }

  /** A tree line can be read back: for `level >= 1` its first `|` sits at
      index `2 * level`, and the text after it is the title. */
  lemma TreeLineDecode(level: int, title: string)
    requires level >= 1
    ensures var t := TreeLine(level, title);
      |t| == 2 * level + 1 + |title| && t[2 * level] == '|' && '|' !in t[..2 * level]
      && t[2 * level + 1..] == title
  {
    RepeatShape(". ", level - 1);
    var t := TreeLine(level, title);
    var pre := "  " + Repeat(". ", level - 1);
    assert t == pre + "|" + title;
    assert t[..2 * level] == pre;
    assert t[2 * level + 1..] == title;
  }

  /** The outline of `lines` under a mode whose heading recogniser is
      `parse`: every line for which `parse` succeeds, in order, contributes
      its tree line, its 1-based line number and its level. */
  function Scan(parse: string -> Option<Heading>, lines: seq<string>): (o: Outline)
    ensures |o.treeLines| == |o.bodyNodes| == |o.levels|
  {
    if lines == [] then Outline([], [], [])
    else
      var o := Scan(parse, lines[..|lines| - 1]);
      match parse(lines[|lines| - 1])
      case None => o
      case Some(h) =>
        Outline(o.treeLines + [TreeLine(h.level, h.title)], o.bodyNodes + [|lines|], o.levels + [h.level])
  }

  /** Body node numbers are 1-based line numbers of `lines`, in strictly
      increasing order. */
  lemma {:induction false} ScanNodesOrdered(parse: string -> Option<Heading>, lines: seq<string>)
    ensures forall k :: 0 <= k < |Scan(parse, lines).bodyNodes| ==> 1 <= Scan(parse, lines).bodyNodes[k] <= |lines|
    ensures forall j, k :: 0 <= j < k < |Scan(parse, lines).bodyNodes| ==>
      Scan(parse, lines).bodyNodes[j] < Scan(parse, lines).bodyNodes[k]
  {
    if lines != [] {
      ScanNodesOrdered(parse, lines[..|lines| - 1]);
    }
  }

  /** Every outline entry describes the heading found at its body line: the
      level is the parsed level and the tree line shows the parsed title. */
  lemma {:induction false} ScanSound(parse: string -> Option<Heading>, lines: seq<string>, k: nat)
    requires k < |Scan(parse, lines).bodyNodes|
    ensures 1 <= Scan(parse, lines).bodyNodes[k] <= |lines|
    ensures parse(lines[Scan(parse, lines).bodyNodes[k] - 1]).Some?
    ensures Scan(parse, lines).levels[k] == parse(lines[Scan(parse, lines).bodyNodes[k] - 1]).value.level
    ensures Scan(parse, lines).treeLines[k] == TreeLine(parse(lines[Scan(parse, lines).bodyNodes[k] - 1]).value.level,
                                                       parse(lines[Scan(parse, lines).bodyNodes[k] - 1]).value.title)
  {
    ScanNodesOrdered(parse, lines);
    var init := lines[..|lines| - 1];
    var o := Scan(parse, init);
    if k < |o.bodyNodes| {
      ScanSound(parse, init, k);
      assert lines[o.bodyNodes[k] - 1] == init[o.bodyNodes[k] - 1];
    }
  }

  /** Every line that `parse` recognises appears in the outline. */
  lemma {:induction false} ScanComplete(parse: string -> Option<Heading>, lines: seq<string>, i: nat)
    requires i < |lines| && parse(lines[i]).Some?
    ensures i + 1 in Scan(parse, lines).bodyNodes
  {
    var init := lines[..|lines| - 1];
    if i < |lines| - 1 {
      assert init[i] == lines[i];
      ScanComplete(parse, init, i);
    }
  }

  /** Replacing the heading line that outline entry `k` points at by another
      heading line `x` (whose heading is `h`) changes that entry only, to the new heading's level and
      tree line; the body nodes and every other entry stay as they were. */
  lemma {:induction false} ScanReplace(parse: string -> Option<Heading>, lines: seq<string>, i: nat, x: string, h: Heading, k: nat)
    requires i < |lines| && parse(x) == Some(h)
    requires k < |Scan(parse, lines).bodyNodes| && Scan(parse, lines).bodyNodes[k] == i + 1
    ensures Scan(parse, lines[i := x]) == Outline(
      Scan(parse, lines).treeLines[k := TreeLine(h.level, h.title)],
      Scan(parse, lines).bodyNodes,
      Scan(parse, lines).levels[k := h.level])
  {
    var lines' := lines[i := x];
    var init, init' := lines[..|lines| - 1], lines'[..|lines| - 1];
    var prev := Scan(parse, init);
    ScanNodesOrdered(parse, init);
    if i < |lines| - 1 {
      assert init' == init[i := x];
      assert lines'[|lines| - 1] == lines[|lines| - 1];
      assert k < |prev.bodyNodes|;
      ScanReplace(parse, init, i, x, h, k);
    } else {
      assert init' == init;
      assert k == |prev.bodyNodes|;
    }
  }

  /** As read by `parse`, `after` is the heading `before` with its level
      moved by `delta` and its title kept. */
  predicate Relevelled(parse: string -> Option<Heading>, before: string, after: string, delta: int) {
    parse(before).Some? && parse(after).Some?
    && parse(after).value.level == parse(before).value.level + delta
    && parse(after).value.title == parse(before).value.title
  }

  /** Entry `k` of outline `o` with its level moved by `delta` and its tree
      line redrawn for `title`. */
  function Relevel(o: Outline, k: nat, delta: int, title: string): Outline
    requires k < |o.treeLines| && k < |o.levels|
  {
    Outline(o.treeLines[k := TreeLine(o.levels[k] + delta, title)], o.bodyNodes, o.levels[k := o.levels[k] + delta])
  }

  /** The same, seen from the level: when the line of entry `k` is replaced
      by a heading with the same title and the level moved by `delta`, the
      outline moves that entry's level by `delta` and redraws its tree line. */
  lemma ScanRelevel(parse: string -> Option<Heading>, lines: seq<string>, i: nat, x: string, delta: int, k: nat)
    requires i < |lines| && Relevelled(parse, lines[i], x, delta)
    requires k < |Scan(parse, lines).bodyNodes| && Scan(parse, lines).bodyNodes[k] == i + 1
    ensures Scan(parse, lines[i := x]) == Relevel(Scan(parse, lines), k, delta, parse(lines[i]).value.title)
  {
    var h := parse(lines[i]).value;
    ScanSound(parse, lines, k);
    assert Scan(parse, lines).levels[k] == h.level;
    ScanReplace(parse, lines, i, x, parse(x).value, k);
  }
}
