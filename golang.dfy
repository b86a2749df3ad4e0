/** Go mode: every top-level function declaration `func name(...` is a
    level-1 heading titled with the function's name; levels never change. */
module Golang {
  import opened Text
  import opened Outline

  const Keyword := "func "
  const OpenParen := '('
  const NewHeadingText := "NewHeadline"
  const NewFunctionLines := ["func newFunc() {", "}", ""]

  /** The pattern `^func ([^(]+)`, matched by hand: the keyword `func ` and
      then a non-empty run of characters other than `(` (group 1), as long
      as possible. Every heading is at level 1 and its title is group 1
      stripped of whitespace at both ends. */
  function Match(line: string): (r: Option<Heading>)
    ensures r.Some? ==> r.value.level == 1
    ensures r.Some? && r.value.title != [] ==>
      !IsWhitespace(r.value.title[0]) && !IsWhitespace(r.value.title[|r.value.title| - 1])
  {
    if StartsWith(line, Keyword) && RunEndExcept(line, OpenParen, |Keyword|) > |Keyword| then
      StripEnds(line[|Keyword|..RunEndExcept(line, OpenParen, |Keyword|)]);
      Some(Heading(1, Strip(line[|Keyword|..RunEndExcept(line, OpenParen, |Keyword|)])))
    else
      None
  }

  /** A line is a heading exactly when it starts with `func ` followed by a
      character other than `(`. */
  lemma MatchIff(line: string)
    ensures Match(line).Some? <==> |line| > |Keyword| && line[..|Keyword|] == Keyword && line[|Keyword|] != OpenParen
  {
  }

  /** Group 1 ends at position `k` of `line`: the line is `func ` and then
      at least one character other than `(`, up to `k`, where either the
      line ends or a `(` stands. */
  predicate GroupEnd(line: string, k: int) {
    StartsWith(line, Keyword) && |Keyword| < k <= |line|
    && (forall j :: |Keyword| <= j < k ==> line[j] != OpenParen)
    && (k == |line| || line[k] == OpenParen)
  }

  /** Every heading is at level 1 and titled with its group 1, stripped: the
      text after `func ` up to the first `(` or the end of the line. */
  lemma MatchSound(line: string)
    requires Match(line).Some?
    ensures exists k :: GroupEnd(line, k) && Match(line).value == Heading(1, Strip(line[|Keyword|..k]))
  {
    RunEndExceptSpec(line, OpenParen, |Keyword|);
    assert GroupEnd(line, RunEndExcept(line, OpenParen, |Keyword|));
  }

  /** Conversely, wherever group 1 ends, `Match` returns its stripped text
      as a level-1 heading. */
  lemma MatchComplete(line: string, k: int)
    requires GroupEnd(line, k)
    ensures Match(line) == Some(Heading(1, Strip(line[|Keyword|..k])))
  {
    RunEndExceptOf(line, OpenParen, |Keyword|, k);
  }

  /** A receiver method `func (r T) M() {` is never a heading: `(` follows
      `func ` at once. */
  lemma MethodNeverHeading(rest: string)
    ensures Match(Keyword + [OpenParen] + rest) == None
  {
    MatchIff(Keyword + [OpenParen] + rest);
  }

  /** `func doWork() {` is a level-1 heading titled `doWork`, shown in the
      tree as `  |doWork`. */
  lemma FunctionExample()
    ensures Match("func doWork() {") == Some(Heading(1, "doWork"))
    ensures TreeLine(1, "doWork") == "  |doWork"
  {
    var line := "func doWork() {";
    assert GroupEnd(line, 11);
    MatchComplete(line, 11);
    assert line[|Keyword|..11] == "" + "doWork";
    StripAfterGap("", "doWork");
  }

  /** `hook_makeOutline`: scan the body lines and collect, for every heading,
      its tree line, its 1-based line number and its level, which is always
      1. */
  method MakeOutline(bodyLines: seq<string>) returns (treeLines: seq<string>, bodyNodes: seq<int>, levels: seq<int>)
    ensures Outline(treeLines, bodyNodes, levels) == Scan(Match, bodyLines)
    ensures |treeLines| == |bodyNodes| == |levels|
    ensures forall k :: 0 <= k < |bodyNodes| ==> 1 <= bodyNodes[k] <= |bodyLines|
    ensures forall j, k :: 0 <= j < k < |bodyNodes| ==> bodyNodes[j] < bodyNodes[k]
    ensures forall k :: 0 <= k < |levels| ==> levels[k] == 1
  {
    treeLines, bodyNodes, levels := [], [], [];
    var i := 0;
    while i < |bodyLines|
      invariant i <= |bodyLines|
      invariant Outline(treeLines, bodyNodes, levels) == Scan(Match, bodyLines[..i])
      invariant forall k :: 0 <= k < |levels| ==> levels[k] == 1
    {
      assert bodyLines[..i + 1][..i] == bodyLines[..i];
      var m := Match(bodyLines[i]);
      if m.Some? {
        var level := 1;
        var head := m.value.title;
        treeLines := treeLines + [TreeLine(level, head)];
        bodyNodes := bodyNodes + [i + 1];
        levels := levels + [level];
      }
      i := i + 1;
    }
    assert bodyLines[..i] == bodyLines;
    ScanNodesOrdered(Match, bodyLines);
  }

  /** `hook_newHeadline`: whatever the level, the tree text `NewHeadline` and
      the skeleton of an empty function `newFunc`, whose first line is a
      level-1 heading titled `newFunc` and whose other lines are none. */
  function NewHeadline(level: int): (r: (string, seq<string>))
    ensures |r.1| == 3 && Match(r.1[0]) == Some(Heading(1, "newFunc"))
    ensures Match(r.1[1]) == None && Match(r.1[2]) == None
  {
    NewFunctionHeading();
    (NewHeadingText, NewFunctionLines)
  }

  /** The first line of the new function is a level-1 heading titled
      `newFunc`. */
  lemma NewFunctionHeading()
    ensures Match(NewFunctionLines[0]) == Some(Heading(1, "newFunc"))
  {
    var first := NewFunctionLines[0];
    assert GroupEnd(first, 12);
    MatchComplete(first, 12);
    assert first[|Keyword|..12] == "" + "newFunc";
    StripAfterGap("", "newFunc");
  }

  /** The inserted lines outline to exactly one level-1 heading, on their
      first line, titled `newFunc` whatever level was asked for (not the tree
      text `NewHeadline` that `hook_newHeadline` returns). */
  lemma NewHeadlineOutline(level: int)
    ensures Scan(Match, NewHeadline(level).1) == Outline([TreeLine(1, "newFunc")], [1], [1])
  {
    var lines := NewHeadline(level).1;
    assert lines[..1][..0] == [];
    assert Scan(Match, lines[..1]) == Outline([TreeLine(1, "newFunc")], [1], [1]);
    assert lines[..2][..1] == lines[..1];
    assert Scan(Match, lines[..2]) == Outline([TreeLine(1, "newFunc")], [1], [1]);
    assert lines[..|lines| - 1] == lines[..2];
  }

  /** `hook_changeLevBodyHead`: level changes are not supported; the line is
      returned as it is. */
  function ChangeLevel(line: string, delta: int): (r: string)
    ensures r == line
  {
    line
  }

  /** Changing the level of any line leaves the outline as it was. */
  lemma ChangeLevelKeepsOutline(lines: seq<string>, i: nat, delta: int)
    requires i < |lines|
    ensures Scan(Match, lines[i := ChangeLevel(lines[i], delta)]) == Scan(Match, lines)
  {
    assert lines[i := ChangeLevel(lines[i], delta)] == lines;
  }
}
