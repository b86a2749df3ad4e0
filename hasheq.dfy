/** Hash-equals mode: headings are lines `# = Title`, `# == Title`, ...;
    the level is the number of `=` characters. */
module HashEq {
  import opened Text
  import opened Outline
  import Markers

  const Leader := "# "
  const LevelChar := '='
  const NewHeadingText := "NewHeadline"

  /** The heading pattern `^# (=+)\s+(\S.*)\S*$`, matched by hand: the leader
      `# `, then a maximal run of `=` (group 1, whose length is the level),
      at least one whitespace character and the title (group 2), as
      `Markers.Read` reads them. */
  function Match(line: string): (r: Option<Heading>)
    ensures r.Some? ==> r.value.level >= 1 && r.value.title != [] && !IsWhitespace(r.value.title[0])
  {
    if StartsWith(line, Leader) then Markers.Read(line[|Leader|..], LevelChar, 0) else None
  }

  /** `line` is `"# " + "=" * level + gap + title` with a non-empty
      whitespace `gap` and a title that starts with a non-whitespace
      character: the shape the pattern describes. */
  predicate Shape(line: string, level: nat, gap: string, title: string) {
    line == Leader + Repeat([LevelChar], level) + gap + title
    && level >= 1 && gap != [] && AllWhitespace(gap) && title != [] && !IsWhitespace(title[0])
  }

  /** A line behind the leader that splits into markers, gap and title has
      the pattern's shape. */
  lemma ShapeOfSplit(line: string, n: nat, title: string)
    requires StartsWith(line, Leader) && Markers.Split(line[|Leader|..], LevelChar, n, title)
    requires n >= 1 && title != [] && !IsWhitespace(title[0])
    ensures var rest := line[|Leader|..]; Shape(line, n, rest[n..|rest| - |title|], title)
  {
    var rest := line[|Leader|..];
    assert line == Leader + rest;
  }

  /** Every line `Match` accepts has the shape of the pattern, with the
      returned level and title. */
  lemma MatchSound(line: string)
    requires Match(line).Some?
    ensures exists gap :: Shape(line, Match(line).value.level, gap, Match(line).value.title)
  {
    var h := Match(line).value;
    Markers.ReadSound(line[|Leader|..], LevelChar, 0);
    ShapeOfSplit(line, h.level, h.title);
  }

  /** Every line of the pattern's shape is accepted by `Match`, with its level
      and title: together with `MatchSound`, `Match` recognises exactly the
      lines the pattern describes. */
  lemma MatchComplete(line: string, level: nat, gap: string, title: string)
    requires Shape(line, level, gap, title)
    ensures Match(line) == Some(Heading(level, title))
  {
    var rest := Repeat([LevelChar], level) + gap + title;
    assert line == Leader + rest;
    assert line[|Leader|..] == rest;
    Markers.ReadComplete(rest, LevelChar, 0, level, gap, title);
  }

  /** `make_heading_line`: `"# " + "=" * level + " " + title`. */
  function MakeHeadingLine(level: int, title: string): (r: string)
    ensures StartsWith(r, Leader)
  {
    Leader + Repeat([LevelChar], level) + " " + title
  }

  /** Given a title that starts with a non-whitespace character (every title
      `Match` returns does), the line `make_heading_line` builds reads back as
      a heading of that level and title when the level is positive, and as
      no heading when it is not. */
  lemma MakeHeadingLineMatch(level: int, title: string)
    requires title != [] && !IsWhitespace(title[0])
    ensures Match(MakeHeadingLine(level, title)) == if level >= 1 then Some(Heading(level, title)) else None
  {
    var line := MakeHeadingLine(level, title);
    if level >= 1 {
      MatchComplete(line, level, " ", title);
    } else {
      assert line[|Leader|..][0] == ' ';
    }
  }

  /** `hook_makeOutline`: scan the body lines and collect, for every heading,
      its tree line, its 1-based line number and its level. */
  method MakeOutline(bodyLines: seq<string>) returns (treeLines: seq<string>, bodyNodes: seq<int>, levels: seq<int>)
    ensures Outline(treeLines, bodyNodes, levels) == Scan(Match, bodyLines)
    ensures |treeLines| == |bodyNodes| == |levels|
    ensures forall k :: 0 <= k < |bodyNodes| ==> 1 <= bodyNodes[k] <= |bodyLines|
    ensures forall j, k :: 0 <= j < k < |bodyNodes| ==> bodyNodes[j] < bodyNodes[k]
  {
    treeLines, bodyNodes, levels := [], [], [];
    var i := 0;
    while i < |bodyLines|
      invariant i <= |bodyLines|
      invariant Outline(treeLines, bodyNodes, levels) == Scan(Match, bodyLines[..i])
    {
      assert bodyLines[..i + 1][..i] == bodyLines[..i];
      if StartsWith(bodyLines[i], Leader) {
        var m := Match(bodyLines[i]);
        if m.Some? {
          var level, headingText := m.value.level, m.value.title;
          treeLines := treeLines + [TreeLine(level, headingText)];
          bodyNodes := bodyNodes + [i + 1];
          levels := levels + [level];
        }
      }
      i := i + 1;
    }
    assert bodyLines[..i] == bodyLines;
    ScanNodesOrdered(Match, bodyLines);
  }

  /** `hook_newHeadline`: the tree text of the new heading and the body lines
      to insert (the heading line and a blank line). The heading line reads
      back as the requested level and the returned tree text when the level
      is positive, and as no heading otherwise. */
  function NewHeadline(level: int): (r: (string, seq<string>))
    ensures |r.1| == 2
    ensures Match(r.1[0]) == if level >= 1 then Some(Heading(level, r.0)) else None
  {
    MakeHeadingLineMatch(level, NewHeadingText);
    (NewHeadingText, [MakeHeadingLine(level, NewHeadingText), ""])
  }

  /** For a positive level the inserted lines outline to exactly one heading,
      on their first line, at the requested level, showing the returned tree
      text; for a level of 0 or less they hold no heading at all. */
  lemma NewHeadlineOutline(level: int)
    ensures var (text, lines) := NewHeadline(level);
      Scan(Match, lines)
      == if level >= 1 then Outline([TreeLine(level, text)], [1], [level]) else Outline([], [], [])
  {
    var lines := NewHeadline(level).1;
    MakeHeadingLineMatch(level, NewHeadingText);
    assert lines[..1][..0] == [];
    if level >= 1 {
      assert Scan(Match, lines[..1]) == Outline([TreeLine(level, NewHeadingText)], [1], [level]);
    } else {
      assert Scan(Match, lines[..1]) == Outline([], [], []);
    }
    assert lines[..|lines| - 1] == lines[..1];
    assert Match(lines[1]) == None;
  }

  /** `hook_changeLevBodyHead`: rewrite a heading line to `level + delta`,
      keeping its title. A zero delta returns the line untouched; otherwise
      the line must match the pattern and the new level must not be negative
      (the source asserts it), and the line is rebuilt in canonical form. */
  function ChangeLevel(line: string, delta: int): (r: string)
    requires delta != 0 ==> Match(line).Some? && Match(line).value.level + delta >= 0
    ensures delta == 0 ==> r == line
    ensures delta != 0 ==> StartsWith(r, Leader)
  {
    if delta == 0 then line
    else
      var h := Match(line).value;
      MakeHeadingLine(h.level + delta, h.title)
  }

  /** A non-zero change of level turns any line of the pattern's shape into
      `"# " + "=" * (n + delta) + " " + title`: the marker run is resized,
      whatever whitespace gap there was becomes one space, and the title is
      kept verbatim. */
  lemma ChangeLevelCanonical(line: string, n: nat, gap: string, title: string, delta: int)
    requires Shape(line, n, gap, title) && delta != 0 && n + delta >= 0
    ensures Match(line) == Some(Heading(n, title))
    ensures ChangeLevel(line, delta) == Leader + Repeat([LevelChar], n + delta) + " " + title
  {
    MatchComplete(line, n, gap, title);
  }

  /** The rewritten line reads back with the same title at the new level;
      at level 0 it is no heading. */
  lemma ChangeLevelMatch(line: string, delta: int)
    requires delta != 0 && Match(line).Some? && Match(line).value.level + delta >= 0
    ensures Match(ChangeLevel(line, delta))
      == if Match(line).value.level + delta >= 1
         then Some(Heading(Match(line).value.level + delta, Match(line).value.title))
         else None
  {
    var h := Match(line).value;
    MakeHeadingLineMatch(h.level + delta, h.title);
  }

  /** Changing a level and changing it back yields the canonical form of the
      heading (single `# ` leader, single space before the title). */
  lemma ChangeLevelRoundTrip(line: string, delta: int)
    requires Match(line).Some? && Match(line).value.level + delta >= 1
    ensures delta != 0 ==>
      Match(ChangeLevel(line, delta)) == Some(Heading(Match(line).value.level + delta, Match(line).value.title))
    ensures ChangeLevel(ChangeLevel(line, delta), -delta)
      == if delta == 0 then line else MakeHeadingLine(Match(line).value.level, Match(line).value.title)
  {
    if delta != 0 {
      var h := Match(line).value;
      ChangeLevelMatch(line, delta);
    }
  }

  /** A heading written as `"# " + "=" * n + " " + t` survives any change of
      level and back, as long as the intermediate level stays positive. */
  lemma CanonicalRoundTrip(n: int, title: string, delta: int)
    requires n >= 1 && n + delta >= 1 && title != [] && !IsWhitespace(title[0])
    ensures Match(MakeHeadingLine(n, title)) == Some(Heading(n, title))
    ensures delta != 0 ==>
      Match(ChangeLevel(MakeHeadingLine(n, title), delta)) == Some(Heading(n + delta, title))
    ensures ChangeLevel(ChangeLevel(MakeHeadingLine(n, title), delta), -delta) == MakeHeadingLine(n, title)
  {
    MakeHeadingLineMatch(n, title);
    if delta != 0 {
      ChangeLevelRoundTrip(MakeHeadingLine(n, title), delta);
    }
  }

  /** A rewritten heading reads back with its level moved by `delta` and its
      title kept, whatever the delta, as long as the new level is positive. */
  lemma ChangeLevelReparses(line: string, delta: int)
    requires Match(line).Some? && Match(line).value.level + delta >= 1
    ensures Relevelled(Match, line, ChangeLevel(line, delta), delta)
  {
    if delta != 0 {
      ChangeLevelMatch(line, delta);
    }
  }

  /** Changing the level of the heading that outline entry `k` points at
      changes the outline in that entry only: the body nodes stay, its level
      moves by `delta` and its tree line is redrawn with the same title. */
  lemma ChangeLevelInOutline(lines: seq<string>, i: nat, delta: int, k: nat)
    requires i < |lines| && Match(lines[i]).Some? && Match(lines[i]).value.level + delta >= 1
    requires k < |Scan(Match, lines).bodyNodes| && Scan(Match, lines).bodyNodes[k] == i + 1
    ensures Scan(Match, lines[i := ChangeLevel(lines[i], delta)])
      == Relevel(Scan(Match, lines), k, delta, Match(lines[i]).value.title)
  {
    ChangeLevelReparses(lines[i], delta);
    ScanRelevel(Match, lines, i, ChangeLevel(lines[i], delta), delta, k);
  }
}
