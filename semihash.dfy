/** Semicolon/hash mode: headings are lines `;= Title`, `;## Title`, ...,
    optionally without the `;`; the level is the length of the marker run,
    which is all `=` or all `#`. */
module SemiHash {
  import opened Text
  import opened Outline
  import Markers

  const Leader := ";"
  const Leader2 := "#"
  const NewHeadingLevelChar := '='
  const NewHeadingText := "NewHeadline"

  predicate IsLevelChar(c: char) {
    c == '=' || c == '#'
  }

  /** What the heading pattern captures: the marker character (the first
      character of group 1), the level (the length of group 1) and the title
      (group 2). */
  datatype HeadingMatch = HeadingMatch(levelChar: char, level: nat, title: string)

  /** What every match satisfies: a marker character `=` or `#`, a positive
      level, and a title starting with a non-whitespace character. */
  predicate Wellformed(m: HeadingMatch) {
    IsLevelChar(m.levelChar) && m.level >= 1 && m.title != [] && !IsWhitespace(m.title[0])
  }

  /** The line without its optional `;` leader. */
  function DropLeader(line: string): string {
    if StartsWith(line, Leader) then line[|Leader|..] else line
  }

  /** The part of the heading pattern after the optional `;`: a maximal run
      of `=` or of `#` (never mixed), at least one whitespace character, and a
      title running from the first non-whitespace character to the end of the
      line, trailing whitespace included, as `Markers.Read` reads them for the
      marker character the line starts with. */
  function MatchMarkers(rest: string): (r: Option<HeadingMatch>)
    ensures r.Some? ==> Wellformed(r.value)
  {
    if rest == [] || !IsLevelChar(rest[0]) then None
    else
      match Markers.Read(rest, rest[0], 0)
      case None => None
      case Some(h) => Some(HeadingMatch(rest[0], h.level, h.title))
  }

  /** The heading pattern `^;?(=+|#+)\s+(\S.*)\S*$`, matched by hand. The
      `;` is taken whenever present: without it the marker run would have to
      start at the `;`, which it cannot. */
  function Match(line: string): (r: Option<HeadingMatch>)
    ensures r.Some? ==> Wellformed(r.value)
  {
    MatchMarkers(DropLeader(line))
  }

  /** The heading `hook_makeOutline` sees on a line: only lines starting
      with `;` or `#` are tried against the pattern. */
  function OutlineHeading(line: string): (r: Option<Heading>)
    ensures r.Some? ==> StartsWith(line, Leader) || StartsWith(line, Leader2)
    ensures r.Some? ==> r.value.level >= 1 && r.value.title != [] && !IsWhitespace(r.value.title[0])
  {
    if StartsWith(line, Leader) || StartsWith(line, Leader2) then
      match Match(line)
      case None => None
      case Some(m) => Some(Heading(m.level, m.title))
    else
      None
  }

  /** `rest` is `c * level + gap + title`, where `c` is `=` or `#`, the gap
      is non-empty whitespace and the title starts with a non-whitespace
      character. */
  predicate MarkersShape(rest: string, m: HeadingMatch, gap: string) {
    rest == Repeat([m.levelChar], m.level) + gap + m.title
    && IsLevelChar(m.levelChar) && m.level >= 1
    && gap != [] && AllWhitespace(gap) && m.title != [] && !IsWhitespace(m.title[0])
  }

  /** `line` is `leader + c * level + gap + title`, where the leader is `;`
      or nothing and the rest has the shape above. */
  predicate Shape(line: string, semicolon: bool, m: HeadingMatch, gap: string) {
    var rest := Repeat([m.levelChar], m.level) + gap + m.title;
    (if semicolon then line == Leader + rest else line == rest) && MarkersShape(rest, m, gap)
  }

  /** Everything `MatchMarkers` accepts is a marker run, a gap and the
      returned title. */
  lemma MarkersSound(rest: string)
    requires MatchMarkers(rest).Some?
    ensures exists gap :: MarkersShape(rest, MatchMarkers(rest).value, gap)
  {
    var m := MatchMarkers(rest).value;
    Markers.ReadSound(rest, m.levelChar, 0);
    assert MarkersShape(rest, m, rest[m.level..|rest| - |m.title|]);
  }

  /** Every marker run, gap and title is accepted with its marker, level and
      title. */
  lemma MarkersComplete(rest: string, m: HeadingMatch, gap: string)
    requires MarkersShape(rest, m, gap)
    ensures MatchMarkers(rest) == Some(m)
  {
    RepeatChar(m.levelChar, m.level);
    assert rest[0] == m.levelChar;
    Markers.ReadComplete(rest, m.levelChar, 0, m.level, gap, m.title);
  }

  /** Every line `Match` accepts has the shape of the pattern, with the
      returned marker, level and title; the leader is `;` exactly when the
      line starts with one. */
  lemma MatchSound(line: string)
    requires Match(line).Some?
    ensures exists gap :: Shape(line, StartsWith(line, Leader), Match(line).value, gap)
  {
    var rest := DropLeader(line);
    MarkersSound(rest);
    var m := MatchMarkers(rest).value;
    var gap :| MarkersShape(rest, m, gap);
    if StartsWith(line, Leader) {
      assert line == Leader + rest;
      assert Shape(line, true, m, gap);
    } else {
      assert line == rest;
      assert Shape(line, false, m, gap);
    }
  }

  /** Every line of the pattern's shape is accepted by `Match`, with its
      marker, level and title. */
  lemma MatchComplete(line: string, semicolon: bool, m: HeadingMatch, gap: string)
    requires Shape(line, semicolon, m, gap)
    ensures Match(line) == Some(m)
  {
    var rest := Repeat([m.levelChar], m.level) + gap + m.title;
    RepeatChar(m.levelChar, m.level);
    assert rest[0] == m.levelChar;
    if semicolon {
      assert line == Leader + rest;
      assert DropLeader(line) == rest;
    } else {
      assert line == rest;
      assert DropLeader(line) == rest;
    }
    MarkersComplete(rest, m, gap);
  }

  /** The outline's headings are the pattern's matches on lines that start
      with `;` or `#`: a match on a line with neither is dropped. */
  lemma OutlineHeadingSound(line: string)
    requires OutlineHeading(line).Some?
    ensures StartsWith(line, Leader) || StartsWith(line, Leader2)
    ensures exists m, gap ::
      Shape(line, StartsWith(line, Leader), m, gap) && OutlineHeading(line).value == Heading(m.level, m.title)
  {
    MatchSound(line);
    var m := Match(line).value;
    var gap :| Shape(line, StartsWith(line, Leader), m, gap);
    assert OutlineHeading(line).value == Heading(m.level, m.title);
  }

  /** Every line of the pattern's shape that has the `;` leader or a `#`
      marker run is in the outline with its level and title. */
  lemma OutlineHeadingComplete(line: string, semicolon: bool, m: HeadingMatch, gap: string)
    requires Shape(line, semicolon, m, gap) && (semicolon || m.levelChar == '#')
    ensures OutlineHeading(line) == Some(Heading(m.level, m.title))
  {
    MatchComplete(line, semicolon, m, gap);
    RepeatChar(m.levelChar, m.level);
    if semicolon {
      assert line == Leader + (Repeat([m.levelChar], m.level) + gap + m.title);
      assert StartsWith(line, Leader);
    } else {
      assert line[0] == m.levelChar;
      assert StartsWith(line, Leader2);
    }
  }

  /** A bare `=` heading such as `= Title` matches the pattern but fails the
      `;`/`#` filter of `hook_makeOutline`, so it is not in the outline. */
  lemma BareEqualsNotOutlined(line: string, m: HeadingMatch, gap: string)
    requires Shape(line, false, m, gap) && m.levelChar == '='
    ensures Match(line) == Some(m)
    ensures OutlineHeading(line) == None
  {
    MatchComplete(line, false, m, gap);
    RepeatChar(m.levelChar, m.level);
    assert line[0] == '=';
  }

  /** `make_heading_line`: `";" + c * level + " " + title`, always with the
      `;` leader. */
  function MakeHeadingLine(level: int, levelChar: char, title: string): (r: string)
    ensures StartsWith(r, Leader)
  {
    Leader + Repeat([levelChar], level) + " " + title
  }

  /** For a marker `=` or `#` and a title that starts with a non-whitespace
      character, the line `make_heading_line` builds reads back as a heading
      with that marker, level and title when the level is positive, and as no
      heading otherwise. */
  lemma MakeHeadingLineMatch(level: int, levelChar: char, title: string)
    requires IsLevelChar(levelChar) && title != [] && !IsWhitespace(title[0])
    ensures Match(MakeHeadingLine(level, levelChar, title))
      == if level >= 1 then Some(HeadingMatch(levelChar, level, title)) else None
  {
    var line := MakeHeadingLine(level, levelChar, title);
    if level >= 1 {
      MatchComplete(line, true, HeadingMatch(levelChar, level, title), " ");
    } else {
      assert line[|Leader|..][0] == ' ';
    }
  }

  /** `hook_makeOutline`: scan the body lines and collect, for every heading,
      its tree line, its 1-based line number and its level. */
  method MakeOutline(bodyLines: seq<string>) returns (treeLines: seq<string>, bodyNodes: seq<int>, levels: seq<int>)
    ensures Outline(treeLines, bodyNodes, levels) == Scan(OutlineHeading, bodyLines)
    ensures |treeLines| == |bodyNodes| == |levels|
    ensures forall k :: 0 <= k < |bodyNodes| ==> 1 <= bodyNodes[k] <= |bodyLines|
    ensures forall j, k :: 0 <= j < k < |bodyNodes| ==> bodyNodes[j] < bodyNodes[k]
  {
    treeLines, bodyNodes, levels := [], [], [];
    var i := 0;
    while i < |bodyLines|
      invariant i <= |bodyLines|
      invariant Outline(treeLines, bodyNodes, levels) == Scan(OutlineHeading, bodyLines[..i])
    {
      assert bodyLines[..i + 1][..i] == bodyLines[..i];
      var line := bodyLines[i];
      if StartsWith(line, Leader) || StartsWith(line, Leader2) {
        var m := Match(line);
        if m.Some? {
          var level, headingText := m.value.level, m.value.title;
          treeLines := treeLines + [TreeLine(level, headingText)];
          bodyNodes := bodyNodes + [i + 1];
          levels := levels + [level];
        }
      }
      i := i + 1;
    }
    assert bodyLines[..i] == bodyLines;
    ScanNodesOrdered(OutlineHeading, bodyLines);
  }

  /** `hook_newHeadline`: the tree text of the new heading and the body lines
      to insert, the heading always written with `;` and `=`. */
  function NewHeadline(level: int): (r: (string, seq<string>))
    ensures |r.1| == 2 && StartsWith(r.1[0], Leader)
    ensures Match(r.1[0]) == if level >= 1 then Some(HeadingMatch(NewHeadingLevelChar, level, r.0)) else None
  {
    MakeHeadingLineMatch(level, NewHeadingLevelChar, NewHeadingText);
    (NewHeadingText, [MakeHeadingLine(level, NewHeadingLevelChar, NewHeadingText), ""])
  }

  /** For a positive level the inserted lines outline to exactly one heading,
      on their first line, at the requested level, showing the returned tree
      text; for a level of 0 or less they hold no heading at all. */
  lemma NewHeadlineOutline(level: int)
    ensures var (text, lines) := NewHeadline(level);
      Scan(OutlineHeading, lines)
      == if level >= 1 then Outline([TreeLine(level, text)], [1], [level]) else Outline([], [], [])
  {
    var lines := NewHeadline(level).1;
    assert lines[..1][..0] == [];
    if level >= 1 {
      OutlineHeadingOfCanonical(level, NewHeadingLevelChar, NewHeadingText);
      assert Scan(OutlineHeading, lines[..1]) == Outline([TreeLine(level, NewHeadingText)], [1], [level]);
    } else {
      MakeHeadingLineMatch(level, NewHeadingLevelChar, NewHeadingText);
      assert Scan(OutlineHeading, lines[..1]) == Outline([], [], []);
    }
    assert lines[..|lines| - 1] == lines[..1];
    assert OutlineHeading(lines[1]) == None;
  }

  /** `hook_changeLevBodyHead`: rewrite a heading line to `level + delta`,
      keeping its marker character and title. A zero delta returns the line
      untouched; otherwise the line must match the pattern, the new level must
      not be negative (the source asserts it), and the line is rebuilt with
      the `;` leader even when it had none. */
  function ChangeLevel(line: string, delta: int): (r: string)
    requires delta != 0 ==> Match(line).Some? && Match(line).value.level + delta >= 0
    ensures delta == 0 ==> r == line
    ensures delta != 0 ==> StartsWith(r, Leader)
  {
    if delta == 0 then line
    else
      var m := Match(line).value;
      MakeHeadingLine(m.level + delta, m.levelChar, m.title)
  }

  /** A non-zero change of level turns any line of the pattern's shape, with
      or without the `;` leader, into `";" + c * (level + delta) + " " +
      title`: the leader is forced, the marker character is kept, whatever
      whitespace gap there was becomes one space, and the title is kept
      verbatim. */
  lemma ChangeLevelCanonical(line: string, semicolon: bool, m: HeadingMatch, gap: string, delta: int)
    requires Shape(line, semicolon, m, gap) && delta != 0 && m.level + delta >= 0
    ensures Match(line) == Some(m)
    ensures ChangeLevel(line, delta) == Leader + Repeat([m.levelChar], m.level + delta) + " " + m.title
  {
    MatchComplete(line, semicolon, m, gap);
  }

  /** The rewritten line reads back with the same marker and title at the new
      level; at level 0 it is no heading. */
  lemma ChangeLevelMatch(line: string, delta: int)
    requires delta != 0 && Match(line).Some? && Match(line).value.level + delta >= 0
    ensures Match(ChangeLevel(line, delta))
      == if Match(line).value.level + delta >= 1
         then Some(HeadingMatch(Match(line).value.levelChar, Match(line).value.level + delta, Match(line).value.title))
         else None
  {
    var m := Match(line).value;
    MakeHeadingLineMatch(m.level + delta, m.levelChar, m.title);
  }

  /** Changing a level and changing it back yields the canonical form of the
      heading (`;` leader, the same marker character, a single space before
      the title). */
  lemma ChangeLevelRoundTrip(line: string, delta: int)
    requires Match(line).Some? && Match(line).value.level + delta >= 1
    ensures delta != 0 ==>
      Match(ChangeLevel(line, delta))
      == Some(HeadingMatch(Match(line).value.levelChar, Match(line).value.level + delta, Match(line).value.title))
    ensures ChangeLevel(ChangeLevel(line, delta), -delta)
      == if delta == 0 then line
         else MakeHeadingLine(Match(line).value.level, Match(line).value.levelChar, Match(line).value.title)
  {
    if delta != 0 {
      var m := Match(line).value;
      ChangeLevelMatch(line, delta);
    }
  }

  /** The rewrite forces the `;` leader: a heading written without it, such
      as `# Title`, comes back from a change of level and back with `;` in
      front (`;# Title`). */
  lemma BareHeadingGainsLeader(n: int, levelChar: char, title: string, delta: int)
    requires n >= 1 && n + delta >= 1 && delta != 0
    requires IsLevelChar(levelChar) && title != [] && !IsWhitespace(title[0])
    ensures Match(Repeat([levelChar], n) + " " + title) == Some(HeadingMatch(levelChar, n, title))
    ensures Match(ChangeLevel(Repeat([levelChar], n) + " " + title, delta))
      == Some(HeadingMatch(levelChar, n + delta, title))
    ensures ChangeLevel(ChangeLevel(Repeat([levelChar], n) + " " + title, delta), -delta)
      == Leader + Repeat([levelChar], n) + " " + title
  {
    var line := Repeat([levelChar], n) + " " + title;
    MatchComplete(line, false, HeadingMatch(levelChar, n, title), " ");
    ChangeLevelRoundTrip(line, delta);
  }

  /** A heading written as `";" + c * n + " " + t` survives any change of
      level and back, as long as the intermediate level stays positive. */
  lemma CanonicalRoundTrip(n: int, levelChar: char, title: string, delta: int)
    requires n >= 1 && n + delta >= 1 && IsLevelChar(levelChar) && title != [] && !IsWhitespace(title[0])
    ensures Match(MakeHeadingLine(n, levelChar, title)) == Some(HeadingMatch(levelChar, n, title))
    ensures delta != 0 ==>
      Match(ChangeLevel(MakeHeadingLine(n, levelChar, title), delta)) == Some(HeadingMatch(levelChar, n + delta, title))
    ensures ChangeLevel(ChangeLevel(MakeHeadingLine(n, levelChar, title), delta), -delta)
      == MakeHeadingLine(n, levelChar, title)
  {
    MakeHeadingLineMatch(n, levelChar, title);
    if delta != 0 {
      ChangeLevelRoundTrip(MakeHeadingLine(n, levelChar, title), delta);
    }
  }

  /** The outline reads a canonical heading line with its level and title. */
  lemma OutlineHeadingOfCanonical(n: int, levelChar: char, title: string)
    requires n >= 1 && IsLevelChar(levelChar) && title != [] && !IsWhitespace(title[0])
    ensures OutlineHeading(MakeHeadingLine(n, levelChar, title)) == Some(Heading(n, title))
  {
    MakeHeadingLineMatch(n, levelChar, title);
  }

  /** As the outline reads it, a rewritten heading has its level moved by
      `delta` and its title kept, as long as the new level is positive. */
  lemma ChangeLevelReparses(line: string, delta: int)
    requires OutlineHeading(line).Some? && OutlineHeading(line).value.level + delta >= 1
    ensures Match(line).Some?
    ensures Relevelled(OutlineHeading, line, ChangeLevel(line, delta), delta)
  {
    var m := Match(line).value;
    assert OutlineHeading(line) == Some(Heading(m.level, m.title));
    if delta != 0 {
      OutlineHeadingOfCanonical(m.level + delta, m.levelChar, m.title);
    }
  }

  /** Changing the level of the heading that outline entry `k` points at
      changes the outline in that entry only: the body nodes stay, its level
      moves by `delta` and its tree line is redrawn with the same title. */
  lemma ChangeLevelInOutline(lines: seq<string>, i: nat, delta: int, k: nat)
    requires i < |lines| && OutlineHeading(lines[i]).Some? && OutlineHeading(lines[i]).value.level + delta >= 1
    requires k < |Scan(OutlineHeading, lines).bodyNodes| && Scan(OutlineHeading, lines).bodyNodes[k] == i + 1
    ensures Match(lines[i]).Some?
    ensures Scan(OutlineHeading, lines[i := ChangeLevel(lines[i], delta)])
      == Relevel(Scan(OutlineHeading, lines), k, delta, OutlineHeading(lines[i]).value.title)
  {
    ChangeLevelReparses(lines[i], delta);
    ScanRelevel(OutlineHeading, lines, i, ChangeLevel(lines[i], delta), delta, k);
  }
}
