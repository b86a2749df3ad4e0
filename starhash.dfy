/** Star-hash mode: headings are lines that start with a run of `#`
    (`# Title`, `##Title`), optionally behind the C comment opener
    `CommentLeader` (slash, star, space); the level is the length of the
    run. */
module StarHash {
  import opened Text
  import opened Outline

  const Char := '#'
  const CommentLeader := "/* "
  const Prefix1 := [Char]
  const Prefix2 := CommentLeader + [Char]
  const NewHeadingText := "NewHeadline"

  /** What the heading pattern yields: whether the comment opener was
      taken, the level (the length of group 1) and the remainder of the line
      after group 1. */
  datatype StarMatch = StarMatch(commented: bool, level: nat, rest: string)

  /** The heading pattern `^(?:/\* )?(#+)`, matched by hand. The optional
      comment opener is tried first; when no `#` follows it, the pattern
      backtracks and tries the `#` run at the start of the line. */
  function Match(line: string): (r: Option<StarMatch>)
    ensures r.Some? ==> r.value.level >= 1 && (r.value.rest == [] || r.value.rest[0] != Char)
    ensures r.Some? && r.value.commented ==> StartsWith(line, CommentLeader)
  {
    if StartsWith(line, CommentLeader) && Run(line[|CommentLeader|..], true, 0).Some? then
      Run(line[|CommentLeader|..], true, 0)
    else
      Run(line, false, 0)
  }

  /** Group 1, read one character at a time after `level` copies of `#`:
      every further `#` raises the level (the run is maximal), and at least
      one `#` is needed. */
  function Run(s: string, commented: bool, level: nat): (r: Option<StarMatch>)
    ensures r.Some? ==> r.value.commented == commented && r.value.level >= 1
    ensures r.Some? ==> r.value.rest == [] || r.value.rest[0] != Char
    decreases |s|
  {
    if s != [] && s[0] == Char then Run(s[1..], commented, level + 1)
    else if level >= 1 then Some(StarMatch(commented, level, s))
    else None
  }

  /** What `Run` accepts after `level` markers is the further markers and
      the returned remainder, which does not start with `#`. */
  lemma {:induction false} RunSound(s: string, commented: bool, level: nat)
    requires Run(s, commented, level).Some?
    ensures var m := Run(s, commented, level).value;
      level <= m.level && s == Repeat([Char], m.level - level) + m.rest && (m.rest == [] || m.rest[0] != Char)
    decreases |s|
  {
    if s != [] && s[0] == Char {
      var m := Run(s, commented, level).value;
      RunSound(s[1..], commented, level + 1);
      assert s == [Char] + s[1..];
    }
  }

  /** After `level` markers, `n` more markers and a remainder that does not
      start with `#` are read as a match of level `level + n`. */
  lemma {:induction false} RunComplete(s: string, commented: bool, level: nat, n: nat, rest: string)
    requires s == Repeat([Char], n) + rest && (rest == [] || rest[0] != Char) && level + n >= 1
    ensures Run(s, commented, level) == Some(StarMatch(commented, level + n, rest))
    decreases n
  {
    if n > 0 {
      assert s[0] == Char;
      assert s[1..] == Repeat([Char], n - 1) + rest;
      RunComplete(s[1..], commented, level + 1, n - 1, rest);
    } else {
      assert s == rest;
    }
  }

  /** The run needs one `#` and no more: `Run` succeeds exactly when a `#`
      has been read or comes next. */
  lemma {:induction false} RunSucceeds(s: string, commented: bool, level: nat)
    ensures Run(s, commented, level).Some? <==> level >= 1 || (s != [] && s[0] == Char)
    decreases |s|
  {
    if s != [] && s[0] == Char {
      RunSucceeds(s[1..], commented, level + 1);
    }
  }

  /** The pattern matches exactly the lines `hook_makeOutline` lets through
      (those starting with `Prefix1` or `Prefix2`, the opener followed by
      `#`), so its `m.group(1)` never fails there; the opener is part of the
      match exactly when the line starts with `Prefix2`. */
  lemma MatchIffPrefixed(line: string)
    ensures Match(line).Some? <==> StartsWith(line, Prefix1) || StartsWith(line, Prefix2)
    ensures Match(line).Some? ==> (Match(line).value.commented <==> StartsWith(line, Prefix2))
  {
    RunSucceeds(line, false, 0);
    if StartsWith(line, CommentLeader) {
      RunSucceeds(line[|CommentLeader|..], true, 0);
      assert line[0] == '/';
      if |line| > |CommentLeader| {
        assert line[..|Prefix2|] == line[..|CommentLeader|] + [line[|CommentLeader|]];
      }
    }
  }

  /** `line` is the optional opener, `level` copies of `#` and a remainder
      that does not start with `#`. */
  predicate Shape(line: string, m: StarMatch) {
    var body := Repeat([Char], m.level) + m.rest;
    (if m.commented then line == CommentLeader + body else line == body)
    && m.level >= 1 && (m.rest == [] || m.rest[0] != Char)
  }

  /** Every match splits its line into opener, marker run and remainder. */
  lemma MatchSound(line: string)
    requires Match(line).Some?
    ensures Shape(line, Match(line).value)
  {
    var m := Match(line).value;
    if m.commented {
      RunSound(line[|CommentLeader|..], true, 0);
      assert line == CommentLeader + line[|CommentLeader|..];
    } else {
      RunSound(line, false, 0);
    }
  }

  /** Every line of that shape is matched with its opener flag, level and
      remainder. */
  lemma MatchComplete(line: string, m: StarMatch)
    requires Shape(line, m)
    ensures Match(line) == Some(m)
  {
    var body := Repeat([Char], m.level) + m.rest;
    RunComplete(body, m.commented, 0, m.level, m.rest);
    if m.commented {
      assert StartsWith(line, CommentLeader) && line[|CommentLeader|..] == body;
    } else {
      RepeatChar(Char, m.level);
      assert line[0] == Char;
      assert !StartsWith(line, CommentLeader);
    }
  }

  /** The heading `hook_makeOutline` sees on a line: lines starting with
      `Prefix1` or `Prefix2` are matched (the match cannot fail there), and
      the title is the remainder stripped of whitespace at both ends. */
  function OutlineHeading(line: string): (r: Option<Heading>)
    ensures r.Some? ==> r.value.level >= 1
    ensures r.Some? && r.value.title != [] ==>
      !IsWhitespace(r.value.title[0]) && !IsWhitespace(r.value.title[|r.value.title| - 1])
  {
    if StartsWith(line, Prefix1) || StartsWith(line, Prefix2) then
      MatchIffPrefixed(line);
      var m := Match(line).value;
      StripEnds(m.rest);
      Some(Heading(m.level, Strip(m.rest)))
    else
      None
  }

  /** The outline holds exactly the lines that start with `#` or with the
      opener and `#`; each is read as its marker run's length and its
      remainder stripped of whitespace at both ends. */
  lemma OutlineHeadingSound(line: string)
    ensures OutlineHeading(line).Some? <==> StartsWith(line, Prefix1) || StartsWith(line, Prefix2)
    ensures OutlineHeading(line).Some? ==>
      exists m :: Shape(line, m) && OutlineHeading(line).value == Heading(m.level, Strip(m.rest))
  {
    if OutlineHeading(line).Some? {
      MatchIffPrefixed(line);
      MatchSound(line);
      var m := Match(line).value;
      assert Shape(line, m) && OutlineHeading(line).value == Heading(m.level, Strip(m.rest));
    }
  }

  /** No space is needed after the marker run: `#` repeated `level` times
      and then a title that starts with neither `#` nor whitespace is a
      heading of that level with that title. */
  lemma HeadingWithoutSpace(level: int, title: string)
    requires level >= 1 && title != [] && title[0] != Char
    requires !IsWhitespace(title[0]) && !IsWhitespace(title[|title| - 1])
    ensures OutlineHeading(Repeat([Char], level) + title) == Some(Heading(level, title))
  {
    var line := Repeat([Char], level) + title;
    RepeatChar(Char, level);
    MatchComplete(line, StarMatch(false, level, title));
    assert StartsWith(line, Prefix1);
    StripAfterGap("", title);
    assert "" + title == title;
  }

  /** Behind the comment opener: `/` `*` ` # Title` is a level-1 heading
      titled `Title`. */
  lemma CommentedExample()
    ensures OutlineHeading(CommentLeader + "# Title") == Some(Heading(1, "Title"))
  {
    var line := CommentLeader + "# Title";
    RepeatChar(Char, 1);
    assert line == CommentLeader + (Repeat([Char], 1) + " Title");
    MatchComplete(line, StarMatch(true, 1, " Title"));
    assert line[..|Prefix2|] == Prefix2;
    StripAfterGap(" ", "Title");
  }

  /** `hook_makeOutline`: scan the body lines and collect, for every heading,
      its tree line, its 1-based line number and its level. */
  method MakeOutline(bodyLines: seq<string>) returns (treeLines: seq<string>, bodyNodes: seq<int>, levels: seq<int>)
    ensures Outline(treeLines, bodyNodes, levels) == Scan(OutlineHeading, bodyLines)
    ensures |treeLines| == |bodyNodes| == |levels|
    ensures forall k :: 0 <= k < |bodyNodes| ==> 1 <= bodyNodes[k] <= |bodyLines|
    ensures forall j, k :: 0 <= j < k < |bodyNodes| ==> bodyNodes[j] < bodyNodes[k]
  {
    treeLines, bodyNodes, levels := [], [], [];
    var i := 0;
    while i < |bodyLines|
      invariant i <= |bodyLines|
      invariant Outline(treeLines, bodyNodes, levels) == Scan(OutlineHeading, bodyLines[..i])
    {
      assert bodyLines[..i + 1][..i] == bodyLines[..i];
      var line := bodyLines[i];
      if StartsWith(line, Prefix1) || StartsWith(line, Prefix2) {
        MatchIffPrefixed(line);
        var m := Match(line).value;
        var level, head := m.level, Strip(m.rest);
        treeLines := treeLines + [TreeLine(level, head)];
        bodyNodes := bodyNodes + [i + 1];
        levels := levels + [level];
      }
      i := i + 1;
    }
    assert bodyLines[..i] == bodyLines;
    ScanNodesOrdered(OutlineHeading, bodyLines);
  }

  /** `hook_newHeadline`: the tree text of the new heading and the body lines
      to insert, the heading written without the comment opener. The heading
      line reads back as the requested level and the returned tree text when
      the level is positive, and as no heading otherwise. */
  function NewHeadline(level: int): (r: (string, seq<string>))
    ensures |r.1| == 2
    ensures OutlineHeading(r.1[0]) == if level >= 1 then Some(Heading(level, r.0)) else None
  {
    NewHeadingLineParses(level);
    (NewHeadingText, [Repeat([Char], level) + " " + NewHeadingText, ""])
  }

  /** For a positive level, `"#" * level + " NewHeadline"` is a heading of
      that level titled `NewHeadline`; for a level of 0 or less it starts
      with a space and is no heading. */
  lemma NewHeadingLineParses(level: int)
    ensures OutlineHeading(Repeat([Char], level) + " " + NewHeadingText)
      == if level >= 1 then Some(Heading(level, NewHeadingText)) else None
  {
    var first := Repeat([Char], level) + " " + NewHeadingText;
    if level >= 1 {
      RepeatChar(Char, level);
      MatchComplete(first, StarMatch(false, level, " " + NewHeadingText));
      assert StartsWith(first, Prefix1);
      StripAfterGap(" ", NewHeadingText);
    } else {
      assert first == " " + NewHeadingText;
    }
  }

  /** For a positive level the inserted lines outline to exactly one heading,
      on their first line, at the requested level, showing the returned tree
      text; for a level of 0 or less they hold no heading at all. */
  lemma NewHeadlineOutline(level: int)
    ensures var (text, lines) := NewHeadline(level);
      Scan(OutlineHeading, lines)
      == if level >= 1 then Outline([TreeLine(level, text)], [1], [level]) else Outline([], [], [])
  {
    var lines := NewHeadline(level).1;
    assert lines[..1][..0] == [];
    if level >= 1 {
      assert Scan(OutlineHeading, lines[..1]) == Outline([TreeLine(level, NewHeadingText)], [1], [level]);
    } else {
      assert Scan(OutlineHeading, lines[..1]) == Outline([], [], []);
    }
    assert lines[..|lines| - 1] == lines[..1];
    assert OutlineHeading(lines[1]) == None;
  }

  /** `hook_changeLevBodyHead`: a zero delta returns the line untouched;
      otherwise the line must match the pattern, and its marker run is
      replaced by `level + delta` copies of `#` (none when that is 0 or
      less; the source has no assertion here), the remainder kept verbatim
      and the comment opener put back when the line started with `Prefix2`. */
  function ChangeLevel(line: string, delta: int): (r: string)
    requires delta != 0 ==> Match(line).Some?
    ensures delta == 0 ==> r == line
  {
    if delta == 0 then line
    else
      var m := Match(line).value;
      var rewritten := Repeat([Char], m.level + delta) + m.rest;
      if StartsWith(line, Prefix2) then CommentLeader + rewritten else rewritten
  }

  /** A non-zero change of level turns any line of the pattern's shape into
      the opener (exactly when the line had it), `level + delta` copies of
      `#` (none when that is 0 or less) and the remainder, kept verbatim. */
  lemma ChangeLevelShape(line: string, m: StarMatch, delta: int)
    requires Shape(line, m) && delta != 0
    ensures Match(line) == Some(m)
    ensures ChangeLevel(line, delta)
      == if m.commented then CommentLeader + (Repeat([Char], m.level + delta) + m.rest)
         else Repeat([Char], m.level + delta) + m.rest
  {
    MatchComplete(line, m);
    MatchIffPrefixed(line);
  }

  /** When the new level is positive the rewritten line matches with the
      same opener flag and remainder at the new level. */
  lemma ChangeLevelMatch(line: string, delta: int)
    requires delta != 0 && Match(line).Some? && Match(line).value.level + delta >= 1
    ensures Match(ChangeLevel(line, delta))
      == Some(StarMatch(Match(line).value.commented, Match(line).value.level + delta, Match(line).value.rest))
  {
    var m := Match(line).value;
    MatchSound(line);
    ChangeLevelShape(line, m, delta);
    MatchComplete(ChangeLevel(line, delta), StarMatch(m.commented, m.level + delta, m.rest));
  }

  /** When the new level is 0 or less every `#` of the run goes: what is
      left is the opener (if the line had one) and the remainder. */
  lemma ChangeLevelDropsMarkers(line: string, delta: int)
    requires delta != 0 && Match(line).Some? && Match(line).value.level + delta <= 0
    ensures ChangeLevel(line, delta)
      == if Match(line).value.commented then CommentLeader + Match(line).value.rest else Match(line).value.rest
  {
    MatchSound(line);
    ChangeLevelShape(line, Match(line).value, delta);
    assert Repeat([Char], Match(line).value.level + delta) == [];
  }

  /** Changing a level and changing it back gives back the very same line,
      as long as the intermediate level stays positive. */
  lemma ChangeLevelRoundTrip(line: string, delta: int)
    requires Match(line).Some? && Match(line).value.level + delta >= 1
    ensures delta != 0 ==> Match(ChangeLevel(line, delta)).Some?
    ensures ChangeLevel(ChangeLevel(line, delta), -delta) == line
  {
    if delta != 0 {
      var m := Match(line).value;
      var moved := ChangeLevel(line, delta);
      ChangeLevelMatch(line, delta);
      MatchSound(moved);
      ChangeLevelShape(moved, Match(moved).value, -delta);
      MatchSound(line);
    }
  }

  /** As the outline reads it, a rewritten heading has its level moved by
      `delta` and its title kept, as long as the new level is positive. */
  lemma ChangeLevelReparses(line: string, delta: int)
    requires OutlineHeading(line).Some? && OutlineHeading(line).value.level + delta >= 1
    ensures Match(line).Some?
    ensures Relevelled(OutlineHeading, line, ChangeLevel(line, delta), delta)
  {
    MatchIffPrefixed(line);
    if delta != 0 {
      var x := ChangeLevel(line, delta);
      ChangeLevelMatch(line, delta);
      MatchIffPrefixed(x);
    }
  }

  /** Changing the level of the heading that outline entry `k` points at
      changes the outline in that entry only: the body nodes stay, its level
      moves by `delta` and its tree line is redrawn with the same title. */
  lemma ChangeLevelInOutline(lines: seq<string>, i: nat, delta: int, k: nat)
    requires i < |lines| && OutlineHeading(lines[i]).Some? && OutlineHeading(lines[i]).value.level + delta >= 1
    requires k < |Scan(OutlineHeading, lines).bodyNodes| && Scan(OutlineHeading, lines).bodyNodes[k] == i + 1
    ensures Match(lines[i]).Some?
    ensures Scan(OutlineHeading, lines[i := ChangeLevel(lines[i], delta)])
      == Relevel(Scan(OutlineHeading, lines), k, delta, OutlineHeading(lines[i]).value.title)
  {
    ChangeLevelReparses(lines[i], delta);
    ScanRelevel(OutlineHeading, lines, i, ChangeLevel(lines[i], delta), delta, k);
  }
}
