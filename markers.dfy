/** The tail `c+\s+(\S.*)\S*$` that the hash-equals and semicolon/hash
    heading patterns share: a maximal run of one marker character, at least
    one whitespace character, and a title running from the first
    non-whitespace character to the end of the line. It is read one
    character at a time, the way the regular expression engine walks it. */
module Markers {
  import opened Text
  import opened Outline

  /** Reads the tail after `level` copies of `c` have been read: every
      further `c` raises the level (the run is maximal); then at least one
      whitespace character must follow, and the title is what is left once
      leading whitespace is dropped, trailing whitespace included. */
  function Read(s: string, c: char, level: nat): (r: Option<Heading>)
    ensures r.Some? ==> r.value.level >= 1 && r.value.title != [] && !IsWhitespace(r.value.title[0])
    decreases |s|
  {
    if s != [] && s[0] == c then Read(s[1..], c, level + 1)
    else if level >= 1 && s != [] && IsWhitespace(s[0]) && TrimLeft(s) != [] then
      SpaceEndSpec(s, 0);
      Some(Heading(level, TrimLeft(s)))
    else None
  }

  /** `s` is `n` copies of `c`, a non-empty whitespace gap and `title`. */
  predicate Split(s: string, c: char, n: nat, title: string) {
    n + |title| < |s| && AllWhitespace(s[n..|s| - |title|])
    && s == Repeat([c], n) + s[n..|s| - |title|] + title
  }

  /** Where the run ends, a whitespace character and a non-empty trimmed
      title split `s` into gap and title. */
  lemma SplitBase(s: string, c: char, title: string)
    requires title == TrimLeft(s) && title != [] && s != [] && IsWhitespace(s[0])
    ensures Split(s, c, 0, title)
  {
    var k := SpaceEnd(s, 0);
    SpaceEndSpec(s, 0);
    assert s[0..|s| - |title|] == s[..k];
    assert s == s[..k] + title;
  }

  /** One more marker in front of a split string. */
  lemma SplitCons(s: string, c: char, n: nat, title: string)
    requires s != [] && s[0] == c && Split(s[1..], c, n, title)
    ensures Split(s, c, n + 1, title)
  {
    assert s[1..][n..|s| - 1 - |title|] == s[n + 1..|s| - |title|];
    assert s == [c] + s[1..];
  }

  /** What `Read` accepts after `level` markers is the further markers, a
      gap and the returned title. */
  lemma {:induction false} ReadSound(s: string, c: char, level: nat)
    requires Read(s, c, level).Some?
    ensures level <= Read(s, c, level).value.level
    ensures Split(s, c, Read(s, c, level).value.level - level, Read(s, c, level).value.title)
    decreases |s|
  {
    var h := Read(s, c, level).value;
    if s != [] && s[0] == c {
      ReadSound(s[1..], c, level + 1);
      SplitCons(s, c, h.level - level - 1, h.title);
    } else {
      SplitBase(s, c, h.title);
    }
  }

  /** For a marker that is not whitespace: after `level` markers, `n` more
      markers, a whitespace gap and a title that starts with a
      non-whitespace character are read as a heading of level `level + n`
      with that title. */
  lemma {:induction false} ReadComplete(s: string, c: char, level: nat, n: nat, gap: string, title: string)
    requires !IsWhitespace(c) && s == Repeat([c], n) + gap + title
    requires level + n >= 1 && gap != [] && AllWhitespace(gap) && title != [] && !IsWhitespace(title[0])
    ensures Read(s, c, level) == Some(Heading(level + n, title))
    decreases n
  {
    if n > 0 {
      assert s[0] == c;
      assert s[1..] == Repeat([c], n - 1) + gap + title;
      ReadComplete(s[1..], c, level + 1, n - 1, gap, title);
    } else {
      assert s == gap + title;
      SpaceEndOf(s, 0, |gap|);
    }
  }
}
