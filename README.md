# VOoM outline modes in Dafny

VOoM is a two-pane outliner for Vim. A *markup mode* tells it which body
lines are headings. This project models four modes: hash-equals (`# = Title`),
semicolon/hash (`;== Title`, `## Title`), star-hash (`## Title`,
`/* # Title`) and Go (`func name(`). Each mode has three entry points:

- `hook_makeOutline` scans the body lines. It returns three aligned lists:
  tree lines `"  " + ". " * (level - 1) + "|" + title`, 1-based body line
  numbers, and levels.
- `hook_newHeadline` builds the body lines for a new heading.
- `hook_changeLevBodyHead` rewrites one heading line to another level.

Layout:

- `text.dfy` (`Text`): the whitespace set used for both `\s` and
  `str.strip()`, Python's `str * int` (`Repeat`), `startswith`, maximal-run
  scanners and `Strip`.
- `outline.dfy` (`Outline`): the `Heading` and `Outline` values, the tree-line
  format, and `Scan`. `Scan` is the filter-map specification that every
  mode's `MakeOutline` loop is proved to compute. Soundness, completeness,
  ordering and "replace one heading line" are proved once here, for any
  recogniser.
- `markers.dfy` (`Markers`): the hand-written matcher for the tail
  `c+\s+(\S.*)\S*$`. The hash-equals and semicolon/hash patterns share it.
- `hasheq.dfy`, `semihash.dfy`, `starhash.dfy`, `golang.dfy`: one module
  per mode. Each has:
  - a hand-written matcher for the mode's regular expression. It is proved
    sound and complete against a predicate that spells out the pattern:
    `Shape` in the first three modes, `GroupEnd` in the Go mode;
  - `MakeOutline`, a method with a loop that appends to three sequences;
  - `NewHeadline` and `ChangeLevel`, pure functions.
- The hash-equals, semicolon/hash and star-hash modes also have round-trip
  and "rewrite then re-parse" lemmas, and a lemma that says how a level
  change moves the outline. The Go mode does not support level changes: its
  `ChangeLevel` returns the line as it is, and `ChangeLevelKeepsOutline`
  states that the outline stays the same.

## Model

| member | source | states |
|---|---|---|
| Text.RepeatChar | autoload/voom/voom_vimplugin2657/voom_mode_hasheq.py:115 | `c * n` has `n` characters, or none when `n <= 0`, and every one of them is `c`. |
| Text.RepeatShape | autoload/voom/voom_vimplugin2657/voom_mode_hasheq.py:120 | `". " * n` has `2n` characters, or none when `n <= 0`, all taken from `". "`. |
| Text.StripSlice | autoload/voom/voom_vimplugin2657/voom_mode_starhash.py:50 | `strip()` yields the contiguous slice between the leading whitespace and the trailing whitespace. |
| Text.StripEnds | autoload/voom/voom_vimplugin2657/voom_mode_starhash.py:50 | A stripped string is empty, or it starts and ends with a non-whitespace character. |
| Text.StripEmpty | autoload/voom/voom_vimplugin2657/voom_mode_golang.py:41 | A stripped string is empty exactly when the input is all whitespace. |
| Text.StripAfterGap | autoload/voom/voom_vimplugin2657/voom_mode_starhash.py:50 | Whitespace followed by a text with non-whitespace ends strips to that text. |
| Outline.TreeLineDecode | autoload/voom/voom_vimplugin2657/voom_mode_hasheq.py:118-120 | The tree line of a level >= 1 heading has length `2*level + 1 + \|title\|`. Its first `\|` is at index `2*level`, and the title follows it. |
| Outline.TreeLine | autoload/voom/voom_vimplugin2657/voom_mode_hasheq.py:118-120 | A tree line starts with two spaces and ends with `\|` followed by the title verbatim. |
| Outline.Scan | autoload/voom/voom_vimplugin2657/voom_mode_semihash.py:50-71 | The three outline lists always have equal length. |
| Outline.ScanNodesOrdered | autoload/voom/voom_vimplugin2657/voom_mode_semihash.py:54-69 | Body nodes are 1-based line numbers within the body, strictly increasing. |
| Outline.ScanSound | autoload/voom/voom_vimplugin2657/voom_mode_hasheq.py:46-60 | Each outline entry points at a recognised line, with that line's level and tree line. |
| Outline.ScanComplete | autoload/voom/voom_vimplugin2657/voom_mode_hasheq.py:46-60 | Every recognised line appears among the body nodes. |
| Outline.ScanReplace | autoload/voom/voom_vimplugin2657/voom_mode_hasheq.py:46-60 | Replacing entry `k`'s heading line by another heading changes only entry `k`'s level and tree line. |
| Outline.ScanRelevel | autoload/voom/voom_vimplugin2657/voom_mode_hasheq.py:46-60 | If a heading line is replaced by one with the same title and its level moved by `delta`, entry `k`'s level moves by `delta`. Its tree line is redrawn, and nothing else changes. |
| Markers.Read | autoload/voom/voom_vimplugin2657/voom_mode_hasheq.py:108 | Every match of `c+\s+(\S.*)\S*$` has level >= 1 and a non-empty title starting with non-whitespace. |
| Markers.ReadSound | autoload/voom/voom_vimplugin2657/voom_mode_hasheq.py:108 | An accepted tail splits into `level` markers, a non-empty whitespace gap and the title. |
| Markers.ReadComplete | autoload/voom/voom_vimplugin2657/voom_mode_hasheq.py:108 | Every marker run + whitespace gap + non-whitespace-led title is read with the run's length and that title. Trailing whitespace stays in the title. |
| HashEq.Match | autoload/voom/voom_vimplugin2657/voom_mode_hasheq.py:108 | A match has level >= 1 and a title starting with non-whitespace. |
| HashEq.MatchSound | autoload/voom/voom_vimplugin2657/voom_mode_hasheq.py:47-55 | Every heading line is `"# " + "=" * level + gap + title`, with a maximal `=` run, whitespace gap and non-whitespace-led title. |
| HashEq.MatchComplete | autoload/voom/voom_vimplugin2657/voom_mode_hasheq.py:47-55 | Every line of that shape is a heading with that level and title. |
| HashEq.MakeHeadingLine | autoload/voom/voom_vimplugin2657/voom_mode_hasheq.py:113-115 | A built heading line always starts with the leader `# `. |
| HashEq.MakeHeadingLineMatch | autoload/voom/voom_vimplugin2657/voom_mode_hasheq.py:113-115 | A built line re-parses to its level and title for level >= 1, and is no heading for level <= 0. |
| HashEq.MakeOutline | autoload/voom/voom_vimplugin2657/voom_mode_hasheq.py:35-62 | The loop computes `Scan(Match, lines)`: equal lengths, 1-based strictly increasing nodes. |
| HashEq.NewHeadline | autoload/voom/voom_vimplugin2657/voom_mode_hasheq.py:67-79 | Two body lines, whose first reads back as the requested level and the returned tree text for level >= 1, and as no heading otherwise. |
| HashEq.NewHeadlineOutline | autoload/voom/voom_vimplugin2657/voom_mode_hasheq.py:67-79 | The new lines outline to one heading `NewHeadline` on line 1 at the requested level, or to nothing for level <= 0. |
| HashEq.ChangeLevel | autoload/voom/voom_vimplugin2657/voom_mode_hasheq.py:84-99 | Delta 0 returns the line unchanged. Any other delta yields a line with the `# ` leader. A match and `level + delta >= 0` are required. |
| HashEq.ChangeLevelCanonical | autoload/voom/voom_vimplugin2657/voom_mode_hasheq.py:92-99 | Any line `"# " + "=" * n + gap + title` of the pattern's shape, changed by a non-zero delta with `n + delta >= 0`, becomes `"# " + "=" * (n + delta) + " " + title`: the gap becomes one space and the title is kept verbatim. |
| HashEq.ChangeLevelMatch | autoload/voom/voom_vimplugin2657/voom_mode_hasheq.py:92-99 | The rewritten line re-parses with the same title at `level + delta`. At level 0 it is no heading. |
| HashEq.ChangeLevelRoundTrip | autoload/voom/voom_vimplugin2657/voom_mode_hasheq.py:84-99 | Changing by `d` and then by `-d` yields the line's canonical form (the line itself when `d == 0`). |
| HashEq.CanonicalRoundTrip | autoload/voom/voom_vimplugin2657/voom_mode_hasheq.py:92-115 | A canonical line `"# " + "=" * n + " " + t` comes back unchanged from `d` then `-d` when `n + d >= 1`. |
| HashEq.ChangeLevelReparses | autoload/voom/voom_vimplugin2657/voom_mode_hasheq.py:84-99 | After a rewrite the level has moved by `delta` and the title is kept. |
| HashEq.ChangeLevelInOutline | autoload/voom/voom_vimplugin2657/voom_mode_hasheq.py:84-99 | Rewriting a heading changes the outline only in its own entry: level `+ delta`, tree line redrawn. |
| SemiHash.MatchMarkers | autoload/voom/voom_vimplugin2657/voom_mode_semihash.py:124 | A match of `(=+\|#+)\s+(\S.*)\S*$` has marker `=` or `#`, level >= 1, and a non-whitespace-led title. |
| SemiHash.Match | autoload/voom/voom_vimplugin2657/voom_mode_semihash.py:124 | The same, for the whole pattern with its optional `;`. |
| SemiHash.MarkersSound | autoload/voom/voom_vimplugin2657/voom_mode_semihash.py:124 | What follows the optional `;` is `c * level + gap + title`, with one marker character `c`. |
| SemiHash.MarkersComplete | autoload/voom/voom_vimplugin2657/voom_mode_semihash.py:124 | Every `c * level + gap + title` is matched with its marker, level and title. |
| SemiHash.MatchSound | autoload/voom/voom_vimplugin2657/voom_mode_semihash.py:59-64 | Every match is `[";"] + c * level + gap + title`, the `;` present exactly when the line starts with it. |
| SemiHash.MatchComplete | autoload/voom/voom_vimplugin2657/voom_mode_semihash.py:59-64 | Every line of that shape matches with its marker, level and title. |
| SemiHash.OutlineHeadingSound | autoload/voom/voom_vimplugin2657/voom_mode_semihash.py:55-64 | An outline heading starts with `;` or `#` and has the pattern's shape, with that level and title. |
| SemiHash.OutlineHeading | autoload/voom/voom_vimplugin2657/voom_mode_semihash.py:55-64 | An outline heading comes only from a line starting with `;` or `#`, and has level >= 1 and a non-whitespace-led title. |
| SemiHash.OutlineHeadingComplete | autoload/voom/voom_vimplugin2657/voom_mode_semihash.py:55-64 | Every line of the shape with a `;` leader or `#` markers is in the outline with its level and title. |
| SemiHash.BareEqualsNotOutlined | autoload/voom/voom_vimplugin2657/voom_mode_semihash.py:56-57 | `= Title` without `;` matches the pattern but is filtered out of the outline. |
| SemiHash.MakeHeadingLine | autoload/voom/voom_vimplugin2657/voom_mode_semihash.py:129-131 | A built heading line always starts with `;`. |
| SemiHash.MakeHeadingLineMatch | autoload/voom/voom_vimplugin2657/voom_mode_semihash.py:129-131 | A built line re-parses to its marker, level and title for level >= 1, and is no heading otherwise. |
| SemiHash.MakeOutline | autoload/voom/voom_vimplugin2657/voom_mode_semihash.py:43-71 | The loop computes `Scan(OutlineHeading, lines)`: equal lengths, 1-based strictly increasing nodes. |
| SemiHash.NewHeadline | autoload/voom/voom_vimplugin2657/voom_mode_semihash.py:76-89 | Two body lines, whose first starts with `;` and reads back with marker `=`, the requested level and the returned tree text for level >= 1, and as no heading otherwise. |
| SemiHash.NewHeadlineOutline | autoload/voom/voom_vimplugin2657/voom_mode_semihash.py:76-89 | The new lines outline to one heading `NewHeadline` on line 1 at the requested level, or to nothing for level <= 0. |
| SemiHash.OutlineHeadingOfCanonical | autoload/voom/voom_vimplugin2657/voom_mode_semihash.py:120-131 | A canonical line `";" + c * n + " " + t` is in the outline at level `n` with title `t`. |
| SemiHash.ChangeLevel | autoload/voom/voom_vimplugin2657/voom_mode_semihash.py:94-113 | Delta 0 returns the line unchanged. Any other delta yields a line with the `;` leader. A match and `level + delta >= 0` are required. |
| SemiHash.ChangeLevelCanonical | autoload/voom/voom_vimplugin2657/voom_mode_semihash.py:102-113 | Any line `[";"] + c * n + gap + title` of the pattern's shape, changed by a non-zero delta with `n + delta >= 0`, becomes `";" + c * (n + delta) + " " + title`: the `;` is forced, the marker kept, the gap becomes one space and the title is kept verbatim. |
| SemiHash.ChangeLevelMatch | autoload/voom/voom_vimplugin2657/voom_mode_semihash.py:102-113 | The rewritten line re-parses with the same marker and title at `level + delta`. At level 0 it is no heading. |
| SemiHash.ChangeLevelRoundTrip | autoload/voom/voom_vimplugin2657/voom_mode_semihash.py:94-113 | Changing by `d` and then by `-d` yields the line's canonical form (the line itself when `d == 0`). |
| SemiHash.BareHeadingGainsLeader | autoload/voom/voom_vimplugin2657/voom_mode_semihash.py:110-113 | `## Title` changed by `d` and back becomes `;## Title`: the rewrite always adds `;`. |
| SemiHash.CanonicalRoundTrip | autoload/voom/voom_vimplugin2657/voom_mode_semihash.py:102-131 | A canonical line `";" + c * n + " " + t` comes back unchanged from `d` then `-d` when `n + d >= 1`. |
| SemiHash.ChangeLevelReparses | autoload/voom/voom_vimplugin2657/voom_mode_semihash.py:94-113 | As the outline reads it, a rewrite moves the level by `delta` and keeps the title. |
| SemiHash.ChangeLevelInOutline | autoload/voom/voom_vimplugin2657/voom_mode_semihash.py:94-113 | Rewriting a heading changes the outline only in its own entry: level `+ delta`, tree line redrawn. |
| StarHash.Run | autoload/voom/voom_vimplugin2657/voom_mode_starhash.py:34 | A match of the `#+` group keeps the opener flag and has level >= 1. |
| StarHash.RunSound | autoload/voom/voom_vimplugin2657/voom_mode_starhash.py:34 | The group is a maximal `#` run: the remainder never starts with `#`. |
| StarHash.RunComplete | autoload/voom/voom_vimplugin2657/voom_mode_starhash.py:34 | A `#` run followed by a remainder not starting with `#` is read with the run's length and that remainder. |
| StarHash.RunSucceeds | autoload/voom/voom_vimplugin2657/voom_mode_starhash.py:34 | The group matches exactly when at least one `#` is there. |
| StarHash.Match | autoload/voom/voom_vimplugin2657/voom_mode_starhash.py:34 | A match has level >= 1, its remainder does not start with `#` (the run is maximal), and the opener is taken only when the line starts with it. |
| StarHash.MatchIffPrefixed | autoload/voom/voom_vimplugin2657/voom_mode_starhash.py:44-48 | The pattern matches exactly the lines starting with `#` or `/* #`, so the match cannot fail after the filter. The opener is taken exactly when the line starts with `/* #`. |
| StarHash.MatchSound | autoload/voom/voom_vimplugin2657/voom_mode_starhash.py:34 | A match splits its line into the optional opener, `level` copies of `#`, and a remainder not starting with `#`. |
| StarHash.MatchComplete | autoload/voom/voom_vimplugin2657/voom_mode_starhash.py:34 | Every line of that shape is matched with its opener flag, level and remainder. |
| StarHash.OutlineHeadingSound | autoload/voom/voom_vimplugin2657/voom_mode_starhash.py:44-51 | The outline holds exactly the lines starting with `#` or `/* #`. Each has its run length as level and its stripped remainder as title. |
| StarHash.OutlineHeading | autoload/voom/voom_vimplugin2657/voom_mode_starhash.py:44-51 | An outline heading has level >= 1 and a title that is empty or starts and ends with non-whitespace, as `strip()` leaves it. |
| StarHash.HeadingWithoutSpace | autoload/voom/voom_vimplugin2657/voom_mode_starhash.py:13 | `##Title` (no space) is a level-2 heading titled `Title`, and likewise for every level. |
| StarHash.CommentedExample | autoload/voom/voom_vimplugin2657/voom_mode_starhash.py:18 | `/* # Title` is a level-1 heading titled `Title`. |
| StarHash.MakeOutline | autoload/voom/voom_vimplugin2657/voom_mode_starhash.py:36-55 | The loop computes `Scan(OutlineHeading, lines)`: equal lengths, 1-based strictly increasing nodes. |
| StarHash.NewHeadline | autoload/voom/voom_vimplugin2657/voom_mode_starhash.py:58-65 | Two body lines, whose first reads back as the requested level and the returned tree text for level >= 1, and as no heading otherwise. |
| StarHash.NewHeadingLineParses | autoload/voom/voom_vimplugin2657/voom_mode_starhash.py:63-64 | `"#" * level + " NewHeadline"` is a heading of that level titled `NewHeadline` for level >= 1, and no heading (it starts with a space) otherwise. |
| StarHash.NewHeadlineOutline | autoload/voom/voom_vimplugin2657/voom_mode_starhash.py:58-65 | The new lines outline to one heading `NewHeadline` on line 1 at the requested level, or to nothing for level <= 0. |
| StarHash.ChangeLevel | autoload/voom/voom_vimplugin2657/voom_mode_starhash.py:68-82 | Delta 0 returns the line unchanged. Any other delta requires a match and has no sign check; `ChangeLevelShape` states the result. |
| StarHash.ChangeLevelShape | autoload/voom/voom_vimplugin2657/voom_mode_starhash.py:72-82 | Any line `[opener] + "#" * n + rest` of the pattern's shape, changed by a non-zero delta, becomes the same opener, `"#" * (n + delta)` (none when that is 0 or less) and `rest` verbatim. |
| StarHash.ChangeLevelMatch | autoload/voom/voom_vimplugin2657/voom_mode_starhash.py:72-82 | At a positive new level the result matches with the same opener flag and remainder. |
| StarHash.ChangeLevelDropsMarkers | autoload/voom/voom_vimplugin2657/voom_mode_starhash.py:75 | With no sign check, a new level <= 0 removes every `#` and leaves the opener (if any) and the remainder. |
| StarHash.ChangeLevelRoundTrip | autoload/voom/voom_vimplugin2657/voom_mode_starhash.py:68-82 | Changing by `d` and then by `-d` gives back the very same line when `level + d >= 1`. |
| StarHash.ChangeLevelReparses | autoload/voom/voom_vimplugin2657/voom_mode_starhash.py:68-82 | As the outline reads it, a rewrite moves the level by `delta` and keeps the stripped title. |
| StarHash.ChangeLevelInOutline | autoload/voom/voom_vimplugin2657/voom_mode_starhash.py:68-82 | Rewriting a heading changes the outline only in its own entry: level `+ delta`, tree line redrawn. |
| Golang.MatchIff | autoload/voom/voom_vimplugin2657/voom_mode_golang.py:26 | A line is a heading exactly when it starts with `func ` followed by a character other than `(`. |
| Golang.Match | autoload/voom/voom_vimplugin2657/voom_mode_golang.py:26-42 | Every heading is at level 1, and its title is empty or starts and ends with non-whitespace, as `strip()` leaves it. |
| Golang.MatchSound | autoload/voom/voom_vimplugin2657/voom_mode_golang.py:37-41 | A heading is level 1, titled with the stripped text between `func ` and the first `(` or the end of the line. |
| Golang.MatchComplete | autoload/voom/voom_vimplugin2657/voom_mode_golang.py:37-41 | Wherever that group ends, its stripped text is the heading's title. |
| Golang.MethodNeverHeading | autoload/voom/voom_vimplugin2657/voom_mode_golang.py:26 | `func (r T) M() {` is never a heading. |
| Golang.FunctionExample | autoload/voom/voom_vimplugin2657/voom_mode_golang.py:41-42 | `func doWork() {` is a level-1 heading `doWork`, with tree line `  \|doWork`. |
| Golang.MakeOutline | autoload/voom/voom_vimplugin2657/voom_mode_golang.py:28-46 | The loop computes `Scan(Match, lines)`: equal lengths, 1-based strictly increasing nodes, every level 1. |
| Golang.NewHeadline | autoload/voom/voom_vimplugin2657/voom_mode_golang.py:49-56 | Three body lines: the first is a level-1 heading titled `newFunc`, the other two are no headings. |
| Golang.NewFunctionHeading | autoload/voom/voom_vimplugin2657/voom_mode_golang.py:55 | `func newFunc() {` is a level-1 heading titled `newFunc`. |
| Golang.NewHeadlineOutline | autoload/voom/voom_vimplugin2657/voom_mode_golang.py:49-56 | Whatever the level, the new lines outline to one level-1 heading on line 1 titled `newFunc`. |
| Golang.ChangeLevel | autoload/voom/voom_vimplugin2657/voom_mode_golang.py:59-62 | Every line comes back unchanged, for every delta. |
| Golang.ChangeLevelKeepsOutline | autoload/voom/voom_vimplugin2657/voom_mode_golang.py:59-62 | A level change leaves the line, and hence the outline, unchanged. |

## Left out

- The host-context parameter (`VO` or `_`) and the unused `blnum`/`tlnum`
  arguments of `hook_newHeadline` are not modelled. None of them is ever read.
- Vim buffer objects are not modelled: body lines are a `seq<string>`.
- The Python 2/3 `xrange` shim and `generate_range` are not modelled. Both
  are plain counting loops, written as a `while` loop over `i`.
- `__all__` and the rest of the module metadata are not modelled.
- There is no general regular-expression engine. Each of the four patterns
  is matched by hand, and `Shape` predicates state what it accepts.
- Whitespace is one fixed set: space, tab, line feed, vertical tab, form
  feed and carriage return. The same set is used for `\s` and for `strip()`.
  Python also counts further Unicode characters (for example U+001C to
  U+001F, U+0085 and U+00A0), and the model does not.
- Lines are taken to contain no line feed, as Vim buffer lines do. On a line
  with a line feed, the regex `.` and `$` behave differently from the model.
- `hook_changeLevBodyHead` on a line that does not match (when the delta is
  non-zero) is excluded by a precondition. The source crashes there on
  `None.group`.
- The hash-equals and semicolon/hash `assert new_level >= 0` is modelled as a
  precondition.
