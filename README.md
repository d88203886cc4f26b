# Subtitle clean-up and DFXP track merging, modelled in Dafny

The two Python 2 scripts modelled here repair subtitle files.

- `main.py` reads an SRT file into a list of `Subtitle` objects, each with an index, a start time, an end time and a content. It runs one of two clean-up passes over that list:
  - The split pass (`merge_split_subtitles`) re-joins a caption that OCR cut into consecutive entries with the same text.
  - The simultaneous pass (`combine_simultaneous_subtitles`) turns two entries that start or end together into one two-speaker caption ("-a\n-b").

  Both passes walk a cursor over the list. They look for a candidate among the next five entries, merge the first one into the cursor entry in place, and remove it from the list.
- `merge-dfxp.py` reads two DFXP caption tracks, one `<p begin=".." end="..">text</p>` line per caption. It merge-joins them by start time, fusing captions that overlap (their texts joined by `<br />`), and writes the result inside fixed XML boilerplate.

The model has these modules:

| file | module | what it holds |
|---|---|---|
| `results.dfy` | `Results` | `Option` and `Result` |
| `text.dfy` | `Text` | the Python 2 byte-string operations: `strip`, `split`, `split()`, `replace`, `join`, `split("\n\n")` |
| `clock.dfy` | `Clock` | `HH:MM:SS<sep>mmm` times as milliseconds of the day; `strptime` and `strftime` for that shape |
| `srt.dfy` | `Srt` | an SRT entry as a value; segment parser and printer, file parser and printer, `length` |
| `sweep.dfy` | `Sweep` | both clean-up passes on entry values: matching rule, entry updates, the cursor loop as a state machine, and what a pass keeps, drops and changes |
| `cleanup.dfy` | `Cleanup` | the `Subtitle` class with `extend` and `add_simultaneous_sub` updating its fields, `parse_to_subtitles`, and the two passes as loops over a list of objects, each proved to compute the `Sweep` value-level pass |
| `dfxp.dfy` | `Dfxp` | the DFXP caption line: the fixed pattern matched by hand, the printer, the line filter and reading loop, and the written document |
| `trackmerge.dfy` | `TrackMerge` | `completely_overlap`, `merge`, and the `merge_subtitles` loop with its specification and properties |
| `scenarios.dfy` | `Scenarios` | the values the unit tests check, small pass examples, and a list on which the split pass is not idempotent |

SRT times stay text, because `main.py` only compares them for equality and its tests use non-times such as `00:08:93`. They become milliseconds only in `length`. DFXP times are milliseconds of the day.

## Model

| member | source | states |
|---|---|---|
| Srt.ParseSegment | main.py:16-23 | `Subtitle(segment)`; no contract of its own: what it accepts, rejects and returns (all four fields) is stated by `Srt.ParseSegmentOneLine` and `Srt.ParseSegmentTimeLine`, and its round trip with the printer by `Srt.ParseRender` |
| Srt.ParseSegmentOneLine | main.py:17-19 | a segment that is a single line once stripped is rejected: `split_segment[1]` raises IndexError |
| Srt.ParseSegmentTimeLine | main.py:17-22 | for a segment that strips to an index line, a second line and the rest: rejected exactly when the second line has fewer than three whitespace tokens (`times.split()[2]` raises); otherwise idx is the first line, start and end are the first and third tokens of the second line, and the content is everything after the second line's break (empty when there is none), which is `"\n".join(split_segment[2:])` |
| Text.Words | main.py:21-22 | `times.split()`: every token is non-empty and holds no whitespace; which tokens, in which order, is pinned down by `Text.WordsCons` and `Text.WordsSkip` |
| Text.WordsCons | main.py:21-22 | a whitespace-free word followed by whitespace or by nothing is the first token, and the rest tokenizes on its own |
| Text.WordsSkip | main.py:21-22 | leading whitespace yields no token |
| Text.WordsOfTimeLine | main.py:21-22 | a printed time line `start --> end` splits into exactly start, `-->` and end |
| Scenarios.SegmentExample | tests/main_test.py:11-16 | the test segment parses to start `00:05:14`, end `00:06:19`, content `a\nb` |
| Srt.Render | main.py:25-27 | `__str__`; no contract of its own: its round trip with the parser is `Srt.ParseRender` |
| Srt.ParseRender | main.py:16-27 | for an entry whose idx and times are non-empty single tokens and whose content, possibly empty, does not end with whitespace: parsing the printed block, or the stripped printed text, gives back the entry |
| Srt.ParseFile | main.py:78-85 | `parse_to_subtitles` on values; no contract of its own: stated by `Srt.ParseFileAppend`, `Srt.ParseRenderFile` and `Cleanup.ParseToSubtitles` |
| Srt.ParseFileAppend | main.py:85 | for a text `a` not ending in a line break, parsing `a + "\n\n" + b` parses `a`, then `b`; the first error wins |
| Srt.RenderFile | main.py:187 | the text the drivers write; no contract of its own: stated by `Srt.ParseRenderFile` |
| Srt.ParseRenderFile | main.py:78-85 | parsing the `"\n\n"`-join of the printed entries (what the drivers write, main.py:187) gives back every entry, in order, when each entry is printable as above and its content neither holds a blank line nor starts with a line break |
| Cleanup.ParseToSubtitles | main.py:78-85 | fails exactly when some non-blank piece fails to parse; otherwise it returns one fresh object per non-blank piece, no object twice, holding the parsed values in order |
| Cleanup.NewSubtitles | main.py:85 | one new object per entry, all distinct and fresh, holding the entries in order |
| Sweep.CanMergeSplit | main.py:88-96 | `can_merge_split_subtitles`; no contract of its own: `Sweep.SplitFilterIsCanMerge` states that it is the split pass's filter |
| Sweep.Qualifies | main.py:110-139 | the two filters (main.py:112-113 and 137-139); no contract of its own: stated by `Sweep.SplitFilterIsCanMerge` and `Sweep.FirstMatch` |
| Sweep.SplitFilterIsCanMerge | main.py:88-96 | the split pass's filter holds exactly when `can_merge_split_subtitles` does: equal content and first end equal to second start |
| Scenarios.CanMergeSplitExample | tests/main_test.py:30-42 | the test's pair merges; changing the content, or the content and the end, stops it |
| Sweep.Extended | main.py:32-39 | the entry takes the other entry's end and keeps its idx, start and content |
| Cleanup.Subtitle.Extend | main.py:32-39 | the object's fields become exactly those of `Extended` on the old values |
| Scenarios.ExtendExample | tests/main_test.py:44-50 | the test's first entry keeps start and content and ends at `00:08:93` |
| Sweep.Flatten | main.py:49-50 | `replace('\n', ' ')`: same length, every line break becomes a space, every other character is kept |
| Sweep.FlattenIdempotent | main.py:49-50 | flattening twice is flattening once |
| Sweep.Dialogue | main.py:49-51 | the joined content has exactly one line break and is `-a'\n-b'` for the flattened contents |
| Sweep.Joined | main.py:41-51 | idx, start and end are kept; the content becomes the two-speaker dialogue |
| Cleanup.Subtitle.AddSimultaneousSub | main.py:41-51 | this object becomes `Joined` of the old values; the other object, when distinct, keeps its fields except that its content is flattened |
| Sweep.JoinedSurvivor | main.py:145 | the survivor of a simultaneous merge keeps idx, start and end, and its content has exactly one line break |
| Scenarios.DialogueExample | tests/main_test.py:63-67 | the test's two lines join to `-what is love\n-don't hurt me` |
| Srt.Duration | main.py:53-62 | defined exactly when both times read as `HH:MM:SS,mmm`; the span is less than a day either way |
| Srt.DurationOfFormatted | main.py:53-62 | for times written from instants a and b, the length is b - a milliseconds |
| Srt.DurationExample | tests/main_test.py:18-21 | 00:05:14,192 to 00:05:19,934 lasts 5742 ms |
| Sweep.FirstMatch | main.py:110-113 | `potential_matches[0]`: a position among the next five that qualifies, with none before it; None exactly when none of the five qualifies |
| Sweep.Remove | main.py:121 | `subtitles.remove(potential_matches[0])` at the candidate's position: one element fewer, those before the position kept, those after it moved down one |
| Sweep.Step | main.py:119-121 | one merge: one entry fewer, the cursor entry has absorbed the candidate, entries before the candidate are unchanged and those after it move down one |
| Sweep.Advance | main.py:108-121 | one loop round leaves exactly one entry fewer to visit, which is why the loop terminates |
| Sweep.PassTracks | main.py:107-122 | after a pass the list is shorter than the input by the number of merges. Its entries grew from distinct input entries, in input order (an order-preserving subsequence). Each keeps idx and start, plus content (split pass) or end (simultaneous pass) |
| Sweep.FinishKeepsPrefix | main.py:107-121 | entries before the cursor are never changed again, nor is where they came from |
| Sweep.FinishUnchanged | main.py:133-148 | the rest of a pass merges nothing exactly when no window from the cursor on holds a candidate, and then the list comes back unchanged |
| Sweep.PassUnchanged | main.py:133-148 | a pass returns its input unchanged exactly when no position's window holds a candidate for it |
| Scenarios.SplitPassExample | main.py:107-121 | two fragments with equal text, the second starting where the first ends, become one entry spanning both |
| Scenarios.SimultaneousPassExample | main.py:133-148 | two entries with equal starts become one entry `-a\n-b` |
| Scenarios.NoMatchExample | main.py:114-117 | with no candidates both passes return the list unchanged |
| Scenarios.SplitPassNotIdempotent | main.py:107-121 | on a seven-entry list one split pass merges once, and running it again on the result merges again |
| Cleanup.MergeAt | main.py:119-121 | merging in place, then removing the candidate object, leaves objects whose values are the value-level `Step`; the new list is the old one without the candidate's position, and the removed candidate holds `Dropped`: unchanged by the split pass, its content flattened by the simultaneous pass |
| Cleanup.RunPass | main.py:107-121 | the cursor loop leaves objects whose values are the value-level pass result, no object twice and all from the input list; every object removed from the list holds `Dropped` of the value it had when the pass began |
| Sweep.Cleaned | main.py:99-148 | the list a whole pass returns, on values; no contract of its own: stated by `Sweep.PassTracks`, `Sweep.PassUnchanged` and `Cleanup.RunPass`, whose loop computes it |
| Cleanup.MergeSplitSubtitles | main.py:99-122 | `merge_split_subtitles` computes the split pass on the caller's objects; the objects it removes keep their fields |
| Cleanup.CombineSimultaneousSubtitles | main.py:125-148 | `combine_simultaneous_subtitles` computes the simultaneous pass on the caller's objects; the objects it removes keep their fields, except that their content has lost its line breaks |
| Text.Join | main.py:22 | `sep.join(parts)`; no contract of its own: `Text.Split` is stated through it (joining the parts restores the text) and `Text.JoinCons` gives its one-step unfolding |
| Text.JoinCons | main.py:22 | joining a part in front of at least one more part puts the separator between it and the join of the rest |
| Text.Replace | main.py:49-50 | `s.replace(target, replacement)` for single characters: same length, and each position holds the replacement where s held the target and s's own character elsewhere |
| Text.Split | main.py:17 | `s.split(c)`: at least one part, no part holds c, joining the parts with c gives s back |
| Text.Strip | main.py:17 | `s.strip()`: no whitespace at either end, empty exactly when s is all whitespace |
| Text.StripInfix | main.py:17 | `s.strip()` is one contiguous stretch of s with only whitespace before and after it |
| Text.SplitOnBlankLine | main.py:85 | `s.split("\n\n")`: joining the parts with `"\n\n"` gives s back, no part holds a blank line, and every part but the last is empty or does not end with a line break, so each cut is the leftmost one |
| Text.SplitOnBlankLineAppend | main.py:85 | for a text `a` not ending in a line break, splitting `a + "\n\n" + b` gives the parts of `a` followed by the parts of `b` |
| Clock.Parse | merge-dfxp.py:29-31 | `strptime` accepts only `HH:MM:SS<sep>mmm` with the given separator |
| Clock.Format | merge-dfxp.py:39-40 | `strftime(...)[:-3]` gives that shape, and `Parse` reads back the same millisecond |
| Clock.FormatParse | merge-dfxp.py:39-40 | every accepted time is printed back exactly as written |
| Clock.ParseInjective | merge-dfxp.py:29-31 | two accepted texts that read as the same instant are the same text |
| Dfxp.ParseLine | merge-dfxp.py:26-32 | `Subtitle(entry=line)`; no contract of its own: stated by `Dfxp.TextEnd`, `Dfxp.ParseLineRenders`, `Dfxp.ParseRender` and `Dfxp.ParseLineIgnoresNewline` |
| Dfxp.Render | merge-dfxp.py:38-41 | `__str__`; no contract of its own: its round trip with the parser is `Dfxp.ParseRender` |
| Dfxp.TextEnd | merge-dfxp.py:27 | the greedy `(.+)`: the caption text ends at the last place followed by `</p>` with no line break before it; None exactly when there is none |
| Dfxp.ParseLineRenders | merge-dfxp.py:26-32 | a line that parses yields a non-empty, newline-free caption, and printing that cue gives a prefix of the line |
| Dfxp.ParseRender | merge-dfxp.py:38-41 | parsing the printed line of a cue with non-empty, newline-free text gives back the cue |
| Dfxp.ParseLineIgnoresNewline | merge-dfxp.py:53-55 | the line terminator changes neither the `<p begin` filter nor the parse |
| Dfxp.IsCueLine | merge-dfxp.py:54 | `line.startswith("<p begin")`; no contract of its own: stated by `Dfxp.ParseLineIgnoresNewline` and `Dfxp.BoilerplateIsNotCues` |
| Dfxp.ReadCues | merge-dfxp.py:44-56 | the reading loop's specification; no contract of its own: stated by `Dfxp.CreateSubtitlesFromLines`, `Dfxp.ReadCuesStops` and `Dfxp.ReadWritten` |
| Dfxp.Document | merge-dfxp.py:59-73 | the written file as a string; no contract of its own: stated by `Dfxp.ReadWritten` and `Dfxp.BoilerplateIsNotCues` |
| Dfxp.CreateSubtitlesFromLines | merge-dfxp.py:44-56 | the reading loop computes `ReadCues`: lines starting `<p begin` are parsed in order, and the first failure is the result |
| Dfxp.ReadCuesStops | merge-dfxp.py:53-55 | once a line fails to parse, later lines do not change the outcome |
| Dfxp.BoilerplateIsNotCues | merge-dfxp.py:66-71 | no boilerplate line starts with `<p begin`, and no header line holds a line break |
| Dfxp.ReadWritten | merge-dfxp.py:59-73 | reading the lines of a written document gives back the cues written |
| TrackMerge.Dist | merge-dfxp.py:84-85 | `abs(x - y)` |
| TrackMerge.CompletelyOverlap | merge-dfxp.py:76-86 | `completely_overlap`; no contract of its own: stated by `TrackMerge.OverlapSymmetric`, `TrackMerge.SharedEdgeOverlaps` and `TrackMerge.FarApartDisjoint` |
| TrackMerge.OverlapSymmetric | merge-dfxp.py:76-86 | the overlap test does not depend on argument order |
| TrackMerge.SharedEdgeOverlaps | merge-dfxp.py:84-86 | captions with equal starts or equal ends always overlap |
| TrackMerge.FarApartDisjoint | merge-dfxp.py:84-86 | captions whose starts and ends are each at least 0.9 s apart do not overlap |
| TrackMerge.Fuse | merge-dfxp.py:89-101 | `merge`: the earlier start, the later end, and the contents joined by `<br />` |
| TrackMerge.FuseCovers | merge-dfxp.py:97-99 | the fused interval covers both captions |
| TrackMerge.MergeJoin | merge-dfxp.py:104-131 | the merge-join as a recursive function; no contract of its own: stated by `TrackMerge.MergeSubtitles`, whose loop computes it, and by the lemmas below |
| TrackMerge.MergeSubtitles | merge-dfxp.py:104-131 | the queue-popping loop computes the merge-join `MergeJoin` |
| TrackMerge.TraceRealizes | merge-dfxp.py:112-131 | each output caption is, position by position, an a-caption, a b-caption, or a fused pair, as the trace of the run records |
| TrackMerge.TraceUses | merge-dfxp.py:112-131 | every caption of each input is used exactly once, in its track's order |
| TrackMerge.MergeLength | merge-dfxp.py:112-131 | the output length is len(a) + len(b) minus the number of fused pairs |
| TrackMerge.MergeWithEmpty | merge-dfxp.py:129-130 | when one input is empty the output is the other input |
| TrackMerge.FirstOfDisjointHeads | merge-dfxp.py:121-128 | when the two heads do not overlap, the first output caption is a's head if it starts strictly earlier, and b's head otherwise |
| TrackMerge.MergeStartsFrom | merge-dfxp.py:113-130 | nothing in the output starts before a bound every input caption starts at or after |
| TrackMerge.MergeSorted | merge-dfxp.py:113-130 | two tracks sorted by start merge into a track sorted by start |
| Scenarios.TrackMergeApartExample | merge-dfxp.py:121-130 | captions seconds apart come out side by side, unchanged |
| Scenarios.TrackMergeOverlapExample | merge-dfxp.py:115-117 | captions starting 0.1 s apart fuse into `x<br />y` spanning both |

## Left out

- File and console I/O are not modelled. This covers `file_to_content` (its `'\r'` removal too), the opening and reading of files, the writing in `create_file_from_subtitles`, the `merge_simultaneous_subtitles` and `merge_broken_subtitles` drivers, `raw_input`, the printed counts, the output file names and the `__main__` blocks. A file's text and its lines are parameters; the written document is a string.
- `flag_short_subtitles` is not modelled: it only prints, and it compares float seconds.
- `__repr__` and printing a `Subtitle` to the console are not modelled.
- TrackMerge.CompletelyOverlap: it uses exact integer milliseconds. The source compares float seconds, so at the 900 ms sum boundary (0.6 s + 0.3 s) the two can disagree.
- Srt.Duration: only the `HH:MM:SS,mmm` shape with two-digit fields and a three-digit fraction is read. `strptime` also accepts shorter fields and fractions of one to six digits; the model gives None for those.
- Srt.Duration returns milliseconds, not a `timedelta`.
- TrackMerge.MergeSubtitles: it works on sequence values. The source pops its two argument lists in place, so the caller's lists end up empty or holding the unmatched tail. That side effect is not modelled.
- Dfxp.CreateSubtitlesFromLines: the model takes the file's lines without their terminators. `Dfxp.ParseLineIgnoresNewline` shows that the terminator changes neither the filter nor the parse.
- Cleanup.RunPass: the source shrinks the caller's Python list in place with `subtitles.remove` and then returns that same list. Here the list is a sequence value, and the shrunk list is the result. The drivers rebind their variable to the returned list (main.py:182, main.py:205), so they see the same list either way.
- Cleanup.MergeAt: removes the candidate from a sequence value, which the caller replaces, not from a list shared with the caller.
- Cleanup.MergeSplitSubtitles: the caller's list is not shrunk in place; the shrunk list is the result, as for `Cleanup.RunPass`.
- Cleanup.CombineSimultaneousSubtitles: the caller's list is not shrunk in place; the shrunk list is the result, as for `Cleanup.RunPass`.
- Srt.ParseRender: the index is taken to be a single token. An index with inner whitespace also survives printing and parsing, but it is not covered.
- Cleanup.RunPass, Cleanup.MergeSplitSubtitles and Cleanup.CombineSimultaneousSubtitles require that no object appears twice in the list, so that `list.remove` by identity deletes the candidate's own position. `parse_to_subtitles` always produces such lists (`Cleanup.ParseToSubtitles`).
- The split pass is not claimed to be idempotent. A removal behind the cursor can bring a new candidate into the window of an entry the cursor has already left; `Scenarios.SplitPassNotIdempotent` proves that a second pass can merge again.
- Python's general regular-expression engine is not modelled. Only the one fixed caption pattern is matched, by hand.
