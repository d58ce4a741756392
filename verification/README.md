# abstract_gpt: confidence-interval extraction and abstract splitting, in Dafny

abstract_gpt collects epidemiology abstracts and pulls effect estimates out of them.
This project models its two local scripts.

- `split_abstracts.py` cuts an export of abstracts into one file per abstract.
  It splits the export on `". Am J Epidemiol."`.
  It first clears the regular files out of `individual_abstracts/`.
  Section `z` goes to `output_section_{z}.txt`.
  Finally it deletes `output_section_0.txt`, the text before the first delimiter.
- `extract_numbers.py` reads every `.txt` file of that directory.
  It deletes line breaks from the text.
  It finds the last `PMID: <digits>` marker and the first date.
  It then runs three regular expressions that find an estimate followed by a 95% confidence interval (`95% CI`, `95% confidence interval`, `95% confidence interval (CI)`).
  Each match yields a row: PMID, date, the 35 characters before the estimate, the estimate, the lower and upper bounds, and two keyword tags (`Ratio`, `Beta`).

Modules:

- `Text` (`text.dfy`): shared string facts. These are digits, `str.find`, and deleting a character.
- `CiPattern` (`ci_pattern.dfy`): the three patterns.
  - The number token `\d+(?:,\d+)*(?:\.\d+)?` is given as a grammar.
  - It is recognised in place by a small automaton, proved to accept exactly that grammar.
  - A match is a `Parse` that satisfies `ValidParse`.
  - `MatchAt` chooses the parse Python's backtracking reports at one start: the longest estimate, then the longest lower bound.
  - `FindAll` is the leftmost-first, non-overlapping scan of `findall`.
- `ExtractNumbers` (`extract_numbers.dfy`): the rest of the extraction.
  - The pure parts are functions: normalising, the PMID and date searches, the tags and one file's rows.
  - The loop over the directory is the fold `RunBatch`.
  - That loop is also the method `ExtractAll`, proved equal to the fold.
- `SplitAbstracts` (`split_abstracts.dfy`): the split, the section file names, and the directory.
  - `str.split` and `str.join` are functions.
  - The directory is the class `AbstractsDir`. Its field `entries` maps file names to entries.
  - The clean-up loop, the write loop and the final removal are methods that update that field.

## Model

| member | source | states |
|---|---|---|
| Text.FindFirst | split_abstracts.py:8 | the index returned is the leftmost occurrence of the needle; `None` only when it occurs nowhere |
| Text.RemoveChar | extract_numbers.py:31 | `text.replace(c, '')`: no contract of its own; stated by `RemoveCharDeletes`, `RemoveCharConcat` and `RemoveCharAbsent` |
| Text.Contains | extract_numbers.py:52-58 | `keyword in text`: true exactly when `FindFirst` finds the keyword, so by `FindFirst`'s contract exactly when it occurs somewhere |
| Text.RemoveCharDeletes | extract_numbers.py:31 | `replace(c, '')` leaves no `c`, keeps the multiset of all other characters, and shortens the text by the count of `c` |
| Text.RemoveCharConcat | extract_numbers.py:31 | deleting a character distributes over concatenation |
| Text.RemoveCharAbsent | extract_numbers.py:31 | deleting a character that does not occur changes nothing |
| CiPattern.NumRunAccepts | extract_numbers.py:19-21 | the digit/comma/dot automaton accepts exactly the number token `\d+(?:,\d+)*(?:\.\d+)?` |
| CiPattern.NumberSpanIsNumber | extract_numbers.py:19-21 | reading the number in place at `[i, e)` agrees with the grammar on the slice |
| CiPattern.NumberChars | extract_numbers.py:19-21 | a number token is non-empty, starts with a digit and holds only digits, commas and dots |
| CiPattern.ParseForced | extract_numbers.py:19-21 | in any match, every `[^0-9]{0,5}` gap ends at the next digit, and the upper bound runs to the end of its digit/comma/dot run |
| CiPattern.MatchAt | extract_numbers.py:19-21 | the match tried at a start exists exactly when some parse starts there, and it is the parse backtracking reaches first (longest estimate, then longest lower bound) |
| CiPattern.TryEstimate | extract_numbers.py:19-21 | estimate ends are tried from longest to shortest; the result is the preferred parse among those with an estimate no longer than the bound |
| CiPattern.ValidParse | extract_numbers.py:19-21 | the grammar of one match read position by position (look-behind, three numbers, gaps, marker, `)`); the independent definition `MatchAt` and `FindAll` are proved against |
| CiPattern.FindAll | extract_numbers.py:44-46 | the scan `findall` performs: no contract of its own; stated by `FindAllLeftmost` and `FindAllValid` |
| CiPattern.FindAllGroups | extract_numbers.py:44-46 | the group tuples `findall` returns: no contract of its own; stated by `FindAllGroupsSound` and `MatchShape` |
| CiPattern.AllMatches | extract_numbers.py:47 | `matches3 + matches2 + matches1`: no contract of its own; stated by `AllMatchesOrder` and `AllMatchesSound` |
| CiPattern.FindAllLeftmost | extract_numbers.py:44-46 | `findall` reports the preferred parse at the leftmost start with one, then continues after its `)`, until no parse starts further on |
| CiPattern.FindAllValid | extract_numbers.py:44-46 | every reported match is a parse of the pattern, and each starts after the `)` of the one before it |
| CiPattern.FindAllGroupsSound | extract_numbers.py:44-46 | one group tuple per reported match, in the same order: tuple k is the groups of the k-th reported parse, which is a valid parse of the pattern |
| CiPattern.MatchShape | extract_numbers.py:19-21 | the context group has exactly 35 characters and is followed in the text by the estimate; the three number groups are number tokens |
| CiPattern.AllMatchesOrder | extract_numbers.py:47 | the combined list is the `pattern3` matches, then `pattern2`, then `pattern1`, each in its own order |
| CiPattern.AllMatchesSound | extract_numbers.py:44-47 | each element of the combined list is a match of the pattern whose segment it lies in |
| CiPattern.NoDigitNoMatch | extract_numbers.py:19-21 | text without a digit yields no match |
| CiPattern.BracketedCiAlsoSpelledOut | extract_numbers.py:20-21 | a `pattern3` parse with no gap after `(CI)` is also a valid `pattern2` parse at the same positions |
| ExtractNumbers.Normalise | extract_numbers.py:31 | `text.replace('\n', '').replace('\r', '')`: no contract of its own; stated by `NormaliseDeletes`, `NormaliseConcat`, `NormaliseChar` and `NormaliseNoBreaks` |
| ExtractNumbers.NormaliseDeletes | extract_numbers.py:31 | the normalised text has no `\n` or `\r`; all other characters are kept, and its length is the input length minus the count of line breaks |
| ExtractNumbers.NormaliseConcat | extract_numbers.py:31 | line breaks are deleted, not replaced: normalising distributes over concatenation |
| ExtractNumbers.NormaliseChar | extract_numbers.py:31 | a single character is kept unless it is `\n` or `\r` |
| ExtractNumbers.NormaliseNoBreaks | extract_numbers.py:31 | text without line breaks is unchanged |
| ExtractNumbers.ContextOkWithoutBreaks | extract_numbers.py:31 | on normalised text, the 35-character look-behind succeeds exactly at starts 35 and beyond |
| ExtractNumbers.PmidFindAll | extract_numbers.py:33-34 | the start positions `pmid_pattern.findall` reports: no contract of its own; stated by `PmidFindAllExact` and `PmidFindAllAscending` |
| ExtractNumbers.LastPmid | extract_numbers.py:33-36 | `pmid_matches[-1]`, or none: no contract of its own; stated by `LastPmidIsLast` |
| ExtractNumbers.PmidDigits | extract_numbers.py:33 | the `(\d+)` group of a marker is a non-empty digit string |
| ExtractNumbers.NoPmidInside | extract_numbers.py:33-34 | no `PMID: ` marker starts inside another match |
| ExtractNumbers.PmidFindAllExact | extract_numbers.py:33-34 | `findall` reports every position where `PMID: <digit>` occurs, and no other |
| ExtractNumbers.PmidFindAllAscending | extract_numbers.py:34 | the markers are reported in ascending order of position |
| ExtractNumbers.LastPmidIsLast | extract_numbers.py:33-36 | no PMID exactly when the text has no marker; otherwise the PMID is the digit string of the last marker |
| ExtractNumbers.FirstDate | extract_numbers.py:40-42 | `date_match.group()` or `None`: no contract of its own; stated by `FirstDateLeftmost` and `DateLongest` |
| ExtractNumbers.DateLongest | extract_numbers.py:40-42 | the greedy date match has the form `\d{4}( [A-Za-z]{3} )?\d{0,2}`, and no longer text of that form starts at the same place |
| ExtractNumbers.FirstDateFrom | extract_numbers.py:41 | the leftmost start where `\b\d{4}` matches, or none when there is none |
| ExtractNumbers.FirstDateLeftmost | extract_numbers.py:40-42 | no date exactly when `\b\d{4}` matches nowhere; otherwise the date is the longest date-shaped text at the leftmost such start |
| ExtractNumbers.ContainsAny | extract_numbers.py:51-58 | `any(k in hay for k in kws)` holds exactly when some keyword occurs somewhere in the text |
| ExtractNumbers.RatioTag | extract_numbers.py:51-53 | `contains_keyword(entry)` over the joined date, context and numbers: no contract of its own; stated by `ContainsAny` and `TagsFromDateAndContext` |
| ExtractNumbers.BetaTag | extract_numbers.py:56-58 | `contains_beta(entry)` over the same text: no contract of its own; stated by `ContainsAny` and `TagsFromDateAndContext` |
| ExtractNumbers.RowOf | extract_numbers.py:48-59 | `(pmid, date,) + x + (tags)`: no contract of its own; stated by `ProcessFileRows` and `CellsRoundTrip` |
| ExtractNumbers.TagsFromDateAndContext | extract_numbers.py:51-59 | for a reported match, each tag holds exactly when a keyword occurs in the date followed by the 35-character context; the numbers never supply one |
| ExtractNumbers.Cells | extract_numbers.py:8 | a row has one cell per header column |
| ExtractNumbers.CellsRoundTrip | extract_numbers.py:59-65 | the written cells determine the row: `None` dates become empty cells, tags become `True`/`False` |
| ExtractNumbers.ProcessFile | extract_numbers.py:29-59 | the body of one loop iteration: no contract of its own; stated by `ProcessFileOutcome`, `ProcessFileRows` and `NoMarkerKeepsPmid` |
| ExtractNumbers.ProcessFileOutcome | extract_numbers.py:33-48 | a file raises `NameError` exactly when it has matches, no marker of its own and no PMID from an earlier file; otherwise its own PMID replaces the carried one, if it has one |
| ExtractNumbers.ProcessFileRows | extract_numbers.py:40-59 | one row per match of the combined list, in order: row k carries the PMID in force, the file's first date, and the context, estimate, lower and upper of match k (a 35-character context and three number tokens), with tags decided by the date and context |
| ExtractNumbers.MatchPattern | extract_numbers.py:47 | each element of the combined list is a match of one of the three patterns |
| ExtractNumbers.NoMarkerKeepsPmid | extract_numbers.py:35-39 | a file without a marker leaves `pmid` as the earlier files set it |
| ExtractNumbers.RunBatch | extract_numbers.py:24-65 | the loop over the listing as a fold carrying `pmid`: no contract of its own; stated by `BatchFailsIff`, and `ExtractAll` is proved equal to it |
| ExtractNumbers.BatchFailsIff | extract_numbers.py:24-48 | the run fails exactly when a `.txt` file with matches comes before any `.txt` file with a marker |
| ExtractNumbers.ReadAbstract | extract_numbers.py:29-59 | one iteration of the loop: the new PMID and rows, or a `NameError`, as one file's step prescribes |
| ExtractNumbers.ExtractAll | extract_numbers.py:24-65 | the loop over the listing writes exactly the rows of the fold, and stops where the fold stops |
| SplitAbstracts.Split | split_abstracts.py:8 | `str.split` always yields at least one section |
| SplitAbstracts.SplitJoin | split_abstracts.py:8 | joining the sections with the delimiter gives back the content exactly |
| SplitAbstracts.SplitCount | split_abstracts.py:8 | there is one more section than non-overlapping delimiter occurrences (`str.count`) |
| SplitAbstracts.SplitSectionsFree | split_abstracts.py:8 | no section contains the delimiter |
| SplitAbstracts.SplitNoDelimiter | split_abstracts.py:8 | content without the delimiter is a single section |
| SplitAbstracts.NatToString | split_abstracts.py:12 | `f"{z}"` is a non-empty digit string |
| SplitAbstracts.NatToStringRoundTrip | split_abstracts.py:12 | reading the digits back gives `z` |
| SplitAbstracts.NatToStringCanonical | split_abstracts.py:12 | the digits have no leading zero, and are `0` exactly for `z == 0`, as `f"{z}"` writes them |
| SplitAbstracts.SectionName | split_abstracts.py:12 | `output_section_{z}.txt`: no contract of its own; stated by `NatToString`, `NatToStringRoundTrip`, `NatToStringCanonical` and `SectionNameInjective` |
| SplitAbstracts.SectionNameInjective | split_abstracts.py:10-14 | different sections are written to different files |
| SplitAbstracts.Cleaned | split_abstracts.py:23-26 | the directory once every regular file is removed: no contract of its own; `RemoveRegularFiles` is proved to produce it |
| SplitAbstracts.WriteAll | split_abstracts.py:10-14 | the sections written in order: no contract of its own; stated by `WriteAllAt`, and `WriteSections` is proved to produce it |
| SplitAbstracts.Expected | split_abstracts.py:20-31 | the directory a completed run leaves: no contract of its own; stated by `ExpectedContents` and `NoDelimiterNoSections`, and `Run` is proved to produce it |
| SplitAbstracts.WriteAllAt | split_abstracts.py:10-14 | after the write loop, a section name holds its own section's text, and every other name is as before |
| SplitAbstracts.ExpectedContents | split_abstracts.py:20-31 | a completed run leaves sections 1 to n-1 in their files, no `output_section_0.txt`, every sub-directory, and nothing else |
| SplitAbstracts.NoDelimiterNoSections | split_abstracts.py:8-31 | an export without the delimiter leaves no section file, only the sub-directories |
| SplitAbstracts.AbstractsDir.constructor | split_abstracts.py:20-21 | the directory starts with the given entries |
| SplitAbstracts.AbstractsDir.Remove | split_abstracts.py:26 | `os.remove` deletes a regular file and fails on a missing name or a sub-directory, leaving everything unchanged |
| SplitAbstracts.AbstractsDir.Write | split_abstracts.py:13-14 | opening for writing creates or overwrites a regular file, and fails on a sub-directory |
| SplitAbstracts.AbstractsDir.RemoveRegularFiles | split_abstracts.py:21-26 | after the clean-up loop exactly the sub-directories remain, unchanged |
| SplitAbstracts.AbstractsDir.WriteSections | split_abstracts.py:10-14 | every section is written to its file unless a section name is taken by a sub-directory, which makes the loop fail |
| SplitAbstracts.AbstractsDir.Run | split_abstracts.py:20-31 | the script succeeds exactly when no section name is a sub-directory; the directory it leaves is `Expected` |

## Left out

- File and console I/O is not modelled: reading files, `print`, and opening and appending to `output.csv`.
  Texts are parameters, and rows and cells are values.
  CSV quoting and escaping by `csv.writer` is not modelled. `Cells` gives the cell strings before quoting.
- The order of `os.listdir` is platform-dependent.
  The batch takes the listing as a given sequence.
  The clean-up loop removes names in an unspecified order; its result does not depend on that order.
- `\d`, `\w` and `\b` are read as ASCII in the model.
  Python's `re` on `str` also treats other Unicode digits and letters as such.
  `\s` follows Python's `str.isspace` set of code points.
- The regular-expression engine is not modelled in general.
  `CiPattern` is a matcher dedicated to the three fixed patterns.
  Its choice among the parses at one start (longest estimate, then longest lower bound) rests on how backtracking orders the alternatives of the number token; that ordering is stated, not derived from an engine model.
- Directory entries are either regular files or sub-directories.
  Symbolic links, special files and permission errors are not modelled.
  A missing `individual_abstracts/` directory and a missing export file are not modelled either.
- `SplitAbstracts.AbstractsDir.Run`: the Python script stops with an exception when a write fails.
  The model returns `false` and leaves the directory as it was at that point, without stating that state.
- `SplitAbstracts.AbstractsDir.WriteSections`: after a failed write it returns `false` without stating which sections were already written.
- `ExtractNumbers.ExtractAll`: the `NameError` ends the run.
  Rows of earlier files are already in `output.csv`; the model returns them with `failed` set.
- extract_openai.py, openai.py and extract_with_openai.py are not part of this model.
  Their substance is a remote model call and key loading.

Three behaviours of the code are easy to misread; the model follows the code:

- The tags search the date, the 35-character context and the three numbers, since `entry[1:]` starts at the date.
  It is not only the captured groups.
  `TagsFromDateAndContext` shows that the numbers never contribute.
- A file without a PMID marker does not get an empty identifier.
  It keeps the `pmid` of the previous file.
  If no earlier file had one, the loop raises `NameError`, but only when the file has matches.
- The 35-character context is never shortened near the start of the text.
  No match starts before position 35.
