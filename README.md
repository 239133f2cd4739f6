# Git history analysis and Google Sheets access, in Dafny

This project models the computational core of a small toolkit. The toolkit
reads and writes a Google spreadsheet. It also turns the git history of a
set of local repositories into per-day productivity notes. That history
analysis exists twice, in TypeScript and in Python, and the two versions
disagree in many details. Both are modelled, each as its source is written:

- **`TsGitAnalyzer`** (`ts_git_analyzer.dfy`) covers the TypeScript
  `GitHistoryAnalyzer`:
  - the constructor's defaults;
  - repository discovery over a directory listing, with exact-name and
    wildcard patterns;
  - `getGitCommits` over the git library's log entries;
  - the significance test on commit-message prefixes;
  - the per-day note (`<type>: <count>` segments, or `<N> commit(s)`);
  - `generateDailyNotes`;
  - the `analyzeAllRepos` pipeline with its discover-only exit.

  The analyzer's fields are fixed after construction, so the analyzer is a
  value and the loops are methods proved against specification functions.
- **`PyGitAnalyzer`** (`py_git_analyzer.dfy`) covers the Python
  `GitHistoryAnalyzer`:
  - glob-based discovery, which appends to the analyzer's `repositories`
    list;
  - parsing of `git log --pretty=format:%H|%ad|%s|%an` output;
  - collection and stable sorting by date string;
  - `generate_daily_notes`: grouping into per-day entries, then rendering
    the emoji-marked note of each day in ascending date order;
  - the metadata of `save_analysis`.

  The analyzer object is a `class` whose methods update `repositories` in
  place.
- **`SheetsClient`** (`sheets_client.dfy`) covers the TypeScript
  `GoogleSheetsClient`:
  - `getWorksheetData`, which turns a value grid into header-keyed records
    with nested loops;
  - the shaping of `getSpreadsheetInfo`, `getRangeValues`, `updateCell` and
    `listWorksheets`.
- **`SheetsCli`** (`sheets_cli.dfy`) covers the Python `GoogleSheetsCLI`:
  - how `update_cell` splits a range name at `!`;
  - the result dicts of the commands;
  - the entry-building loops of `get_spreadsheet_info` and
    `list_worksheets`;
  - `authenticate`;
  - the command dispatch of `main`, including the `Sheet1!B<row>` target of
    `update-notes`.
- **`Text`**, **`Seqs`** and **`Wrappers`** hold the string, sequence and
  option/result vocabulary shared by the four:
  - `split`, `join`, `strip`, lower-casing, string order and integer
    formatting;
  - filtering by key, first-seen distinct keys, grouping, a stable sort, and
    sums.

Every call into git, the filesystem, the environment or the Sheets API is a
parameter: a directory listing, a glob function, the outcome of `git log`,
the response grid, or a `Backend` value holding the outcome of each gspread
call. Exceptions that the source catches or lets escape are `Result.Failure`
or `Option.None` values, carrying the message where the source reports it.

Behaviours of the code that a reader might not expect, and that the model
keeps:

- A commit type is the lower-cased text before the first `:` of the message.
  When the message has no `:`, the type is the whole lower-cased message.
  The type is `other` only when the text before the first `:` is empty
  (`TsGitAnalyzer.CommitTypeWithoutColon`): the `|| 'other'` at
  `src/lib/git-analyzer.ts:192` only catches an empty prefix.
- The TypeScript pattern list has the exact name `CleanShot`, whereas the
  Python list has the glob `CleanShot*`. So the TypeScript wildcard branch
  is never taken with the built-in patterns (`TsGitAnalyzer.RepoPatternsAreExact`).
- Python splits a log line with `split('|', 3)`. A subject containing `|`
  therefore ends the message at that `|` and moves the rest into the author
  (`PyGitAnalyzer.ParseLineMeans` states exactly what is produced).
- Python's `generate_daily_notes` raises `IndexError` for a day whose note
  needs a time that a date without a space lacks. That happens when the
  first and last dates differ, or when a significant commit is listed. The
  whole call then fails (`PyGitAnalyzer.SignificantWithoutTimeRaises`).

## Model

| member | source | states |
|---|---|---|
| TsGitAnalyzer.OrElse | src/lib/git-analyzer.ts:29-34 | `o \|\| d` yields the option when present and non-empty, otherwise the default; it is never empty when the default is not |
| TsGitAnalyzer.NewAnalyzer | src/lib/git-analyzer.ts:28-37 | each option that is given and non-empty is kept, and an absent or empty one falls back to its default (`2025-09-30`, `2025-10-09`, `git_analysis.json`); the directory falls back to a non-empty `REPOS_DIR` and then to `/Users/ebowwa/apps`; discover holds only for an explicit true; the five built-in patterns are kept |
| TsGitAnalyzer.WildcardMatchMeans | src/lib/git-analyzer.ts:63-65 | `^pre.*post$` matches exactly the names `pre + mid + post` whose middle holds no line terminator |
| TsGitAnalyzer.MatchesAny | src/lib/git-analyzer.ts:62-68 | `MatchesPattern`: a name is kept iff some pattern matches it |
| TsGitAnalyzer.MatchesWildcardPattern | src/lib/git-analyzer.ts:63-67 | a pattern with `*` matches the names built from its text before and after the first `*` |
| TsGitAnalyzer.RepoPatternsAreExact | src/lib/git-analyzer.ts:20-26 | with the built-in patterns, a name matches iff it is one of them |
| TsGitAnalyzer.PathJoin | src/lib/git-analyzer.ts:55 | the joined path ends with the entry name, after a `/` |
| TsGitAnalyzer.Discovered | src/lib/git-analyzer.ts:45-48 | a missing directory gives no repositories; otherwise at most one per entry |
| TsGitAnalyzer.DiscoveredSound | src/lib/git-analyzer.ts:52-73 | every path found is the join of an entry that is a directory, holds `.git` and matches a pattern |
| TsGitAnalyzer.DiscoveredComplete | src/lib/git-analyzer.ts:52-73 | every such entry is found |
| TsGitAnalyzer.DiscoverRepositories | src/lib/git-analyzer.ts:42-76 | the loop returns exactly the discovered paths |
| TsGitAnalyzer.RepoNameIsLastSegment | src/lib/git-analyzer.ts:101 | `RepoName`: the repository name is the path's last `/`-segment, or the whole path when that segment is empty |
| TsGitAnalyzer.RepoNameIsLastSplitPiece | src/lib/git-analyzer.ts:101 | `split('/').pop() \|\| repoPath` |
| TsGitAnalyzer.RepoNameOfPathJoin | src/lib/git-analyzer.ts:55 | the name of a discovered path is the entry's name |
| TsGitAnalyzer.Tagged | src/lib/git-analyzer.ts:95-103 | one commit per log entry, in order, with the author name and the repository name |
| TsGitAnalyzer.GetGitCommits | src/lib/git-analyzer.ts:81-109 | a failed log gives no commits; otherwise one commit per entry, in order, tagged with the repository name |
| TsGitAnalyzer.StartsWithAny | src/lib/git-analyzer.ts:167-169 | `IsSignificantCommit` is this test on the lower-cased message: true iff one of the prefixes starts the string |
| TsGitAnalyzer.SignificantExamples | src/lib/git-analyzer.ts:153-170 | `Feature x` and `testing` count as significant (literal prefix test) |
| TsGitAnalyzer.ChoreWithoutColonIsNotSignificant | src/lib/git-analyzer.ts:160 | `chore update` is not significant |
| TsGitAnalyzer.Significant | src/lib/git-analyzer.ts:129-131 | the filter keeps a commit exactly when it is among the day's commits and significant |
| TsGitAnalyzer.CommitTypeMeans | src/lib/git-analyzer.ts:192 | `CommitType`: the type is never empty, holds no `:`, and is the lower-cased text before the first `:` when that is non-empty |
| TsGitAnalyzer.CommitTypeWithoutColon | src/lib/git-analyzer.ts:192 | a non-empty message without `:` has its whole lower-cased text as type |
| TsGitAnalyzer.SignificantHasOwnType | src/lib/git-analyzer.ts:192 | a significant message never falls back to `other` |
| TsGitAnalyzer.CommitTypeNotUpper | src/lib/git-analyzer.ts:192 | a type never starts with an upper-case ASCII letter |
| TsGitAnalyzer.Tally | src/lib/git-analyzer.ts:199-201 | one `<type>: <count>` segment per type, counting that type's significant commits |
| TsGitAnalyzer.GenerateDayNote | src/lib/git-analyzer.ts:175-204 | the loop builds the day's note as specified (`DayNote`) |
| TsGitAnalyzer.TallyTypes | src/lib/git-analyzer.ts:189-201 | the types are distinct, are exactly the types that occur, and are in first-seen order |
| TsGitAnalyzer.TallyCounts | src/lib/git-analyzer.ts:199-201 | every type has at least one commit, and the counts add up to the significant commits |
| TsGitAnalyzer.PlainNoteCount | src/lib/git-analyzer.ts:184-186 | without significant commits the note is the decimal count followed by ` commit`, or ` commits` above one |
| TsGitAnalyzer.NoActivityOnlyWhenEmpty | src/lib/git-analyzer.ts:180-182 | the note is `No activity` iff the day has no commits |
| TsGitAnalyzer.DayKeyIsDatePrefix | src/lib/git-analyzer.ts:119 | the day is `date.split('T')[0]`, a `T`-free prefix of the timestamp |
| TsGitAnalyzer.BuildDailyNote | src/lib/git-analyzer.ts:129-144 | the entry of one day: its note, count and the bounds of its sorted commits |
| TsGitAnalyzer.NotesFor | src/lib/git-analyzer.ts:128-145 | one entry per day |
| TsGitAnalyzer.NotesForSnoc | src/lib/git-analyzer.ts:128-145 | one turn of the map loop appends the next day's entry |
| TsGitAnalyzer.GenerateDailyNotes | src/lib/git-analyzer.ts:114-148 | the grouping and note loops return exactly the sorted daily notes (`DailyNotes`) |
| TsGitAnalyzer.NoteForCount | src/lib/git-analyzer.ts:141 | an entry's count is the number of that day's commits, and is positive |
| TsGitAnalyzer.NoteForBounds | src/lib/git-analyzer.ts:134-143 | first and last commit are dates of that day's commits, the least and the greatest |
| TsGitAnalyzer.NotesForDates | src/lib/git-analyzer.ts:138-139 | the entries carry the days in order |
| TsGitAnalyzer.NotesForAt | src/lib/git-analyzer.ts:128-145 | entry i is the note of day i |
| TsGitAnalyzer.NotesForMembers | src/lib/git-analyzer.ts:128-145 | an entry is present iff it is the note of one of the days |
| TsGitAnalyzer.NotesForTotal | src/lib/git-analyzer.ts:141 | the counts add up to the number of commits of the days listed |
| TsGitAnalyzer.DailyNotesMembers | src/lib/git-analyzer.ts:114-148 | the notes are exactly the notes of the days that occur |
| TsGitAnalyzer.DailyNotesDates | src/lib/git-analyzer.ts:147 | the dates are strictly ascending and are exactly the days that occur |
| TsGitAnalyzer.DailyNotesTotal | src/lib/git-analyzer.ts:114-148 | the counts of all notes add up to the number of commits |
| TsGitAnalyzer.DailyNotesEmpty | src/lib/git-analyzer.ts:114-148 | no commits give no notes |
| TsGitAnalyzer.AnalyzeAllRepos | src/lib/git-analyzer.ts:209-244 | with `discover` the run ends after listing the discovered repositories; otherwise it yields the analysis of all of them |
| TsGitAnalyzer.AllCommitsRepository | src/lib/git-analyzer.ts:222-229 | every collected commit is tagged with the name of a discovered repository |
| TsGitAnalyzer.AllCommitsCount | src/lib/git-analyzer.ts:222-229 | the commits collected are as many as the entries of the successful logs |
| TsGitAnalyzer.AnalysisTotals | src/lib/git-analyzer.ts:231-243 | the metadata counts the repositories and commits, the note counts add up to the commits, and the dates and directory are the options' |
| TsGitAnalyzer.AnalyzedCommitsFromKept | src/lib/git-analyzer.ts:52-73 | each analyzed commit names a kept directory entry |
| PyGitAnalyzer.WithGitDirMembers | src/git_history_analyzer.py:41-44 | a glob hit is kept iff it holds `.git` |
| PyGitAnalyzer.FoundMembers | src/git_history_analyzer.py:40-44 | a path is found iff it holds `.git` and some pattern's glob yields it |
| PyGitAnalyzer.Analyzer.constructor | src/git_history_analyzer.py:32-34 | an absent or empty directory falls back to the default; no repositories yet |
| PyGitAnalyzer.Analyzer.DiscoverRepositories | src/git_history_analyzer.py:36-48 | appends the found paths, pattern by pattern, to `repositories` and returns the whole list |
| PyGitAnalyzer.Analyzer.AddRepositories | src/git_history_analyzer.py:41-44 | appends the hits of one pattern that hold `.git` |
| PyGitAnalyzer.ParseLineMeans | src/git_history_analyzer.py:67-77 | `ParseLine`: a line gives a commit iff it holds at least three `\|`; hash, date and message are `\|`-free and the line is their join with the author |
| PyGitAnalyzer.ParseFormattedLine | src/git_history_analyzer.py:58 | a line in the requested format with a `\|`-free subject parses back into its fields |
| PyGitAnalyzer.ParseLinesSound | src/git_history_analyzer.py:66-77 | every commit comes from a non-empty line of the output |
| PyGitAnalyzer.ParseLinesComplete | src/git_history_analyzer.py:66-77 | every parseable non-empty line gives a commit |
| PyGitAnalyzer.ParseLinesRepo | src/git_history_analyzer.py:76 | every commit is tagged with the path's basename |
| PyGitAnalyzer.Analyzer.GetGitCommits | src/git_history_analyzer.py:50-85 | the loop returns exactly the parsed commits of the stripped output; a failed run gives none |
| PyGitAnalyzer.Analyzer.AnalyzeAllRepos | src/git_history_analyzer.py:87-103 | discovers only when no repository is known, then returns all repositories' commits stably sorted by date |
| PyGitAnalyzer.DateOnlyIsSplit | src/git_history_analyzer.py:111 | the day of a commit is `date.split(' ')[0]`, a space-free prefix of the date |
| PyGitAnalyzer.TallyDomain | src/git_history_analyzer.py:110-120 | the dict has an entry for exactly the days that occur |
| PyGitAnalyzer.TallyValue | src/git_history_analyzer.py:110-125 | a day's entry holds its commits in order, their distinct repositories, the first and last dates in input order and the count |
| PyGitAnalyzer.Analyzer.GroupByDay | src/git_history_analyzer.py:107-125 | the grouping loop builds that dict, and records the days in first-seen order |
| PyGitAnalyzer.TimeOf | src/git_history_analyzer.py:145-146 | `split(' ')[1]` is defined iff the date holds a space |
| PyGitAnalyzer.ContainsAny | src/git_history_analyzer.py:137 | true iff one of the keywords occurs in the text |
| PyGitAnalyzer.Significant | src/git_history_analyzer.py:135-138 | keeps exactly the commits whose lower-cased message contains a keyword (`IsSignificant` is the keyword test) |
| PyGitAnalyzer.TruncateMeans | src/git_history_analyzer.py:156-157 | `Truncate`: a message over 60 characters becomes its first 57 and `...`; others are kept |
| PyGitAnalyzer.ActivityLinePrefix | src/git_history_analyzer.py:158 | every activity line starts with the indented bullet |
| PyGitAnalyzer.ActivityLinesDefined | src/git_history_analyzer.py:151-158 | the activity lines never fail when every date holds a space |
| PyGitAnalyzer.HeadLead | src/git_history_analyzer.py:141-142 | the first two parts start with their markers |
| PyGitAnalyzer.HoursLead | src/git_history_analyzer.py:144-147 | the hours line is present iff first and last dates differ |
| PyGitAnalyzer.BodyLead | src/git_history_analyzer.py:149-161 | the body is the maintenance line, or the key-activities line and at most five activities |
| PyGitAnalyzer.BodyMarks | src/git_history_analyzer.py:149-161 | maintenance line iff no significant commit; key-activities line iff some |
| PyGitAnalyzer.HoursShownIff | src/git_history_analyzer.py:144-147 | a note shows working hours iff the day's first and last dates differ |
| PyGitAnalyzer.MaintenanceIff | src/git_history_analyzer.py:140-161 | a note has the maintenance line iff no commit is significant, and exactly 2 + hours + body parts |
| PyGitAnalyzer.DayTextParts | src/git_history_analyzer.py:140-163 | `DayText`: the note joins header, repositories, hours and body with newlines, and fails iff hours or body fail |
| PyGitAnalyzer.DayTextDefined | src/git_history_analyzer.py:140-163 | a day whose dates all hold a space always renders |
| PyGitAnalyzer.Analyzer.RenderDay | src/git_history_analyzer.py:131-163 | the loop body renders exactly the day's note |
| PyGitAnalyzer.Analyzer.KeyActivityLines | src/git_history_analyzer.py:151-158 | the loop renders exactly the activity lines, failing at the first date without a space |
| PyGitAnalyzer.Analyzer.RenderDays | src/git_history_analyzer.py:130-163 | the loop renders the days in order, failing at the first that raises |
| PyGitAnalyzer.Analyzer.GenerateDailyNotes | src/git_history_analyzer.py:105-165 | returns exactly the generated notes, or the `IndexError` |
| PyGitAnalyzer.NotesFromAt | src/git_history_analyzer.py:130-163 | note i carries day i and its rendering |
| PyGitAnalyzer.NotesFromDates | src/git_history_analyzer.py:130-163 | the notes carry the days in order |
| PyGitAnalyzer.SortedDaysMeans | src/git_history_analyzer.py:130 | the days are strictly ascending and are exactly the days that occur |
| PyGitAnalyzer.GeneratedNotesDates | src/git_history_analyzer.py:128-165 | one note per day that occurs, in strictly ascending order |
| PyGitAnalyzer.GeneratedNoteText | src/git_history_analyzer.py:128-165 | each note is the rendering of its day's commits |
| PyGitAnalyzer.NoteHeader | src/git_history_analyzer.py:141 | each note starts with its day's commit count and the number of distinct repositories |
| PyGitAnalyzer.GeneratedNotesDefined | src/git_history_analyzer.py:145-152 | the call succeeds when every date holds a space |
| PyGitAnalyzer.DayWithoutTimeRaises | src/git_history_analyzer.py:152 | a significant commit whose date has no space makes its day fail |
| PyGitAnalyzer.SignificantWithoutTimeRaises | src/git_history_analyzer.py:149-152 | such a commit makes the whole call fail |
| PyGitAnalyzer.TotalRepos | src/git_history_analyzer.py:172 | the number of repositories is the number of distinct names |
| PyGitAnalyzer.AnalyzedMetadata | src/git_history_analyzer.py:169-178 | on sorted commits: the counts, and the date range is the least and greatest date, or absent with no commits |
| SheetsClient.Records | src/lib/sheets-client.ts:55-71 | no records for a missing or empty grid; otherwise one record per row after the header |
| SheetsClient.RowKeys | src/lib/sheets-client.ts:65-67 | `Record`: a record has keys for exactly the headers of the columns read |
| SheetsClient.RowLastWins | src/lib/sheets-client.ts:66 | with a repeated header the last column's cell wins |
| SheetsClient.RecordDistinct | src/lib/sheets-client.ts:63-69 | with distinct headers each cell read is under its own header, one key per cell |
| SheetsClient.RowCard | src/lib/sheets-client.ts:65-67 | distinct headers give one key per column read |
| SheetsClient.RecordTrim | src/lib/sheets-client.ts:65 | cells beyond the header width are ignored |
| SheetsClient.RowPrefix | src/lib/sheets-client.ts:65-67 | the record depends only on the cells under the headers |
| SheetsClient.GoogleSheetsClient.GetWorksheetData | src/lib/sheets-client.ts:49-72 | the nested loops return exactly the records |
| SheetsClient.GoogleSheetsClient.GetRangeValues | src/lib/sheets-client.ts:77-84 | the grid as returned, or none; its records are those of `getWorksheetData` |
| SheetsClient.GoogleSheetsClient.UpdateCell | src/lib/sheets-client.ts:89-98 | the update is a 1×1 grid holding the value, `RAW`, to this spreadsheet and range |
| SheetsClient.Info | src/lib/sheets-client.ts:28-44 | info exists iff the response has properties; it copies id, title and url, with absent sheets read as none |
| SheetsClient.GoogleSheetsClient.GetSpreadsheetInfo | src/lib/sheets-client.ts:28-44 | returns that info |
| SheetsClient.Worksheets | src/lib/sheets-client.ts:139-142 | one `{title, sheetId}` per sheet, in order |
| SheetsClient.GoogleSheetsClient.ListWorksheets | src/lib/sheets-client.ts:137-143 | lists the sheets of the info, or fails with the info's own error, the `TypeError` of the missing `properties` |
| SheetsCli.SplitRangeMeans | src/sheets_cli.py:120-126 | `SplitRange`: with a `!` the sheet is the text before the first `!` and the cell the text between the first and the second `!` (or the end), anything after a second `!` dropped; without, `Sheet1` and the whole range |
| SheetsCli.SplitRangeRoundTrip | src/sheets_cli.py:120-122 | `sheet!cell` splits back into sheet and cell |
| SheetsCli.NotesRangeTarget | src/sheets_cli.py:207 | `update-notes` writes cell `B<row>` of `Sheet1` |
| SheetsCli.HeaderNames | src/sheets_cli.py:110 | the keys of a record, in column order |
| SheetsCli.DataResult | src/sheets_cli.py:106-111 | `row_count` is the number of records; `headers` the first record's keys, or none |
| SheetsCli.GetWorksheetData | src/sheets_cli.py:93-114 | reads the worksheet named by the same rule as `update_cell`; a failed lookup or read is the error record with its message, and otherwise the result is the data dict of the records read |
| SheetsCli.UpdateCell | src/sheets_cli.py:116-138 | succeeds iff the worksheet is found and the write succeeds, reporting `<title>!<cell>` and the value; a failed lookup or write is the error record with its message |
| SheetsCli.UpdateWriteSingleCell | src/sheets_cli.py:129 | `UpdateWrite`: the write is the single value at the split cell range |
| SheetsCli.CreateWorksheet | src/sheets_cli.py:140-150 | adds a 1000×26 worksheet and reports success with the new worksheet's title and id, or the error record with its message |
| SheetsCli.Entries | src/sheets_cli.py:80-86 | one entry per worksheet, in order, with its four fields |
| SheetsCli.Dispatch | src/sheets_cli.py:180-222 | one outcome per command, matched after lower-casing: `info` and `list-sheets` print the info and the listing; `get` reads its range or `Sheet1!A1:Z1000`; `update` writes its range and `update-notes` cell `Sheet1!B<row>`; `create` adds its title; `update`, `update-notes` with fewer than two arguments and `create` with none exit 1, the only exit; unknown commands are reported |
| SheetsCli.DispatchIgnoresCase | src/sheets_cli.py:180 | a command and its lower-cased form act alike |
| SheetsCli.GoogleSheetsCli.constructor | src/sheets_cli.py:38-40 | no spreadsheet before authentication |
| SheetsCli.GoogleSheetsCli.Authenticate | src/sheets_cli.py:42-69 | succeeds iff the JSON is present and non-empty and opening succeeds; only then is the spreadsheet set |
| SheetsCli.GoogleSheetsCli.GetSpreadsheetInfo | src/sheets_cli.py:71-91 | title, url and the worksheet entries, or the error record (`SpreadsheetInfo` once authenticated) |
| SheetsCli.GoogleSheetsCli.ListWorksheets | src/sheets_cli.py:152-165 | the worksheet entries, or the error record (`ListResult` once authenticated) |
| SheetsCli.GoogleSheetsCli.CollectEntries | src/sheets_cli.py:155-162 | the loop builds exactly the entries |
| SheetsCli.RunCli | src/sheets_cli.py:167-224 | exits 1 when authentication fails, otherwise prints what the dispatch yields |
| Text.Lower | src/lib/git-analyzer.ts:154 | lower-casing keeps the length and maps each character |
| Text.LowerIdempotent | src/sheets_cli.py:180 | lower-casing twice is lower-casing once |
| Text.JoinSplit | src/git_history_analyzer.py:66 | joining the pieces of a split gives the string back |
| Text.SplitJoin | src/git_history_analyzer.py:66 | splitting a join of separator-free pieces gives the pieces back |
| Text.SplitN | src/git_history_analyzer.py:68 | at least one and at most n+1 pieces |
| Text.SplitNPieces | src/git_history_analyzer.py:68 | all pieces but the last are separator-free, and joined with the separator they give the line back |
| Text.SplitNCount | src/git_history_analyzer.py:68-69 | the number of pieces is one more than the separators, capped at n |
| Text.SplitNJoin | src/git_history_analyzer.py:68 | splitting a join with a separator-free head gives the pieces back |
| Text.SplitFirstIsBefore | src/lib/git-analyzer.ts:119 | the first piece of a split is the text before the first separator |
| Text.SplitLastIsAfterLast | src/lib/git-analyzer.ts:101 | the last piece of a split is the text after the last separator |
| Text.Strip | src/git_history_analyzer.py:66 | the stripped text has no whitespace at either end |
| Text.StripMeans | src/git_history_analyzer.py:66 | the stripped text is the slice of the input with only whitespace before and after it |
| Text.StripNoop | src/git_history_analyzer.py:66 | text without whitespace at its ends is unchanged |
| Text.LessEqTotal | src/git_history_analyzer.py:102 | the string order is total |
| Text.LessEqTrans | src/git_history_analyzer.py:102 | the string order is transitive |
| Text.LessEqAntisym | src/git_history_analyzer.py:130 | the string order is antisymmetric |
| Text.NatToStringRoundTrip | src/git_history_analyzer.py:141 | a formatted count reads back as the count |
| Text.NatToStringInjective | src/git_history_analyzer.py:141 | different counts format differently |
| Seqs.Distinct | src/git_history_analyzer.py:123 | the set of repositories as a duplicate-free list with the same members |
| Seqs.DistinctCard | src/git_history_analyzer.py:172 | its length is the size of the set |
| Seqs.DistinctFirstSeenOrder | src/lib/git-analyzer.ts:115-124 | keys are listed in the order they are first seen, as a `Map` keeps them |
| Seqs.GroupBy | src/lib/git-analyzer.ts:115-124 | the grouping loop builds the first-seen keys and each key's elements in order |
| Seqs.GroupsHaving | src/lib/git-analyzer.ts:115-124 | each group holds exactly the elements with its key |
| Seqs.DistinctKeysPartition | src/lib/git-analyzer.ts:115-124 | the groups together hold every element once |
| Seqs.SortBy | src/git_history_analyzer.py:102 | the sort gives a sorted permutation |
| Seqs.SortByStable | src/git_history_analyzer.py:102 | elements with equal keys keep their order |
| Seqs.SortByBounds | src/git_history_analyzer.py:175-176 | the first and last sorted elements have the least and greatest keys |
| Seqs.SortedUnique | src/git_history_analyzer.py:130 | two sorted permutations of the same strings are equal |
| Seqs.SumBySort | src/lib/git-analyzer.ts:147 | sorting keeps the sum of the counts |

## Left out

- Authentication: the service-account JWT client, the OAuth flow and
  `getSheetId` (`src/lib/auth.ts`, `src/lib/oauth-auth.ts`), and the
  parsing of the service-account JSON. Authentication is an `open`
  function parameter.
- Every remote Sheets call. Responses are parameters, and requests are
  returned as values (`ValuesUpdate`, `CellWrite`, `AddSheet`).
  `updateCells`, `createWorksheet` and `appendData` of the TypeScript
  client only forward their arguments and are not modelled.
- git itself: the Python call's `--since`/`--until` date filter, the
  options the TypeScript `git.log` call passes (`from`/`to`), and the log
  format. The log output is a parameter.
- Filesystem access: `existsSync`, `readdirSync` and `Path.glob` semantics.
  The listing, the `.git` test and the glob are parameters.
- Path handling: `path.join` and `pathlib` normalisation are modelled as
  concatenation with `/`; `os.path.basename` as the text after the last
  `/`.
- Console output, `process.exit`, `print`, and writing JSON files. The
  TypeScript discover-only exit is the `DiscoverOnly` outcome.
  `saveAnalysis` is left out; the Python `save_analysis` is modelled only
  by the metadata it writes.
- The two CLIs' argument parsing beyond `main`'s dispatch, and the Python
  analyzer's `main`. Its line 237 indexes a note string with
  `'total_commits'`, which would raise `TypeError` whenever any day has a
  note.
- `Text.Lower`: JavaScript's `toLowerCase` (`TsGitAnalyzer.IsSignificantCommit`,
  `TsGitAnalyzer.CommitType`) and Python's `lower()` (`PyGitAnalyzer.IsSignificant`,
  `SheetsCli.Dispatch`) are approximated by ASCII lower-casing; other
  letters keep their case. Python's `isspace()`, used by `Text.Strip`, is
  modelled with its full whitespace set.
- `Text.LessEq`: Python string ordering is code-point order, as modelled.
  JavaScript's `localeCompare` in `TsGitAnalyzer` is modelled as code-point
  order too, which it is not in general. The day keys compared when the
  notes are sorted are `YYYY-MM-DD` texts, where the two orders agree. A
  day's commits are sorted by their full timestamps, where they can
  differ (for example on a `+` against a `-` UTC offset), so
  `firstCommit` and `lastCommit` are the code-point least and greatest
  timestamps of the day.
- `TsGitAnalyzer.MatchesPattern`: only the first `*` is replaced, as in
  the source. Other regular-expression metacharacters in a pattern are
  taken literally, which holds for the built-in patterns.
- `PyGitAnalyzer.Day`: the Python `repos` set is a duplicate-free list in
  first-seen order. Only its size and sorted contents are read.
- `PyGitAnalyzer`: the `commit_messages` list at line 132 is computed and
  never used.
- `SheetsCli`: gspread's `get_all_records` (header handling and number
  conversion) is a backend parameter. Cells are strings throughout.
- `SheetsClient.Row`: a JavaScript object's property order and its special
  keys such as `__proto__` are not modelled; a record is a map.
