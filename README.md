# Obsidian vault note service — verified model

`ObsidianService` is a small tool server that works on a folder of Markdown notes (the vault).
This project models its text-rewriting core in Dafny and proves properties of that model:

- **Marking a task** (`MarkTask`). A status name (`Completed`, `InProgress`, `Forwarded`,
  `Scheduled`, `Open`) is mapped to a checkbox character. The note is split on `'\n'`. Every line
  matching `\[[^\]]\]\s+<taskText>(?:\s|$)` (the task text taken literally) has the interior of
  each matching checkbox replaced. The matching lines are counted, and the lines are joined back
  with `'\n'`. The pattern is modelled as a scanner with greedy, backtracking `\s+`. The
  replacement is modelled as the leftmost, non-overlapping scan that `Regex.Replace` performs.
  The scanner is proved against a declarative reading of the pattern. Every position the
  replacement rewrites is proved to be a match, and the leftmost match is always rewritten.
- **Adding a task to a daily note** (`AddTaskToDaily`). The date token is resolved. The note is
  split into lines and the first line containing "Short List" (any letter case) is found. One
  forward scan then tracks the last task line and the first empty `- [ ]` slot, and fails on a
  `####` heading. Finally the first empty slot is overwritten, or one line is inserted after the
  last task.
- **Creating a note** (`CreateNote`). The checks run in the source's order: blank title, blank
  content, the `dailies` folder, a folder outside the vault. Then the folder is created, a name
  collision is checked, and the body is rendered (normalised `#tags`, two line terminators, the
  content) and written.
- **Reading** a note by path (`ReadNote`) and the daily note for a date token (`GetDailyNote`).
  `GetDailyNote` shares the date-token resolution (`today`, `yesterday`, or an exact
  `yyyy-MM-dd` date) with `AddTaskToDaily`. Both reads use the case-insensitive vault prefix
  test.

Modules, one per file: `Common` (`Result`, failure kinds, the file view, the path services), `Text` (.NET
whitespace, `Trim`, ASCII case folding, `Split`/`Join`), `PathGuard` (vault containment),
`Dates`, `TaskMatcher` (`MarkTask`), `ShortList` (`AddTaskToDaily`) and `NoteStore` (`CreateNote`,
`ReadNote`, `GetDailyNote`).

Host features are parameters:

- The file system is a function from the path string an operation hands to `FileInfo` to a
  `FileView` (exists, canonical full name, text).
- `Path.IsPathRooted` and `Path.Combine` are the fields of a `Paths` value.
- The current date is a `today` parameter.
- `Path.GetFullPath`, `Path.GetRelativePath`, directory creation, existence tests, writing and
  `Environment.NewLine` are fields of a `Host` value.
- The vault path is a parameter.

Writes are returned as values (`Written`, `Effect`) rather than performed.

## Model

| member | source | states |
|---|---|---|
| Text.SplitJoin | ObsidianService.cs:302-328 | splitting a `'\n'`-join of line-break-free lines gives back exactly those lines |
| Text.Split | ObsidianService.cs:302 | `Split` yields at least one piece, no piece holds the separator, and joining the pieces gives back the text |
| Text.TrimEmptyIffBlank | ObsidianService.cs:427 | a trimmed line is empty exactly when the line is all whitespace (`string.IsNullOrWhiteSpace`) |
| Text.TrimEnds | ObsidianService.cs:410 | a non-empty trimmed line starts and ends with a non-whitespace character |
| PathGuard.ExtensionInVault | ObsidianService.cs:297 | any text spelled as the vault path followed by more characters passes; no separator boundary is demanded |
| PathGuard.SiblingPasses | ObsidianService.cs:383 | `/notes-private/secret.md` passes for the vault `/notes` |
| PathGuard.CaseIgnored | ObsidianService.cs:73 | letter case is ignored: `/NOTES/a.md` is inside `/notes` |
| Dates.PrevDay | ObsidianService.cs:362 | the day before a valid date is valid, and it is missing exactly for 0001-01-01, where `AddDays(-1)` throws |
| Dates.NextOfPrev | ObsidianService.cs:360-363 | the day after "yesterday" is today |
| Dates.Parse | ObsidianService.cs:364-367 | a string that parses names a valid calendar date |
| Dates.ParseFormat | ObsidianService.cs:364-374 | formatting a date as `yyyy-MM-dd` and parsing it back gives the same date |
| Dates.FormatParse | ObsidianService.cs:364-374 | a string that parses is exactly the formatting of its date: one spelling per date |
| Dates.Resolve | ObsidianService.cs:356-371 | `today` (any letter case) resolves to today; `yesterday` to the day before, failing with "out of range" exactly at 0001-01-01; any other token resolves exactly when it parses, to its parse, and otherwise fails as an invalid format |
| Dates.YesterdayIsDayBefore | ObsidianService.cs:360-363 | "yesterday", in any letter case, resolves to the day whose next day is today |
| Dates.ExplicitDatePath | ObsidianService.cs:364-375 | an explicit date token names the note `<token>.md`, looked up at `Combine(Combine(vault, "dailies"), <token>.md)` |
| TaskMatcher.StatusTableBijective | ObsidianService.cs:270-283 | the five status names and their checkbox characters correspond one to one |
| TaskMatcher.MarkerIsPlain | ObsidianService.cs:275-283 | no status writes `]`, `[` or a line break |
| TaskMatcher.MatchLenIffOccurs | ObsidianService.cs:312 | the scanner matches at an index exactly when `[c]` (c ≠ `]`), at least one whitespace, the text, and then whitespace or the end of the line occur there |
| TaskMatcher.MatchStartsAreMatches | ObsidianService.cs:315-319 | every position the replacement rewrites starts a match of the pattern |
| TaskMatcher.LeftmostIsRewritten | ObsidianService.cs:315-319 | the first match at or after the scan position is one the replacement rewrites |
| TaskMatcher.Leftmost | ObsidianService.cs:312-317 | behind every match there is a leftmost match, with none before it |
| TaskMatcher.ReplaceFromIsStamp | ObsidianService.cs:315-319 | the replacement scan gives the line with the status character written into the checkbox of exactly the matches it finds, and every other character copied |
| TaskMatcher.ReplaceLineScope | ObsidianService.cs:315-319 | the rewritten line has the same length, only the interior of each rewritten checkbox changes, and it becomes the status character |
| TaskMatcher.ReplaceChangesIffMatch | ObsidianService.cs:312-319 | a matching line has at least one checkbox rewritten; a line that does not match comes back unchanged |
| TaskMatcher.ReplaceKeepsShape | ObsidianService.cs:315-319 | a rewritten line differs from the original only between checkbox brackets |
| TaskMatcher.ReplaceIdempotent | ObsidianService.cs:312-319 | for a bracket-free text, rewriting twice gives the same line as rewriting once, and the line still matches exactly when it did |
| TaskMatcher.NotIdempotentWithBrackets | ObsidianService.cs:312-319 | for every status character c other than Open's, the text `[c]` turns `[ ] [ ] [c]` into `[ ] [c] [c]`, and a second rewrite changes that again, to `[c] [c] [c]` |
| TaskMatcher.MatchCountZeroIff | ObsidianService.cs:305-325 | the match count is zero exactly when no line matches |
| TaskMatcher.MarkEachLine | ObsidianService.cs:302-328 | splitting the note, the line loop and the join give the marked text and the match count |
| TaskMatcher.MarkLinesInPlace | ObsidianService.cs:305-321 | the loop over the line array leaves each line replaced by its rewrite when it matches and unchanged otherwise, and returns the number of matching lines |
| TaskMatcher.MarkTask | ObsidianService.cs:255-331 | checks run in order (blank text, blank path, unknown status, missing file, outside the vault) on the file at the given path when it is rooted and at `Combine(vault, path)` otherwise; then the rewrite; zero matches is "not found" and nothing is written |
| TaskMatcher.MarkKeepsLines | ObsidianService.cs:302-328 | marking keeps the number of lines; every non-matching line is identical and every matching line is its rewrite |
| TaskMatcher.NoMatchKeepsContent | ObsidianService.cs:302-328 | when nothing matches, split and rejoin give back the original text |
| TaskMatcher.MarkContentIdempotent | ObsidianService.cs:302-328 | marking the written text again, for a bracket-free text, writes the same text and counts the same |
| TaskMatcher.MarkTaskIdempotent | ObsidianService.cs:255-331 | a second `MarkTask` on the text the first one wrote returns the same outcome |
| TaskMatcher.StatusCheckedBeforeRead | ObsidianService.cs:270-301 | an unknown status is refused whatever is on disk |
| TaskMatcher.PrefixOfWordNotMatched | ObsidianService.cs:312 | `Call Met` does not match `- [ ] Call MetEd` |
| TaskMatcher.WordFollowedBySpaceMatched | ObsidianService.cs:312 | `Call Met` matches `[ ] Call Met today` |
| TaskMatcher.FullTextMatched | ObsidianService.cs:312 | `Call MetEd` matches `- [ ] Call MetEd` at its checkbox, over the rest of the line |
| TaskMatcher.CompletedExample | ObsidianService.cs:277-319 | marking `Call MetEd` as Completed turns `- [ ] Call MetEd` into `- [x] Call MetEd` |
| ShortList.SlotShapeIff | ObsidianService.cs:420 | the empty-slot scanner accepts exactly `-`, whitespace, `[`, whitespace, `]`, whitespace (`^-\s+\[\s*\]\s*$`) |
| ShortList.SlotSurvivesTrimEnd | ObsidianService.cs:410-420 | trailing whitespace never changes whether a line is an empty slot |
| ShortList.PrefixSurvivesTrimEnd | ObsidianService.cs:410-417 | a prefix ending in a non-whitespace character survives trimming at the end |
| ShortList.TrimmedClasses | ObsidianService.cs:410-438 | the source's tests on the trimmed line (`####`, `- [`, the empty-slot pattern), in its order, agree with the line classes the scan uses |
| ShortList.PlaceholderIsEmptySlot | ObsidianService.cs:420 | the template placeholder `- [ ] ` is an empty slot |
| ShortList.FilledSlotIsTask | ObsidianService.cs:417-420 | a new task line `- [ ] <text>`, for any non-blank text, is a task line but not an empty slot |
| ShortList.FindHeader | ObsidianService.cs:390-399 | the header search returns the first line containing "Short List", or -1 when there is none |
| ShortList.ScanSection | ObsidianService.cs:405-442 | the tracking loop returns the plan of the section reading: fill the first empty slot of the task run, insert after the run, or the malformed / no-tasks error |
| ShortList.EditShortList | ObsidianService.cs:390-454 | the header search, the scan and the list update give the specified edited lines or error |
| ShortList.ApplyShape | ObsidianService.cs:445-454 | filling a slot changes that one line; inserting adds one line, and removing it gives back the original lines in order |
| ShortList.TaskRunFound | ObsidianService.cs:408-439 | the task run after the header is the one the plan locates |
| ShortList.PlanOkIff | ObsidianService.cs:408-442 | the scan succeeds exactly when the header is followed by a task run with no heading before it or right after it |
| ShortList.FillSlotIff | ObsidianService.cs:419-448 | a line is overwritten exactly when it is the first empty slot of the task run |
| ShortList.InsertAtIff | ObsidianService.cs:425-453 | a line is inserted at an index exactly when that index ends a task run with no empty slot, right after its last task |
| ShortList.NoTasksIff | ObsidianService.cs:441-442 | "no tasks" exactly when no line after the header is a task line or a heading |
| ShortList.MalformedIff | ObsidianService.cs:413-414 | "malformed" exactly when the scan reaches a `####` heading before it stops |
| ShortList.SectionNotFoundIff | ObsidianService.cs:390-402 | "section not found" exactly when no line contains "Short List" |
| ShortList.EditChangesOneLine | ObsidianService.cs:445-454 | a successful edit overwrites one empty slot below the header, or inserts one line right after a task line below the header; every other line keeps its content and order |
| ShortList.AddTaskToDaily | ObsidianService.cs:340-460 | checks in order (blank text, blank date, unresolvable date, missing note, outside the vault), then the section edit, and the note is written only on success |
| ShortList.WrittenLines | ObsidianService.cs:387-457 | for a task text without a line break, the written note splits back into exactly the edited lines |
| ShortList.HeaderLine | ObsidianService.cs:394 | `## Short List` is a header line |
| ShortList.BlankIsOther | ObsidianService.cs:427-431 | a blank line closes a task run |
| ShortList.HeadingLine | ObsidianService.cs:413 | `#### Notes` is a heading line |
| ShortList.FillPlaceholderScenario | ObsidianService.cs:445-448 | in a note made of the header, an empty slot and a blank line, the slot is taken over by the new task and no line is added |
| ShortList.AppendAfterLastTaskScenario | ObsidianService.cs:450-453 | in a note made of the header, a filled task line and a blank line, the new task goes right after the task, before the blank line |
| ShortList.HeadingWithoutSeparatorScenario | ObsidianService.cs:413-414 | in a note made of the header, a task line and a heading, the section is malformed |
| NoteStore.ReadNoteOutcome | ObsidianService.cs:60-76 | a read succeeds exactly when the path is not blank, the file `FileInfo` finds at that path exists and is inside the vault, and then it returns the file's text |
| NoteStore.DailyNoteOutcome | ObsidianService.cs:123-165 | a daily read succeeds exactly when the token is not blank and resolves, and the note at `Combine(vault, "dailies", <date>.md)` exists inside the vault, returning its text; otherwise it fails with the first of blank token, the resolution's failure, missing note, outside the vault |
| NoteStore.AddTaskFailsLikeRead | ObsidianService.cs:347-384 | for a non-blank task, every way the daily read fails makes adding fail the same way |
| NoteStore.AddTaskEditsDailyNote | ObsidianService.cs:374-387 | for a task text without a line break, a task is added to the note the daily read returns, and the written lines are that note's lines after the edit |
| NoteStore.MarkedFileIsReadable | ObsidianService.cs:286-302 | the file `MarkTask` rewrites is the one `ReadNote` reads when handed the path `MarkTask` looked up (for a rooted path, the path itself), and the rewrite keeps its line count |
| NoteStore.NormalizeTag | ObsidianService.cs:227 | a rendered tag starts with `#` and ends with the given tag; a tag starting with `#` is kept as is, and any other gets exactly one character more |
| NoteStore.NormalizeTagAddsHash | ObsidianService.cs:227 | a tag without a leading `#` is rendered as `#` followed by the tag |
| NoteStore.NormalizeTagIdempotent | ObsidianService.cs:227 | normalising a normalised tag changes nothing |
| NoteStore.BodyEndsWithContent | ObsidianService.cs:222-232 | the content ends the body verbatim, and without tags it is the whole body |
| NoteStore.BodyReadsBack | ObsidianService.cs:222-232 | with `\n` line ends and tags free of spaces and line breaks, the first body line splits into the normalised tags, the second is empty, and the rest are the content's lines |
| NoteStore.CreateNote | ObsidianService.cs:174-245 | the steps, including the body built piece by piece, give the specified effects and answer |
| NoteStore.BuildBody | ObsidianService.cs:222-232 | the string builder steps give the rendered body: with tags, the tags line and an empty line before the content; without, the content |
| NoteStore.ValidationOrder | ObsidianService.cs:183-201 | each check (blank title, blank content, dailies folder, folder outside the vault) fires exactly when the earlier ones passed and its own condition holds |
| NoteStore.NoEffectIffEarlyFailure | ObsidianService.cs:183-213 | nothing is created exactly when one of the checks or the folder creation fails |
| NoteStore.CollisionKeepsFolder | ObsidianService.cs:203-219 | an existing note is reported after the folder was created, and the folder stays |
| NoteStore.CreatedNote | ObsidianService.cs:203-240 | a created note is a new file at `Combine(target folder, <title>.md)` holding the rendered body, written after the folder creation, and the answer is its path relative to the vault |
| NoteStore.TitleNotChecked | ObsidianService.cs:194-215 | the vault test looks at the folder only: whether it refuses the call is the same for every non-blank title |
| NoteStore.RootFolderPasses | ObsidianService.cs:194-201 | without a folder the containment check always passes |
| NoteStore.DailiesCheckIsExact | ObsidianService.cs:189-190 | `Dailies` is refused, but `./dailies`, `dailies/` and no folder are not caught by the check |

## Left out

- Program.cs is not part of this model: argument checking, host construction, logging and the stdio transport.
- `SearchNotes` and `ListRecentNotes` are left out. They are directory enumeration, timestamp ordering and formatting, with no text logic beyond a case-insensitive `Contains`.
- Real file I/O, `async`/`await` and the catch-all exception handlers are left out. Reads are a `FileView` parameter, and writes are returned as `Written` and `Effect` values. An exception thrown half-way through a write is not modelled.
- `Path.Combine`, `Path.GetFullPath`, `Path.GetRelativePath` and `Path.IsPathRooted` are library canonicalisation. They are uninterpreted functions (`Paths`, `Host`). The three-argument `Path.Combine` of the daily-note path is two two-argument combinations. Canonicalising a looked-up path to the file's full name happens inside the `fs` parameter.
- `ReadNote` hands its path to `FileInfo` unchanged, so a relative path names a file under the process's working directory, not under the vault. The working directory is inside `fs`. `MarkTask` resolves the same relative path under the vault, so the two may name different files. `NoteStore.MarkedFileIsReadable` is stated for the path `MarkTask` looked up.
- The note title in `CreateNote` is checked only for being blank, never against the vault. A title such as `../x`, or a rooted one, puts the note outside the target folder and possibly outside the vault, because only the folder passes the vault test. `NoteStore.TitleNotChecked` states this; where such a path ends up is left to the uninterpreted `Combine`.
- Parsing and formatting a `yyyy-MM-dd` date use the current culture's calendar. The model assumes it is the Gregorian calendar, with years 1 to 9999.
- The static, mutable vault path is an ordinary parameter of every operation.
- Error message texts are not modelled. Each message is one `Failure` constructor, and the success messages are not modelled either.
- Null arguments are not modelled: null strings, and null elements of the tag array (which throw in the source). A missing tag array or folder is `None`.
- Case-insensitive comparisons fold ASCII letters only. .NET's ordinal-ignore-case comparison also folds other letters.
- `t.StartsWith("#")`, `line.StartsWith("####")` and `line.StartsWith("- [")` use culture-sensitive comparison in .NET, which skips zero-width characters. They are modelled as ordinal prefix tests.
- Strings are sequences of Unicode scalar values, since a Dafny `char` is one. .NET strings are sequences of UTF-16 code units. A character outside the Basic Multilingual Plane (an emoji, say) is one `char` in the model but two units in .NET. So the model's `[^\]]` takes `- [🙂] a` as a checkbox and marks it for the text `a`, where the source sees two units between the brackets and reports the task as not found. The model does not capture this difference.
- Whitespace is the set of `char.IsWhiteSpace`, which is also the set of the regex class `\s`.
- `TaskMatcher.ReplaceIdempotent` is proved only for task text without `[` or `]`, a non-empty text and a status character other than `]`. `TaskMatcher.NotIdempotentWithBrackets` shows the property fails for bracketed text.
- `TaskMatcher.MarkContentIdempotent` carries the same restriction to bracket-free task text, for the same reason.
- `TaskMatcher.MarkTaskIdempotent` carries the same restriction to bracket-free task text, for the same reason.
- `ShortList.WrittenLines` is proved only for task text without a line break. The source accepts such text, and the new task then spans several lines of the written note.
- `NoteStore.AddTaskEditsDailyNote` carries the same restriction to task text without a line break, for the same reason.
- `ShortList.EditShortList` classifies every line before its scan. The source classifies each line inside the loop as it reaches it. The outcome is the same because classifying is pure.
- `ShortList.ScanSection` treats blank and other non-task lines alike, as the source does. Both end a task run once one has started.
- `NoteStore.CreateNote` records a folder creation as one effect, even when the folder already existed (`Directory.CreateDirectory` is then a no-op).
- `NoteStore.CreateNote` records a failed write as no write.
- `NoteStore.DailiesCheckIsExact` states what the exact comparison does not catch. Whether other spellings of the daily-notes folder should be refused is not modelled.
