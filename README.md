# ATLAS session scripts, modelled in Dafny

ATLAS keeps an assistant's working memory in a `.atlas/` checkout inside a
project. This project models the four scripts that manage that checkout:

- `save_session.py` writes a session record to `sessions/Session_<id>.json` and
  to `sessions/LATEST.json`. It appends an entry to the day's
  `WORKING_LOG/<year>/<mm-mon>/<dd>.md`. When the extended context carries
  `important_notes`, it appends a dated line under `## Critical Notes` in
  `SHORT_IMPORTANT_MEMORY.md`.
- `resume_session.py` lists the saved sessions newest first. It loads one
  session (the latest, or one named by id) and renders it as a report or as a
  one-line digest.
- `setup_new_project.py` installs the atlas into a project. It writes a
  project `CLAUDE.md` whose references point into `.atlas/`, creates the
  working directories, copies the memory template and adds the atlas block to
  `.gitignore` once.
- `update_atlas.py` checks that the checkout is clean, backs up the
  customisations and session data, and pulls the latest atlas. It then
  regenerates the project `CLAUDE.md` and restores the customisations.

The modules are `Text` (Python's `strip`, `find`, `split`, `replace`, `lower`,
`title`, `ljust` and string ordering), `Clock` (the `strftime` fields and
session ids), `Records` (the session record, its git section, and `repr` of the extended-context values), `Files`
(the project directory as a map from paths to contents plus a set of
directories, held by the `FileStore` class), and one module per script:
`SaveSession`, `ResumeSession`, `SetupProject` and `UpdateAtlas`. Each script's
class (`AtlasSessionSaver`, `AtlasSessionResumer`, `AtlasUpdater`) becomes a
Dafny class over a shared `FileStore`. Its methods change the store in place,
and each is proved equal to a function of the old store. The properties are
stated and proved about those functions.

Everything outside the program is a parameter:

- the clock is one `DateTime` per `datetime.now()` call;
- git output is an oracle value (`GitOutputs`, `PullOracle`, the porcelain
  status);
- the user's answer to the prompt is a string;
- the working directory, the `USER` variable and the Python version are
  strings.

A file holding a session record is a `RecordFile`; reading one back yields the
same record. Any other file is a `TextFile`.

## Model

| member | source | states |
|---|---|---|
| Text.RStripSpec | scripts/save_session.py:200 | `rstrip` leaves a prefix that does not end in whitespace and removes only whitespace |
| Text.LStripSpec | scripts/save_session.py:50 | the left strip leaves a suffix that does not start with whitespace and removes only whitespace |
| Text.StripEmpty | scripts/update_atlas.py:38 | `strip()` gives the empty (falsy) string exactly when the text is all whitespace |
| Text.RStripKeepsPrefix | scripts/save_session.py:200 | `rstrip` never reaches past a prefix that ends in a non-space character |
| Text.Find | scripts/save_session.py:194 | the index found is -1, or an index from which the pattern fits inside the text |
| Text.FindOccurs | scripts/save_session.py:194 | a non-negative `find` result is an index at which the pattern occurs |
| Text.FindFirst | scripts/save_session.py:196 | `find` returns the first occurrence: no occurrence lies before it |
| Text.Split | scripts/save_session.py:196 | `split` always returns at least one piece |
| Text.SplitJoin | scripts/setup_new_project.py:51-58 | joining the pieces of `split` with the same separator gives back the text |
| Text.SplitPiecesClean | scripts/save_session.py:196 | no piece of `split` contains the separator |
| Text.SplitOnePiece | scripts/resume_session.py:138 | `split` gives a single piece exactly when the separator is absent |
| Text.SplitFirstTwo | scripts/save_session.py:196-200 | when the separator occurs, piece 0 is the text before its first occurrence and piece 1 runs up to the next one |
| Text.ReplaceJoinsPieces | scripts/setup_new_project.py:63-75 | `replace` equals splitting on the pattern and joining with the replacement |
| Text.ReplaceAbsent | scripts/setup_new_project.py:63-75 | `replace` of an absent pattern leaves the text unchanged |
| Text.ReplaceKeepsPrefix | scripts/setup_new_project.py:60-75 | a newline-terminated prefix without the (single-line) pattern is left alone by `replace` |
| Text.Lower | scripts/update_atlas.py:42 | `lower` keeps the length and lowers each letter, leaving other characters alone |
| Text.Title | scripts/resume_session.py:122 | `title` keeps the length and every non-letter; each letter keeps its letter, upper-cased exactly when it starts a run of letters and lower-cased otherwise |
| Text.CaseRoundTrip | scripts/save_session.py:132 | upper-casing a lowered capital gives the capital back |
| Text.LowerIsY | scripts/update_atlas.py:42 | an answer lowers to `y` exactly when it is `y` or `Y` |
| Text.ZeroPad | scripts/save_session.py:144 | a zero-padded field has exactly its width and only digits |
| Text.ZeroPadOrder | scripts/save_session.py:144 | zero-padded numbers of one width sort as strings exactly as they sort as numbers, and are equal exactly when the numbers are |
| Text.LJust | scripts/resume_session.py:232 | `ljust` keeps the text as a prefix, pads with spaces and reaches the width |
| Text.LexTotal | scripts/resume_session.py:27 | string order compares every two distinct names |
| Text.LexTransitive | scripts/resume_session.py:27 | string order is transitive |
| Text.LexAsymmetric | scripts/resume_session.py:27 | string order is asymmetric |
| Text.LexConcat | scripts/save_session.py:144 | with equal-length heads, concatenations sort by head and then by tail |
| Text.LexMaxExists | scripts/resume_session.py:27 | every non-empty set of names has a greatest name, the first one `sorted(reverse=True)` yields |
| Clock.MonthAbbrev | scripts/save_session.py:36 | `%b` is three letters, a capital and two small ones |
| Clock.YearField | scripts/save_session.py:35 | `%Y` is four digits |
| Clock.MonthField | scripts/save_session.py:36 | the month bucket is two digits, `-`, then the lowered month abbreviation |
| Clock.DayField | scripts/save_session.py:37 | `%d` is two digits |
| Clock.SessionId | scripts/save_session.py:143-144 | the session id is 15 characters: 8 digits, `_`, 6 digits |
| Clock.MonthHeaderName | scripts/save_session.py:132 | the log header's `month.split('-')[1].title()` gives back the month abbreviation |
| Clock.TitleOfLower | scripts/save_session.py:132 | title-casing a lowered abbreviation restores it |
| Clock.SessionIdOrder | scripts/save_session.py:143-144 | session ids sort as strings exactly as their times sort in time |
| Clock.SessionIdInjective | scripts/save_session.py:143-144 | two times give the same session id exactly when they are the same time |
| Records.NonEmpty | scripts/save_session.py:78-79 | the filter keeps exactly the non-empty names, in their order |
| Records.NonEmptyCounts | scripts/save_session.py:78-79 | the filter keeps every non-empty name as many times as it occurs and drops every empty one |
| Records.CommitsOneLine | scripts/save_session.py:65-68 | no line of a split on newlines holds a newline |
| Records.GetGitInfo | scripts/save_session.py:39-84 | no git section exactly when a git call fails; the branch and status are the stripped outputs; the file lists are the non-empty lines of the diffs, in order and with their multiplicities; the commit lines hold no newline and join back to the stripped log |
| Records.StrRepr | scripts/save_session.py:201 | `repr` of a text starts and ends with its quote, and what lies between reads back as the text |
| Records.ReprQuote | scripts/save_session.py:201 | `repr` picks double quotes exactly when the text holds a single quote and no double quote |
| Records.EscapedRoundTrip | scripts/save_session.py:201 | the escaped text between the quotes reads back as the original text |
| Records.EscapedOneLine | scripts/save_session.py:201 | the escaped text holds no line feed and no carriage return |
| Records.ListReprOneLine | scripts/save_session.py:201 | a list value rendered into the note line never holds a line break |
| Records.PlainRepr | scripts/save_session.py:201 | a text with no quote, backslash or control character renders as itself between single quotes |
| Records.Lookup | scripts/save_session.py:182-183 | a key is absent exactly when no entry has it; when present the value is one of that key's entries |
| Files.ReadText | scripts/setup_new_project.py:35-36 | reading a non-record file yields its text |
| Files.CopyIfExists | scripts/update_atlas.py:59-64 | an existing source adds the destination and gives it the source's contents; every other path keeps its contents; a missing source changes nothing |
| Files.CopyKeepsValid | scripts/update_atlas.py:59-64 | copying keeps records under `.json` names only |
| SaveSession.AppendKeepsOld | scripts/save_session.py:126-139 | an existing log keeps all its text, followed by a line break and the entry; a new log is the header followed by the entry |
| SaveSession.UpToSecondPieces | scripts/save_session.py:196-200 | the kept part is everything before the marker, the marker, then the text up to the next marker |
| SaveSession.UpToSecondStripped | scripts/save_session.py:196-200 | the kept part is the text before the first marker, the marker, and the right-stripped stretch up to any second marker |
| SaveSession.NoteCutsAtSecondMarker | scripts/save_session.py:194-202 | the note rewrite keeps the document up to a second `## Critical Notes` (what follows it is dropped) and appends the dated note line |
| SaveSession.NoteNeedsMarker | scripts/save_session.py:187-203 | the note changes only the memory document, creates no file, and changes nothing unless the document exists and has the marker |
| SaveSession.SessionPathIsJson | scripts/save_session.py:169-174 | both record files have `.json` names |
| SaveSession.MarkdownPathsDiffer | scripts/save_session.py:100-105 | the log file, the memory document and the two record files are four different paths |
| SaveSession.SaveWritesBothCopies | scripts/save_session.py:168-179 | after a save the session file and `LATEST.json` hold the same record, and the only new paths are those two and the day's log |
| SaveSession.SaveKeepsLog | scripts/save_session.py:126-129 | saving on a day whose log exists keeps the old log text in front of the new entry |
| SaveSession.MemoryOnlyOnRequest | scripts/save_session.py:181-183 | without `important_notes` the memory document is untouched |
| SaveSession.AtlasSessionSaver.constructor | scripts/save_session.py:17-37 | creates `sessions/`, changes no file, and fixes the year, month bucket and day from one clock reading |
| SaveSession.AtlasSessionSaver.ReadShortMemory | scripts/save_session.py:86-91 | the memory text is returned exactly when the document exists |
| SaveSession.AtlasSessionSaver.CreateWorkingLogEntry | scripts/save_session.py:100-139 | creates the bucket directories and writes the appended log of the day; nothing else changes |
| SaveSession.AtlasSessionSaver.UpdateShortMemory | scripts/save_session.py:187-203 | the files become the note rewrite of the old files |
| SaveSession.AtlasSessionSaver.SaveSession | scripts/save_session.py:141-185 | returns the session path and the record built from the clock, git, memory and bucket; the files become the result of all of a save's writes |
| ResumeSession.Preview | scripts/resume_session.py:35 | a context of at most 50 characters is shown whole; a longer one is shown as its first 50 characters followed by `...` |
| ResumeSession.PreviewIdentity | scripts/resume_session.py:35 | the preview is the context itself exactly when it is at most 50 characters or its remainder after 50 is `...` |
| ResumeSession.LatestNotListed | scripts/resume_session.py:27 | `LATEST.json` does not match the `Session_*.json` pattern |
| ResumeSession.SessionFileListed | scripts/resume_session.py:27 | every file a save names matches the `Session_*.json` pattern |
| ResumeSession.ListingUnique | scripts/resume_session.py:21-40 | the listing of a directory is unique |
| ResumeSession.DescendingUnique | scripts/resume_session.py:27 | two descending lists of the same readable session files are equal |
| ResumeSession.SessionPathOrder | scripts/resume_session.py:27 | session file names sort as their ids do |
| ResumeSession.NewestFirst | scripts/resume_session.py:27 | when every session file was written by a save, the listing runs from the newest save to the oldest |
| ResumeSession.LoadSession | scripts/resume_session.py:42-58 | without an id, `LATEST.json` is loaded; with one, `Session_<id>.json` is tried first and `<id>.json` next; not found exactly when none of those exists |
| ResumeSession.PrefixOptional | scripts/resume_session.py:44-49 | when `Session_Session_<id>.json` is absent, asking for `Session_<id>` finds what asking for `<id>` finds if `Session_<id>.json` exists, and nothing otherwise |
| ResumeSession.SaveThenResume | scripts/resume_session.py:42-58 | right after a save, resuming the latest session or that id loads the record just saved |
| ResumeSession.SavedSessionListed | scripts/resume_session.py:21-40 | right after a save, the listing has the saved session's summary |
| ResumeSession.CappedAccounts | scripts/resume_session.py:97-109 | a capped list shows the first items in order and adds the count of the hidden ones exactly when some are hidden |
| ResumeSession.HeadingHasNoUnderscore | scripts/resume_session.py:122 | an extended-context heading never shows an underscore |
| ResumeSession.ExcerptIsPrefix | scripts/resume_session.py:135-139 | the memory excerpt is the start of the document, and all of it exactly when the document has at most ten lines |
| ResumeSession.LogRefIsSavedLog | scripts/resume_session.py:143-148 | the log reference names the log file the save appended to |
| ResumeSession.DisplayFrame | scripts/resume_session.py:60-169 | the report opens and closes with the double rule and shows the context and the next task at fixed lines |
| ResumeSession.DigestShape | scripts/resume_session.py:171-191 | the digest starts with its title part followed by the session id part |
| ResumeSession.DigestPartCount | scripts/resume_session.py:173-181 | the digest has four parts plus one exactly when there are modified files |
| ResumeSession.ListOutputShape | scripts/resume_session.py:219-238 | the list shows at most 20 rows in order, a count line exactly when more exist, and ends with the resume hint |
| ResumeSession.RowStartsWithId | scripts/resume_session.py:232 | each row starts with the id, padded to column 20 |
| ResumeSession.ResumeAfterSave | scripts/resume_session.py:240-268 | resuming right after a save prints that session's report and quick commands, or its digest |
| ResumeSession.NoCrashOnRecords | scripts/resume_session.py:240-256 | a run only crashes on a `.json` file that does not hold a record |
| ResumeSession.CoverStep | scripts/resume_session.py:27-38 | each visited readable file is listed and stays listed |
| ResumeSession.ListStep | scripts/resume_session.py:27-38 | appending the greatest remaining name keeps the list descending |
| ResumeSession.AtlasSessionResumer.ListSessions | scripts/resume_session.py:21-40 | returns the listing: empty without `sessions/`, otherwise every readable session file and nothing else, greatest name first |
| ResumeSession.AtlasSessionResumer.FormatSessionDisplay | scripts/resume_session.py:60-169 | builds the report lines of the record |
| ResumeSession.AtlasSessionResumer.AppendGit | scripts/resume_session.py:90-115 | appends the git section |
| ResumeSession.AtlasSessionResumer.AppendFileList | scripts/resume_session.py:97-109 | appends a titled, capped file list |
| ResumeSession.AtlasSessionResumer.AppendCommits | scripts/resume_session.py:111-114 | appends at most three commits |
| ResumeSession.AtlasSessionResumer.AppendExtended | scripts/resume_session.py:117-128 | appends the extended-context section |
| ResumeSession.AtlasSessionResumer.AppendMemory | scripts/resume_session.py:130-140 | appends the memory excerpt section |
| ResumeSession.AtlasSessionResumer.AppendCapped | scripts/resume_session.py:99-102 | appends a capped bullet list |
| ResumeSession.AtlasSessionResumer.AppendPrefixed | scripts/resume_session.py:124-125 | appends one prefixed line per item |
| ResumeSession.AtlasSessionResumer.AppendEntries | scripts/resume_session.py:121-127 | appends each entry's heading and values |
| ResumeSession.AtlasSessionResumer.AppendEntry | scripts/resume_session.py:122-127 | appends one entry's heading and then its items or its value |
| ResumeSession.AtlasSessionResumer.GenerateClaudeContext | scripts/resume_session.py:171-191 | returns the digest of the record |
| ResumeSession.AtlasSessionResumer.AppendEntryDigests | scripts/resume_session.py:183-189 | appends one digest part per entry |
| ResumeSession.AtlasSessionResumer.Run | scripts/resume_session.py:216-256 | with `-l` prints the listing; otherwise prints the not-found message, the digest, or the report with quick commands, or stops on an unreadable file |
| ResumeSession.AtlasSessionResumer.ListCommand | scripts/resume_session.py:219-238 | prints the list output for the sessions |
| SetupProject.RulesNoOp | scripts/setup_new_project.py:63-75 | the rewrites change nothing in a text holding none of their patterns |
| SetupProject.RulesKeepHead | scripts/setup_new_project.py:60-75 | a newline-terminated head free of the patterns passes through the rewrites unchanged |
| SetupProject.HeaderSurvivesRewrite | scripts/setup_new_project.py:39-75 | a pattern-free header put in front survives the thirteen rewrites |
| SetupProject.RewriteAll | scripts/setup_new_project.py:62-75 | applies the rewrites one after another |
| SetupProject.FirstRule | scripts/setup_new_project.py:53-57 | finds the first line that strips to `---`, or -1 when there is none |
| SetupProject.FirstRuleAt | scripts/setup_new_project.py:53-57 | the first rule line is the one before which no line is a rule |
| SetupProject.HeaderKeptWithoutRule | scripts/setup_new_project.py:50-58 | content not starting with `# CLAUDE.md`, or without a rule line, is kept whole |
| SetupProject.HeaderDroppedThroughRule | scripts/setup_new_project.py:50-58 | otherwise the text up to and including the first rule line is dropped, and what is kept is exactly the rest |
| SetupProject.StripHeader | scripts/setup_new_project.py:49-58 | removes the header |
| SetupProject.ContentStart | scripts/setup_new_project.py:53-57 | the loop returns the line after the first rule, or 0 |
| SetupProject.MakeProjectClaudeMd | scripts/setup_new_project.py:34-75 | builds the project `CLAUDE.md` text |
| SetupProject.BlockHasMarker | scripts/setup_new_project.py:96-103 | the `.gitignore` block contains its own marker line |
| SetupProject.GitignoreOnce | scripts/setup_new_project.py:95-117 | the update keeps the old text in front, always leaves the marker, and a second update changes nothing |
| SetupProject.WithClaudeMd | scripts/setup_new_project.py:30-80 | the `CLAUDE.md` step keeps records under `.json` names only |
| SetupProject.WithMemory | scripts/setup_new_project.py:89-93 | the template step keeps records under `.json` names only |
| SetupProject.WithGitignore | scripts/setup_new_project.py:95-117 | the `.gitignore` step keeps records under `.json` names only |
| SetupProject.SetupFiles | scripts/setup_new_project.py:30-117 | a whole setup keeps records under `.json` names only |
| SetupProject.SetupPathsApart | scripts/setup_new_project.py:30-117 | no file setup reads is one that it writes |
| SetupProject.SetupWritesThree | scripts/setup_new_project.py:30-117 | setup changes only `CLAUDE.md`, the memory document and `.gitignore` |
| SetupProject.ClaudeMdAgain | scripts/setup_new_project.py:30-80 | after a setup, the `CLAUDE.md` step writes the same file again |
| SetupProject.MemoryAgain | scripts/setup_new_project.py:89-93 | after a setup, the template step writes the same file again |
| SetupProject.GitignoreAgain | scripts/setup_new_project.py:105-117 | after a setup, the `.gitignore` step changes nothing |
| SetupProject.SetupIdempotent | scripts/setup_new_project.py:9-117 | running setup twice leaves the same files as running it once |
| SetupProject.WriteProjectClaudeMd | scripts/setup_new_project.py:30-80 | writes the project `CLAUDE.md` when the atlas one exists |
| SetupProject.MakeWorkDirs | scripts/setup_new_project.py:84-87 | adds the three working directories and changes no file |
| SetupProject.CopyTemplate | scripts/setup_new_project.py:89-93 | copies the template over the memory document when the template exists |
| SetupProject.UpdateGitignore | scripts/setup_new_project.py:95-117 | writes the updated `.gitignore` |
| SetupProject.SetupNewProject | scripts/setup_new_project.py:9-126 | refuses inside the checkout or without `.atlas`, changing nothing; otherwise leaves the setup files and the working directories |
| UpdateAtlas.GitCheckDecision | scripts/update_atlas.py:29-46 | the check passes exactly when git ran and the status is all whitespace or the answer is `y` or `Y` |
| UpdateAtlas.PullDecision | scripts/update_atlas.py:73-111 | up to date exactly when the fetch works and the diff is blank; pulled exactly when it is not blank and the pull works; a failed fetch or a blank diff changes no file; otherwise the pull's writes land, whether it succeeds or fails |
| UpdateAtlas.PullKeepsValid | scripts/update_atlas.py:101-105 | a pull keeps records under `.json` names only |
| UpdateAtlas.CopyEachValid | scripts/update_atlas.py:59-64 | copying markdown files keeps records under `.json` names only |
| UpdateAtlas.CustomFilesMarkdown | scripts/update_atlas.py:54-57 | both customisation files are markdown files |
| UpdateAtlas.SameTail | scripts/update_atlas.py:67-71 | two session paths with the same copy are the same path |
| UpdateAtlas.CopySessionsElsewhere | scripts/update_atlas.py:67-71 | copying the sessions changes nothing outside the sessions backup |
| UpdateAtlas.JsonTail | scripts/update_atlas.py:70 | the copy of a `.json` session file has a `.json` name |
| UpdateAtlas.CopySessionsValid | scripts/update_atlas.py:67-71 | copying the sessions keeps records under `.json` names only |
| UpdateAtlas.BackupFiles | scripts/update_atlas.py:48-71 | the backup keeps records under `.json` names only |
| UpdateAtlas.RestoreFiles | scripts/update_atlas.py:168-182 | the restore keeps records under `.json` names only |
| UpdateAtlas.CopyBoth | scripts/update_atlas.py:172-182 | copying the customisations copies the memory document and then the project-specific one |
| UpdateAtlas.BackupPathsApart | scripts/update_atlas.py:27 | backup copies, atlas originals and the project `CLAUDE.md` are pairwise different paths |
| UpdateAtlas.BackupNotSession | scripts/update_atlas.py:27 | no backup copy lies in `sessions/` |
| UpdateAtlas.SessionCopiesApart | scripts/update_atlas.py:67-71 | no session copy overwrites a customisation, its backup or the project `CLAUDE.md` |
| UpdateAtlas.CustomCopies | scripts/update_atlas.py:53-64 | an existing customisation is copied into the backup; a missing one leaves the backup path as it was; nothing outside the backup changes |
| UpdateAtlas.CopySessionsCopies | scripts/update_atlas.py:70-71 | `copytree` puts a copy of each file under `sessions/` at the same name under the backup's `sessions/`, with the same contents |
| UpdateAtlas.SessionsBackedUp | scripts/update_atlas.py:67-71 | when `sessions/` exists and is non-empty, the backup holds a copy of every session file with its contents |
| UpdateAtlas.NoSessionsNoCopies | scripts/update_atlas.py:67-71 | otherwise nothing appears under the backup's `sessions/`: its paths are present, with the same contents, exactly when they were before |
| UpdateAtlas.BackupCopiesExisting | scripts/update_atlas.py:48-71 | the same holds for the whole backup, session copy included |
| UpdateAtlas.RestoreCopiesBack | scripts/update_atlas.py:168-182 | each backed-up customisation is copied back, one not backed up is left as it is, and no other file changes |
| UpdateAtlas.BlockHasReference | scripts/update_atlas.py:153-160 | the appended block contains the project-specific reference |
| UpdateAtlas.SpecificOnce | scripts/update_atlas.py:150-160 | the append keeps the content in front, adds the reference when the file exists, does nothing when it does not, and is not repeated |
| UpdateAtlas.ClaudeStep | scripts/update_atlas.py:113-166 | the `CLAUDE.md` step keeps records under `.json` names only |
| UpdateAtlas.ClaudeStepWrites | scripts/update_atlas.py:113-166 | without the atlas `CLAUDE.md` nothing changes; otherwise the project one becomes the rewritten atlas text and its old version is backed up; no other file changes |
| UpdateAtlas.UpdatedFiles | scripts/update_atlas.py:200-229 | a whole update keeps records under `.json` names only |
| UpdateAtlas.FailedPullKeepsBackup | scripts/update_atlas.py:200-229 | when the pull fails after the backup, the backup still holds each customisation's old content |
| UpdateAtlas.CustomizationsSurvive | scripts/update_atlas.py:200-229 | a customisation present before the update holds its old content afterwards, whatever the pull brings to the atlas |
| UpdateAtlas.AtlasUpdater.constructor | scripts/update_atlas.py:15-27 | fixes the backup directory from one clock reading |
| UpdateAtlas.AtlasUpdater.BackupCustomizations | scripts/update_atlas.py:48-71 | the files and directories become the backup of the old ones |
| UpdateAtlas.AtlasUpdater.PullLatest | scripts/update_atlas.py:73-111 | succeeds exactly when neither the fetch nor the pull fails; the files become those after the pull, including what a failed pull wrote |
| UpdateAtlas.AtlasUpdater.UpdateProjectClaudeMd | scripts/update_atlas.py:113-166 | the files become those after the `CLAUDE.md` step |
| UpdateAtlas.AtlasUpdater.RestoreCustomizations | scripts/update_atlas.py:168-182 | the files become the restore of the old ones |
| UpdateAtlas.AtlasUpdater.RunUpdate | scripts/update_atlas.py:200-240 | without `.atlas` or a passed check nothing changes and the run fails; a failed pull leaves the backup plus whatever the pull wrote, and fails; otherwise it succeeds with the files of a whole update |

## Left out

- `migrate_existing_project.py` is not part of this model.
- Printing: banners, progress lines and `show_changelog` (`update_atlas.py`) only print, so they are left out. The resume script's printed lines are modelled as values.
- Command-line parsing (`argparse`) is left out. The scripts' entry points take the parsed arguments as parameters.
- Git is not run. Its outputs are oracle values. The status check models a git that cannot start as `None`. A git that starts and fails prints nothing on stdout, which reads as a clean status.
- A pull is modelled as files added or overwritten under `.atlas/`, by a pull that succeeds or by one that stops part-way (for example on a merge conflict). Deletions and renames that a pull brings are not modelled.
- `UpdateAtlas.PullValid` is a requirement on the oracle: a pull writes only under `.atlas/` and only writes records under `.json` names.
- The clock is one `DateTime` parameter per `datetime.now()` call. `%Y` for years before 1000 is platform dependent, so it is modelled as four zero-padded digits.
- JSON serialisation and `datetime.fromisoformat` are abstract. A record file reads back as the record written, timestamp included.
- The record fields `atlas_identity`, `python_version`, `professional_mode` and `mcp_available` are not stored. The first three are never read back. `mcp_available` is always the non-empty string `"Check during runtime"`, so the report always shows the "MCP available" section.
- The Python version, the working directory and `USER` are string parameters.
- The location detection in the `__init__` methods is left out. The atlas directory is fixed to `.atlas` under the project root, and paths are relative to the project root. `setup_new_project.py`'s checkout path is a parameter. The empty path stands for running inside the checkout.
- Exceptions other than the ones the scripts handle are left out: a write that fails, a text that does not decode, a name that is a directory where a file is expected (or the reverse), and `copytree` into an existing backup directory. `mkdir` without `parents` is modelled as succeeding once its parent exists.
- A session record missing a field is not modelled. Records are typed values.
- A `.json` session file holding a falsy JSON value (`null`, `false`, `0`, `""`, `[]` or `{}`) loads as a falsy value, and `resume_session.py:243` then reports "not found". The model treats every `.json` file that is not a record as unreadable, so it crashes instead.
- An `--extended` argument that is valid JSON but not an object is not modelled: the extended context is a list of key–value entries. For a string or list holding `important_notes`, `save_session.py:182` passes its `in` test. Line 183 then raises `TypeError` after both records and the log have been written.
- Extended-context lists holding values other than strings are not modelled: `ExtValue.Items` holds strings. For such a list, the digest's `', '.join` at `resume_session.py:187` raises `TypeError`.
- Text.Find: its own contract bounds the index only. That a non-negative result is an occurrence is the lemma FindOccurs, and that it is the first occurrence is FindFirst. Keeping these as lemmas keeps the proofs that use `find` small.
- Records.StrRepr: characters outside ASCII are written as themselves. Python's `repr` escapes the non-printable ones (`\x..`, `\u....`, `\U........`), which the model does not.
- Newline translation on reads is not modelled. Python opens text in universal-newline mode, so `\r\n` and a lone `\r` read as `\n`, while `write_text` writes text unchanged. This affects the readers at `save_session.py:90`, `:128` and `:192`, `setup_new_project.py:35` and `update_atlas.py:132`. A model file's text stands for the newline-normalised text. So Files.ReadText, SaveSession.AppendKeepsOld, SaveSession.SaveKeepsLog, SaveSession.NoteCutsAtSecondMarker, SetupProject.WithClaudeMd and UpdateAtlas.ClaudeStep hold of that text, not of the bytes on disk. For example, a log holding `\r\n` keeps it as `\n` after the next save.
- `str.lower` and `str.title` are modelled on ASCII letters only. `strip` uses Python's whitespace set.
- File metadata copied by `copy2` is not modelled.
- Concurrent runs of the scripts are not modelled.
- SetupProject.HeaderSurvivesRewrite: proved for every newline-terminated header free of the thirteen patterns, not evaluated for the literal project header.
- UpdateAtlas.CustomizationsSurvive: requires that the pull does not write into the backup directory itself.
