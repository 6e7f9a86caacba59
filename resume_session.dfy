/**
 * `resume_session.py`: listing the saved sessions newest first, loading one
 * session by id or the latest one, rendering a session as the resume report
 * or as a one-line digest, and the command line that ties them together.
 */
module ResumeSession {
  import opened Wrappers
  import opened Text
  import opened Clock
  import opened Records
  import opened Files
  import SaveSession

  function Min(a: int, b: int): int {
    if a < b then a else b
  }

  // ---------------------------------------------------------------------------
  // Listing
  // ---------------------------------------------------------------------------

  /** How many characters of the context the session list shows. */
  const PreviewWidth := 50

  /** The list's context column: a short context whole, a long one cut to 50 characters and marked `...`. */
  function Preview(context: string): (r: string)
    ensures |r| <= PreviewWidth + 3
    ensures context[..Min(PreviewWidth, |context|)] <= r
    ensures |context| <= PreviewWidth ==> r == context
    ensures |context| > PreviewWidth ==> |r| == PreviewWidth + 3 && r[PreviewWidth..] == "..."
  {
    if |context| > PreviewWidth then context[..PreviewWidth] + "..." else context
  }

  /**
   * The preview is the context itself exactly when the context fits, or when
   * it is 53 characters long and already ends in `...` at the cut.
   */
  lemma {:induction false} PreviewIdentity(context: string)
    ensures Preview(context) == context <==> |context| <= PreviewWidth || context[PreviewWidth..] == "..."
  {
    if |context| > PreviewWidth {
      var r := Preview(context);
      if r == context {
        assert context[PreviewWidth..] == r[PreviewWidth..];
      }
      if context[PreviewWidth..] == "..." {
        assert context == context[..PreviewWidth] + context[PreviewWidth..];
      }
    }
  }

  /** A direct child of the sessions directory whose name matches the glob `Session_*.json`. */
  predicate IsSessionFile(p: string) {
    |p| >= |SessionsPrefix| + 13
    && StartsWith(p, SessionsPrefix)
    && '/' !in p[|SessionsPrefix|..]
    && StartsWith(p[|SessionsPrefix|..], "Session_")
    && EndsWith(p, ".json")
  }

  /** `LATEST.json` never matches the glob. */
  lemma {:induction false} LatestNotListed()
    ensures !IsSessionFile(LatestPath)
  {
    assert LatestPath[|SessionsPrefix|] == 'L';
  }

  /** The file a save writes matches the glob. */
  lemma {:induction false} SessionFileListed(t: DateTime)
    requires t.Valid()
    ensures IsSessionFile(SessionPath(SessionId(t)))
  {
    var id := SessionId(t);
    var p := SessionPath(id);
    var name := p[|SessionsPrefix|..];
    assert name == "Session_" + id + ".json";
    assert p[..|SessionsPrefix|] == SessionsPrefix;
    assert name[..8] == "Session_";
    assert p[|p| - 5..] == ".json";
    forall i | 0 <= i < |name|
      ensures name[i] != '/'
    {
      if 8 <= i < 23 {
        assert name[i] == id[i - 8];
      }
    }
  }

  /** One entry of the session list. */
  datatype Summary = Summary(file: string, id: string, timestamp: Instant, preview: string)

  function SummaryOf(file: string, r: SessionRecord): Summary {
    Summary(file, r.sessionId, r.timestamp, Preview(r.context))
  }

  /** `p` holds a record; any other file fails to load and the list skips it. */
  predicate Readable(files: map<string, Blob>, p: string) {
    p in files && files[p].RecordFile?
  }

  /** `s` is the summary of a readable session file. */
  predicate Listed(files: map<string, Blob>, s: Summary) {
    Readable(files, s.file) && IsSessionFile(s.file) && s == SummaryOf(s.file, files[s.file].record)
  }

  /**
   * What `list_sessions` returns: nothing without a sessions directory;
   * otherwise a summary of every readable session file and of nothing else,
   * by file name in descending order.
   */
  ghost predicate IsListing(files: map<string, Blob>, dirs: set<string>, sessions: seq<Summary>) {
    if SessionsDir !in dirs then sessions == []
    else
      (forall k :: 0 <= k < |sessions| ==> Listed(files, sessions[k]))
      && (forall p :: IsSessionFile(p) && Readable(files, p)
            ==> exists k :: 0 <= k < |sessions| && sessions[k].file == p)
      && Descending(sessions)
  }

  /** The file names a list mentions. */
  function FileSet(sessions: seq<Summary>): set<string> {
    set k | 0 <= k < |sessions| :: sessions[k].file
  }

  /** Strictly descending by file name. */
  predicate Descending(sessions: seq<Summary>) {
    forall k, l :: 0 <= k < l < |sessions| ==> LexLess(sessions[l].file, sessions[k].file)
  }

  /** There is only one listing of a given store: the listing is a function of the files. */
  lemma {:induction false} ListingUnique(files: map<string, Blob>, dirs: set<string>, a: seq<Summary>, b: seq<Summary>)
    requires IsListing(files, dirs, a) && IsListing(files, dirs, b)
    ensures a == b
  {
    if SessionsDir in dirs {
      forall x | x in FileSet(a)
        ensures x in FileSet(b)
      {
        var k :| 0 <= k < |a| && a[k].file == x;
        assert Listed(files, a[k]);
        var l :| 0 <= l < |b| && b[l].file == x;
      }
      forall x | x in FileSet(b)
        ensures x in FileSet(a)
      {
        var k :| 0 <= k < |b| && b[k].file == x;
        assert Listed(files, b[k]);
        var l :| 0 <= l < |a| && a[l].file == x;
      }
      DescendingUnique(files, a, b);
    }
  }

  /** The head of a descending list is its greatest name, and the tail holds the other names. */
  lemma {:induction false} DescendingTail(sessions: seq<Summary>)
    requires Descending(sessions) && sessions != []
    ensures FileSet(sessions[1..]) == FileSet(sessions) - {sessions[0].file}
    ensures forall x :: x in FileSet(sessions[1..]) ==> LexLess(x, sessions[0].file)
  {
    var tail := sessions[1..];
    forall x | x in FileSet(tail)
      ensures x in FileSet(sessions) && LexLess(x, sessions[0].file)
    {
      var k :| 0 <= k < |tail| && tail[k].file == x;
      assert sessions[k + 1].file == x;
    }
    forall x | x in FileSet(tail)
      ensures x != sessions[0].file
    {
      LexIrreflexive(x);
    }
    forall x | x in FileSet(sessions) && x != sessions[0].file
      ensures x in FileSet(tail)
    {
      var k :| 0 <= k < |sessions| && sessions[k].file == x;
      assert tail[k - 1].file == x;
    }
  }

  /** Two descending lists of summaries over the same names are the same list. */
  lemma {:induction false} DescendingUnique(files: map<string, Blob>, a: seq<Summary>, b: seq<Summary>)
    requires forall k :: 0 <= k < |a| ==> Listed(files, a[k])
    requires forall k :: 0 <= k < |b| ==> Listed(files, b[k])
    requires Descending(a) && Descending(b) && FileSet(a) == FileSet(b)
    ensures a == b
    decreases |a|
  {
    if a == [] || b == [] {
      assert a != [] ==> a[0].file in FileSet(a);
      assert b != [] ==> b[0].file in FileSet(b);
    } else {
      assert a[0].file in FileSet(a);
      assert b[0].file in FileSet(b);
      DescendingTail(a);
      DescendingTail(b);
      if a[0].file != b[0].file {
        LexAsymmetric(a[0].file, b[0].file);
      }
      assert Listed(files, a[0]) && Listed(files, b[0]);
      DescendingUnique(files, a[1..], b[1..]);
      assert a == [a[0]] + a[1..] && b == [b[0]] + b[1..];
    }
  }

  /** Session file names of equal-length ids compare as the ids do. */
  lemma {:induction false} SessionPathOrder(a: string, b: string)
    requires |a| == |b|
    ensures LexLess(SessionPath(a), SessionPath(b)) <==> LexLess(a, b)
  {
    var pre := SessionsPrefix + "Session_";
    assert SessionPath(a) == pre + (a + ".json");
    assert SessionPath(b) == pre + (b + ".json");
    LexCommonPrefix(pre, a + ".json", b + ".json");
    LexConcat(a, ".json", b, ".json");
    LexIrreflexive(".json");
  }

  /** Every readable session file was written by a save: it is named after its record's id, and the id after the save time. */
  ghost predicate WrittenBySave(files: map<string, Blob>) {
    forall p :: IsSessionFile(p) && Readable(files, p)
      ==> var r := files[p].record; p == SessionPath(r.sessionId) && r.sessionId == SessionId(r.timestamp)
  }

  /** Listing by file name descending lists sessions newest first. */
  lemma {:induction false} NewestFirst(files: map<string, Blob>, dirs: set<string>, sessions: seq<Summary>)
    requires IsListing(files, dirs, sessions) && WrittenBySave(files)
    ensures forall k, l :: 0 <= k < l < |sessions| ==> Earlier(sessions[l].timestamp, sessions[k].timestamp)
  {
    forall k, l | 0 <= k < l < |sessions|
      ensures Earlier(sessions[l].timestamp, sessions[k].timestamp)
    {
      var x, y := sessions[k], sessions[l];
      assert Listed(files, x) && Listed(files, y);
      SessionPathOrder(y.id, x.id);
      SessionIdOrder(y.timestamp, x.timestamp);
    }
  }

  // ---------------------------------------------------------------------------
  // Loading
  // ---------------------------------------------------------------------------

  /** The outcome of `load_session`: nothing to load, a record, or a file that exists but does not load. */
  datatype Loaded = NotFound | Found(record: SessionRecord) | Unreadable(path: string)

  /** `Path.exists()`: a file or a directory. */
  predicate Exists(files: map<string, Blob>, dirs: set<string>, p: string) {
    p in files || p in dirs
  }

  /** `sessions/<id>.json`, the second name tried for an id. */
  function BarePath(id: string): string {
    SessionsPrefix + id + ".json"
  }

  /** Opening an existing path: its record, or the failure to load it. */
  function Open(files: map<string, Blob>, p: string): (r: Loaded)
    ensures r != NotFound
    ensures r.Found? <==> Readable(files, p)
    ensures r.Found? ==> files[p] == RecordFile(r.record)
  {
    if p in files && files[p].RecordFile? then Found(files[p].record) else Unreadable(p)
  }

  /**
   * `load_session`: with an id, `Session_<id>.json` and then `<id>.json`;
   * without one (an empty id), `LATEST.json`. A missing file is `NotFound`.
   */
  function LoadSession(files: map<string, Blob>, dirs: set<string>, sessionId: string): (r: Loaded)
    ensures sessionId == "" ==> (r.NotFound? <==> !Exists(files, dirs, LatestPath))
    ensures sessionId == "" && r.Found? ==> LatestPath in files && files[LatestPath] == RecordFile(r.record)
    ensures sessionId != "" ==> (r.NotFound? <==> (!Exists(files, dirs, SessionPath(sessionId))
                                                   && !Exists(files, dirs, BarePath(sessionId))))
    ensures sessionId != "" && Exists(files, dirs, SessionPath(sessionId))
            ==> r == Open(files, SessionPath(sessionId))
    ensures sessionId != "" && !Exists(files, dirs, SessionPath(sessionId)) && r.Found?
            ==> BarePath(sessionId) in files && files[BarePath(sessionId)] == RecordFile(r.record)
  {
    var p := if sessionId == "" then LatestPath
             else if Exists(files, dirs, SessionPath(sessionId)) then SessionPath(sessionId)
             else BarePath(sessionId);
    if !Exists(files, dirs, p) then NotFound else Open(files, p)
  }

  /**
   * An id may be given with or without its `Session_` prefix when
   * `Session_<id>.json` exists; when it does not, the prefixed id finds
   * nothing, even where the bare `<id>.json` exists.
   */
  lemma {:induction false} PrefixOptional(files: map<string, Blob>, dirs: set<string>, id: string)
    requires id != "" && !Exists(files, dirs, SessionPath("Session_" + id))
    ensures Exists(files, dirs, SessionPath(id))
            ==> LoadSession(files, dirs, "Session_" + id) == LoadSession(files, dirs, id)
    ensures !Exists(files, dirs, SessionPath(id)) ==> LoadSession(files, dirs, "Session_" + id) == NotFound
  {
    assert BarePath("Session_" + id) == SessionPath(id);
  }

  /** After a save, resuming the latest session or the saved id loads the record just written. */
  lemma {:induction false} SaveThenResume(files: map<string, Blob>, dirs: set<string>, record: SessionRecord,
                                          header: string, entry: string, extended: Option<seq<Entry>>,
                                          noteDate: string)
    requires record.sessionId != ""
    ensures var after := SaveSession.AfterSave(files, record, header, entry, extended, noteDate);
            LoadSession(after, dirs, "") == Found(record)
            && LoadSession(after, dirs, record.sessionId) == Found(record)
  {
    SaveSession.SaveWritesBothCopies(files, record, header, entry, extended, noteDate);
  }

  /** A saved session appears in every later listing, summarised from the record the save wrote. */
  lemma {:induction false} SavedSessionListed(files: map<string, Blob>, dirs: set<string>, record: SessionRecord,
                                              header: string, entry: string, extended: Option<seq<Entry>>,
                                              noteDate: string, sessions: seq<Summary>)
    requires record.sessionId == SessionId(record.timestamp)
    requires var after := SaveSession.AfterSave(files, record, header, entry, extended, noteDate);
             SessionsDir in dirs && IsListing(after, dirs, sessions)
    ensures exists k :: 0 <= k < |sessions|
              && sessions[k] == SummaryOf(SessionPath(record.sessionId), record)
  {
    var after := SaveSession.AfterSave(files, record, header, entry, extended, noteDate);
    var p := SessionPath(record.sessionId);
    SaveSession.SaveWritesBothCopies(files, record, header, entry, extended, noteDate);
    SessionFileListed(record.timestamp);
    assert IsSessionFile(p) && Readable(after, p);
    var k :| 0 <= k < |sessions| && sessions[k].file == p;
    assert Listed(after, sessions[k]);
  }

  // ---------------------------------------------------------------------------
  // The report
  // ---------------------------------------------------------------------------

  /** Concatenation regroups. */
  lemma Assoc(a: seq<Line>, b: seq<Line>, c: seq<Line>)
    ensures a + b + c == a + (b + c)
  {
  }

  /** The fixed lines of the report and of the command line's output. */
  datatype Fixed =
    | DoubleRule | SingleRule | WideRule
    | ResumeTitle | SystemName | NotDory
    | ContextTitle | NextTaskTitle | GitTitle | ModifiedTitle | StagedTitle | CommitsTitle
    | ExtendedTitle | MemoryTitle | MemoryPointer | LogTitle
    | DocsTitle | McpAvailable | McpHint
    | ModeActive | Reminder | Focus
    | NoSessions | ListTitle | ColumnHeads | ResumeHint | NoSavedSessions
    | QuickTitle | ViewLog | ViewMemory | CatMemory | SaveNew | SaveCommand

  /** One output line: a fixed text, or a text built from the session. */
  datatype Line = FixedLine(which: Fixed) | Plain(text: string)

  function Repeat(c: char, n: nat): (r: string)
    ensures |r| == n && forall i :: 0 <= i < n ==> r[i] == c
  {
    seq(n, _ => c)
  }

  /** The wording of each fixed line. */
  function FixedText(f: Fixed): string {
    match f
    case DoubleRule => Repeat('=', 80)
    case SingleRule => Repeat('-', 40)
    case WideRule => Repeat('-', 80)
    case ResumeTitle => "ATLAS SESSION RESUME - Professional Mode Active"
    case SystemName => "Adaptive Technical Learning and Architecture System"
    case NotDory => "Not Dory - I Remember Everything \U{1F9E0}"
    case ContextTitle => "\U{1F3AF} PREVIOUS CONTEXT"
    case NextTaskTitle => "\U{1F680} NEXT TASK"
    case GitTitle => "\U{1F527} GIT STATUS"
    case ModifiedTitle => "\nModified Files:"
    case StagedTitle => "\nStaged Files:"
    case CommitsTitle => "\nRecent Commits:"
    case ExtendedTitle => "\U{1F4CB} EXTENDED CONTEXT"
    case MemoryTitle => "\U{1F9E0} SHORT TERM MEMORY (excerpt)"
    case MemoryPointer => "... (see SHORT_IMPORTANT_MEMORY.md for full content)"
    case LogTitle => "\U{1F4DD} WORKING LOG REFERENCE"
    case DocsTitle => "\U{1F4DA} DOCUMENTATION ACCESS"
    case McpAvailable => "\U{2705} Context7 MCP: Available"
    case McpHint => "   Use mcp__context7__search for up-to-date documentation"
    case ModeActive => "PROFESSIONAL MODE: Active"
    case Reminder => "Remember: Context switch complete. Personal concerns set aside."
    case Focus => "Focus: Engineering excellence through accumulated wisdom."
    case NoSessions => "No sessions found."
    case ListTitle => "\nAvailable Atlas Sessions:"
    case ColumnHeads => LJust("Session ID", 20) + " " + LJust("Timestamp", 20) + " " + LJust("Context", 40)
    case ResumeHint => "\nTo resume a session: python resume_session.py -c <session_id>"
    case NoSavedSessions => "\U{274C} No sessions found. Save a session first using save_session.py"
    case QuickTitle => "\n\U{1F6E0}\U{FE0F}  QUICK COMMANDS"
    case ViewLog => "View full working log:"
    case ViewMemory => "\nView short-term memory:"
    case CatMemory => "  cat SHORT_IMPORTANT_MEMORY.md"
    case SaveNew => "\nSave new session:"
    case SaveCommand => "  python scripts/save_session.py -c \"What you did\" -n \"What's next\""
  }

  function Render(line: Line): string {
    match line
    case FixedLine(f) => FixedText(f)
    case Plain(t) => t
  }

  /** One line per item, each `prefix` followed by the item. */
  function Prefixed(prefix: string, xs: seq<string>): (r: seq<Line>)
    ensures |r| == |xs|
  {
    seq(|xs|, i requires 0 <= i < |xs| => Plain(prefix + xs[i]))
  }

  /** `  ... and N more` */
  function MoreLine(n: nat): Line {
    Plain("  ... and " + NatToString(n) + " more")
  }

  /** At most `cap` bulleted items, then a line counting the rest when there are more. */
  function Capped(xs: seq<string>, cap: nat): seq<Line> {
    Prefixed("  - ", xs[..Min(cap, |xs|)]) + (if |xs| > cap then [MoreLine(|xs| - cap)] else [])
  }

  /**
   * A capped list shows the first `cap` items in order, one bullet each, and
   * adds the count of the hidden ones exactly when some are hidden; shown and
   * counted items add up to the whole list.
   */
  lemma {:induction false} CappedAccounts(xs: seq<string>, cap: nat)
    ensures var r := Capped(xs, cap);
            && |r| == Min(cap, |xs|) + (if |xs| > cap then 1 else 0)
            && (forall i :: 0 <= i < Min(cap, |xs|) ==> r[i] == Plain("  - " + xs[i]))
            && (|xs| > cap <==> |r| == cap + 1)
            && (|xs| > cap ==> r[cap] == MoreLine(|xs| - cap) && cap + (|xs| - cap) == |xs|)
  {
  }

  /** A titled file list, absent when the list is empty. */
  function FileList(title: Fixed, xs: seq<string>, cap: nat): seq<Line> {
    if xs == [] then [] else [FixedLine(title)] + Capped(xs, cap)
  }

  function CommitList(commits: seq<string>): seq<Line> {
    if commits == [] then [] else [FixedLine(CommitsTitle)] + Prefixed("  ", commits[..Min(3, |commits|)])
  }

  function HeaderLines(r: SessionRecord): seq<Line> {
    [FixedLine(DoubleRule), FixedLine(ResumeTitle), FixedLine(SystemName), FixedLine(NotDory),
     FixedLine(DoubleRule), Plain(""),
     Plain("\U{1F4C5} Session: " + r.sessionId),
     Plain("\U{1F550} Saved: " + SecondStamp(r.timestamp)),
     Plain("\U{1F4C1} Directory: " + r.workingDirectory), Plain(""),
     FixedLine(ContextTitle), FixedLine(SingleRule), Plain(r.context), Plain(""),
     FixedLine(NextTaskTitle), FixedLine(SingleRule), Plain(r.nextTask), Plain("")]
  }

  /** The git section, present only with a git snapshot. */
  function GitSection(git: Option<GitInfo>): seq<Line> {
    match git
    case None => []
    case Some(g) =>
      [FixedLine(GitTitle), FixedLine(SingleRule), Plain("Branch: " + g.branch)]
      + FileList(ModifiedTitle, g.modifiedFiles, 10)
      + FileList(StagedTitle, g.stagedFiles, 5)
      + CommitList(g.recentCommits)
      + [Plain("")]
  }

  /** `key.replace('_', ' ').title()` followed by a colon. */
  function Heading(key: string): string {
    Title(Replace(key, "_", " ")) + ":"
  }

  /** A key's heading never shows an underscore. */
  lemma {:induction false} HeadingHasNoUnderscore(key: string)
    ensures '_' !in Heading(key)
  {
    var pieces := Split(key, "_");
    SplitPiecesClean(key, "_");
    forall k | 0 <= k < |pieces|
      ensures '_' !in pieces[k]
    {
      ContainsChar(pieces[k], '_');
    }
    JoinNoChar(pieces, " ", '_');
    ReplaceJoinsPieces(key, "_", " ");
    var spaced := Replace(key, "_", " ");
    var titled := Title(spaced);
    assert Heading(key) == titled + [':'];
  }

  /** The lines of one extended-context entry: its heading, then each list item or the one value, indented. */
  function EntryLines(e: Entry): seq<Line> {
    [Plain(Heading(e.key))]
    + match e.value
      case Items(xs) => Prefixed("  - ", xs)
      case Scalar(t) => [Plain("  " + t)]
  }

  /** The entries' lines in the object's key order. */
  function EntriesLines(es: seq<Entry>): seq<Line>
    decreases |es|
  {
    if es == [] then [] else EntriesLines(es[..|es| - 1]) + EntryLines(es[|es| - 1])
  }

  /** The extended-context section, present only with a non-empty extended context. */
  function ExtendedSection(extended: Option<seq<Entry>>): seq<Line> {
    if extended.None? || extended.value == [] then []
    else [FixedLine(ExtendedTitle), FixedLine(SingleRule)] + EntriesLines(extended.value) + [Plain("")]
  }

  /** The first ten lines of the memory document. */
  function Excerpt(memory: string): seq<string> {
    var lines := Split(memory, "\n");
    lines[..Min(10, |lines|)]
  }

  /**
   * The excerpt is the start of the document, and it is the whole document
   * exactly when the document has at most ten lines.
   */
  lemma {:induction false} ExcerptIsPrefix(memory: string)
    ensures Join(Excerpt(memory), "\n") <= memory
    ensures Join(Excerpt(memory), "\n") == memory <==> |Split(memory, "\n")| <= 10
  {
    var lines := Split(memory, "\n");
    SplitJoin(memory, "\n");
    if |lines| > 10 {
      JoinSplitAt(lines, 10, "\n");
      assert memory == Join(lines[..10], "\n") + "\n" + Join(lines[10..], "\n");
    } else {
      assert lines[..|lines|] == lines;
    }
  }

  /** The memory section, present only with a non-empty memory document. */
  function MemorySection(memory: Option<string>): seq<Line> {
    if memory.None? || memory.value == "" then []
    else
      [FixedLine(MemoryTitle), FixedLine(SingleRule)] + Prefixed("", Excerpt(memory.value))
      + (if |Split(memory.value, "\n")| > 10 then [FixedLine(MemoryPointer)] else [])
      + [Plain("")]
  }

  /** `WORKING_LOG/<year>/<month>/<day>.md`, relative to the atlas directory. */
  function LogRef(b: Bucket): string {
    "WORKING_LOG/" + b.year + "/" + b.month + "/" + b.day + ".md"
  }

  /** The reference names the log file the save appended to. */
  lemma {:induction false} LogRefIsSavedLog(b: Bucket)
    ensures AtlasDir + "/" + LogRef(b) == LogPath(b.year, b.month, b.day)
  {
    assert AtlasDir + "/" + "WORKING_LOG" == WorkingLogDir;
  }

  function LogSection(b: Bucket): seq<Line> {
    [FixedLine(LogTitle), FixedLine(SingleRule), Plain("See: " + LogRef(b)), Plain("")]
  }

  function DocsSection(): seq<Line> {
    [FixedLine(DocsTitle), FixedLine(SingleRule), FixedLine(McpAvailable), FixedLine(McpHint), Plain("")]
  }

  function FooterLines(): seq<Line> {
    [FixedLine(DoubleRule), FixedLine(ModeActive), FixedLine(Reminder), FixedLine(Focus), FixedLine(DoubleRule)]
  }

  /** `format_session_display`, line by line. */
  function DisplayLines(r: SessionRecord): seq<Line> {
    HeaderLines(r) + GitSection(r.gitInfo) + ExtendedSection(r.extended) + MemorySection(r.shortMemory)
    + LogSection(r.metadata) + DocsSection() + FooterLines()
  }

  /** The report opens and closes with the double rule, and shows the session's context and next task. */
  lemma {:induction false} DisplayFrame(r: SessionRecord)
    ensures var lines := DisplayLines(r);
            && |lines| >= 28
            && lines[0] == FixedLine(DoubleRule) && lines[|lines| - 1] == FixedLine(DoubleRule)
            && lines[12] == Plain(r.context) && lines[16] == Plain(r.nextTask)
  {
    var front := HeaderLines(r) + GitSection(r.gitInfo) + ExtendedSection(r.extended) + MemorySection(r.shortMemory)
                 + LogSection(r.metadata) + DocsSection();
    assert DisplayLines(r) == front + FooterLines();
    assert (HeaderLines(r) + GitSection(r.gitInfo) + ExtendedSection(r.extended) + MemorySection(r.shortMemory)
            + LogSection(r.metadata))[..18] == HeaderLines(r);
  }

  /** The quick commands printed after the report. */
  function QuickCommands(b: Bucket): seq<Line> {
    [FixedLine(QuickTitle), FixedLine(SingleRule), FixedLine(ViewLog), Plain("  cat " + LogRef(b)),
     FixedLine(ViewMemory), FixedLine(CatMemory), FixedLine(SaveNew), FixedLine(SaveCommand)]
  }

  // ---------------------------------------------------------------------------
  // The digest
  // ---------------------------------------------------------------------------

  /** `- key: value`, a list value joined with commas. */
  function EntryDigest(e: Entry): string {
    "- " + e.key + ": " + match e.value
                          case Items(xs) => Join(xs, ", ")
                          case Scalar(t) => t
  }

  function EntryDigests(es: seq<Entry>): (r: seq<string>)
    ensures |r| == |es|
  {
    seq(|es|, i requires 0 <= i < |es| => EntryDigest(es[i]))
  }

  /** The parts `generate_claude_context` joins with ` | `. */
  function DigestParts(r: SessionRecord): seq<string> {
    ["ATLAS SESSION RESUME", "Session ID: " + r.sessionId,
     "\nPrevious Context: " + r.context, "\nNext Task: " + r.nextTask]
    + (if r.gitInfo.Some? && r.gitInfo.value.modifiedFiles != []
       then var m := r.gitInfo.value.modifiedFiles; ["\nModified Files: " + Join(m[..Min(5, |m|)], ", ")]
       else [])
    + (if r.extended.Some? && r.extended.value != []
       then ["\nExtended Context:"] + EntryDigests(r.extended.value)
       else [])
  }

  function Digest(r: SessionRecord): string {
    Join(DigestParts(r), " | ")
  }

  /** The digest names the system and the session first. */
  lemma {:induction false} DigestShape(r: SessionRecord)
    ensures StartsWith(Digest(r), "ATLAS SESSION RESUME | Session ID: " + r.sessionId + " | ")
  {
    var parts := DigestParts(r);
    JoinStartsTwo(parts, " | ");
    assert parts[0] == "ATLAS SESSION RESUME" && parts[1] == "Session ID: " + r.sessionId;
  }

  /**
   * The digest has one part per extended-context entry, one for the modified
   * files when there are any, and none for staged files, commits or memory.
   */
  lemma {:induction false} DigestPartCount(r: SessionRecord)
    ensures |DigestParts(r)| == 4 + (if r.gitInfo.Some? && r.gitInfo.value.modifiedFiles != [] then 1 else 0)
                                  + (if r.extended.Some? && r.extended.value != [] then 1 + |r.extended.value| else 0)
  {
  }

  /** A join of three or more parts starts with its first two parts and their separators. */
  lemma {:induction false} JoinStartsTwo(parts: seq<string>, sep: string)
    requires |parts| >= 3
    ensures StartsWith(Join(parts, sep), parts[0] + sep + parts[1] + sep)
  {
    JoinTwoHead(parts, sep);
    var head := parts[0] + sep + parts[1] + sep;
    var rest := Join(parts[2..], sep);
    assert Join(parts, sep) == head + rest;
    assert (head + rest)[..|head|] == head;
  }

  // ---------------------------------------------------------------------------
  // The command line
  // ---------------------------------------------------------------------------

  /** A row of the session list: id, minute and preview, padded to columns of 20, 20 and 40. */
  function ListRow(s: Summary): string {
    LJust(s.id, 20) + " " + LJust(MinuteStamp(s.timestamp), 20) + " " + LJust(s.preview, 40)
  }

  function ListRows(sessions: seq<Summary>): (r: seq<Line>)
    ensures |r| == |sessions|
  {
    seq(|sessions|, i requires 0 <= i < |sessions| => Plain(ListRow(sessions[i])))
  }

  /** `... and N more sessions` */
  function MoreSessions(n: nat): Line {
    Plain("\n... and " + NatToString(n) + " more sessions")
  }

  /** What `-l` prints for a listing. */
  function ListOutput(sessions: seq<Summary>): seq<Line> {
    if sessions == [] then [FixedLine(NoSessions)]
    else
      [FixedLine(ListTitle), FixedLine(WideRule), FixedLine(ColumnHeads), FixedLine(WideRule)]
      + ListRows(sessions[..Min(20, |sessions|)])
      + (if |sessions| > 20 then [MoreSessions(|sessions| - 20)] else [])
      + [FixedLine(ResumeHint)]
  }

  /**
   * The list shows the twenty newest sessions in order, each row starting
   * with the session's id, then counts the ones it leaves out.
   */
  lemma {:induction false} ListOutputShape(sessions: seq<Summary>)
    requires sessions != []
    ensures var out := ListOutput(sessions);
            && |out| == 5 + Min(20, |sessions|) + (if |sessions| > 20 then 1 else 0)
            && (forall k :: 0 <= k < Min(20, |sessions|) ==> out[4 + k] == Plain(ListRow(sessions[k])))
            && (|sessions| > 20 ==> out[24] == MoreSessions(|sessions| - 20))
            && out[|out| - 1] == FixedLine(ResumeHint)
  {
    var n := Min(20, |sessions|);
    var head := [FixedLine(ListTitle), FixedLine(WideRule), FixedLine(ColumnHeads), FixedLine(WideRule)];
    var rows := ListRows(sessions[..n]);
    var more := if |sessions| > 20 then [MoreSessions(|sessions| - 20)] else [];
    var out := head + rows + more + [FixedLine(ResumeHint)];
    assert ListOutput(sessions) == out;
    forall k | 0 <= k < n
      ensures out[4 + k] == Plain(ListRow(sessions[k]))
    {
      assert out[4 + k] == rows[k];
    }
    if |sessions| > 20 {
      assert out[24] == more[0];
    }
  }

  /** Each row starts with the session id, padded when shorter than its column. */
  lemma {:induction false} RowStartsWithId(s: Summary)
    ensures s.id <= ListRow(s)
    ensures |s.id| < 20 ==> ListRow(s)[20] == ' '
  {
    var padded := LJust(s.id, 20);
    assert ListRow(s) == padded + (" " + LJust(MinuteStamp(s.timestamp), 20) + " " + LJust(s.preview, 40));
  }

  /** A run either prints lines or stops on a session file it cannot load. */
  datatype Outcome = Printed(lines: seq<Line>) | Crashed

  /** `❌ Session '<id>' not found.` */
  function NotFoundLine(sessionId: string): Line {
    Plain("\U{274C} Session '" + sessionId + "' not found.")
  }

  /** What a run without `-l` prints for the outcome of loading. */
  function LoadOutput(loaded: Loaded, sessionId: string, claude: bool): Outcome {
    match loaded
    case NotFound => Printed(if sessionId != "" then [NotFoundLine(sessionId)] else [FixedLine(NoSavedSessions)])
    case Unreadable(_) => Crashed
    case Found(r) => Printed(if claude then [Plain(Digest(r))] else DisplayLines(r) + QuickCommands(r.metadata))
  }

  /**
   * Resuming right after a save shows the saved session: the report and the
   * quick commands pointing at the log it was written to, or its digest.
   */
  lemma {:induction false} ResumeAfterSave(files: map<string, Blob>, dirs: set<string>, record: SessionRecord,
                                           header: string, entry: string, extended: Option<seq<Entry>>,
                                           noteDate: string, claude: bool)
    requires record.sessionId != ""
    ensures var after := SaveSession.AfterSave(files, record, header, entry, extended, noteDate);
            LoadOutput(LoadSession(after, dirs, ""), "", claude)
            == Printed(if claude then [Plain(Digest(record))] else DisplayLines(record) + QuickCommands(record.metadata))
  {
    SaveThenResume(files, dirs, record, header, entry, extended, noteDate);
  }

  /** A run never crashes when every file it may open holds a record. */
  lemma {:induction false} NoCrashOnRecords(files: map<string, Blob>, dirs: set<string>, sessionId: string, claude: bool)
    requires forall p :: p in files && EndsWith(p, ".json") ==> files[p].RecordFile?
    requires forall p :: p in dirs ==> !EndsWith(p, ".json")
    ensures LoadOutput(LoadSession(files, dirs, sessionId), sessionId, claude) != Crashed
  {
    var sp := SessionPath(sessionId);
    var bp := BarePath(sessionId);
    assert EndsWith(LatestPath, ".json");
    assert sp == (SessionsPrefix + "Session_" + sessionId) + ".json";
    assert bp == (SessionsPrefix + sessionId) + ".json";
  }

  /** Every entry of the list summarises a readable session file. */
  predicate AllListed(files: map<string, Blob>, sessions: seq<Summary>) {
    forall k :: 0 <= k < |sessions| ==> Listed(files, sessions[k])
  }

  /** Every readable file among `seen` appears in the list. */
  ghost predicate Covered(files: map<string, Blob>, seen: set<string>, sessions: seq<Summary>) {
    forall p :: p in seen && Readable(files, p) ==> exists k :: 0 <= k < |sessions| && sessions[k].file == p
  }

  /** Every name still to visit sorts below every name already listed. */
  predicate Below(remaining: set<string>, sessions: seq<Summary>) {
    forall q, k :: q in remaining && 0 <= k < |sessions| ==> LexLess(q, sessions[k].file)
  }

  /** Visiting `p` covers it: it was appended when readable, and what was covered stays covered. */
  lemma {:induction false} CoverStep(files: map<string, Blob>, seen: set<string>, before: seq<Summary>,
                                     after: seq<Summary>, p: string)
    requires Covered(files, seen, before)
    requires Readable(files, p) ==> after == before + [SummaryOf(p, files[p].record)]
    requires !Readable(files, p) ==> after == before
    ensures Covered(files, seen + {p}, after)
  {
    forall q | q in seen + {p} && Readable(files, q)
      ensures exists k :: 0 <= k < |after| && after[k].file == q
    {
      if q == p {
        assert after[|before|].file == q;
      } else {
        var k :| 0 <= k < |before| && before[k].file == q;
        assert after[k] == before[k];
      }
    }
  }

  /**
   * One step of the listing: appending the summary of the greatest remaining
   * name keeps the list descending and below every name still to come.
   */
  lemma {:induction false} ListStep(files: map<string, Blob>, before: seq<Summary>, p: string, remaining: set<string>)
    requires p in remaining && Descending(before) && AllListed(files, before)
    requires forall q :: q in remaining && q != p ==> LexLess(q, p)
    requires Below(remaining, before)
    requires p in files && files[p].RecordFile? && IsSessionFile(p)
    ensures var after := before + [SummaryOf(p, files[p].record)];
            Descending(after) && Below(remaining - {p}, after) && AllListed(files, after)
  {
    var after := before + [SummaryOf(p, files[p].record)];
    assert Listed(files, after[|before|]);
    forall k, l | 0 <= k < l < |after|
      ensures LexLess(after[l].file, after[k].file)
    {
      if l < |before| {
        assert after[l] == before[l] && after[k] == before[k];
      } else {
        assert after[k] == before[k];
      }
    }
  }

  /** One turn of the listing loop keeps all four of its invariants. */
  lemma {:induction false} VisitStep(files: map<string, Blob>, candidates: set<string>, remaining: set<string>,
                                     before: seq<Summary>, after: seq<Summary>, p: string)
    requires p in remaining && remaining <= candidates
    requires forall q :: q in candidates ==> q in files && IsSessionFile(q)
    requires forall q :: q in remaining && q != p ==> LexLess(q, p)
    requires AllListed(files, before) && Descending(before) && Below(remaining, before)
    requires Covered(files, candidates - remaining, before)
    requires files[p].RecordFile? ==> after == before + [SummaryOf(p, files[p].record)]
    requires !files[p].RecordFile? ==> after == before
    ensures AllListed(files, after) && Descending(after) && Below(remaining - {p}, after)
    ensures Covered(files, candidates - (remaining - {p}), after)
  {
    if files[p].RecordFile? {
      ListStep(files, before, p, remaining);
    }
    CoverStep(files, candidates - remaining, before, after, p);
    assert candidates - (remaining - {p}) == (candidates - remaining) + {p};
  }

  // ---------------------------------------------------------------------------
  // The resumer
  // ---------------------------------------------------------------------------

  /** `AtlasSessionResumer`: reads the session files of one project. */
  class AtlasSessionResumer {
    const fs: FileStore

    constructor (fs: FileStore)
      ensures this.fs == fs
    {
      this.fs := fs;
    }

    /** `list_sessions`: the session files from the greatest name down, skipping any that do not load. */
    method ListSessions() returns (sessions: seq<Summary>)
      ensures IsListing(fs.files, fs.dirs, sessions)
    {
      if SessionsDir !in fs.dirs {
        return [];
      }
      var files := fs.files;
      var candidates := set p | p in files && IsSessionFile(p);
      var remaining := candidates;
      sessions := [];
      while remaining != {}
        invariant remaining <= candidates
        invariant forall p :: p in candidates ==> p in files && IsSessionFile(p)
        invariant AllListed(files, sessions) && Descending(sessions)
        invariant Covered(files, candidates - remaining, sessions)
        invariant Below(remaining, sessions)
        decreases |remaining|
      {
        LexMaxExists(remaining);
        var p :| p in remaining && forall q :: q in remaining && q != p ==> LexLess(q, p);
        ghost var before := sessions;
        if files[p].RecordFile? {
          sessions := sessions + [SummaryOf(p, files[p].record)];
        }
        VisitStep(files, candidates, remaining, before, sessions, p);
        remaining := remaining - {p};
      }
      assert candidates - remaining == candidates;
    }

    /** `format_session_display`, as the list of lines it joins. */
    method FormatSessionDisplay(r: SessionRecord) returns (output: seq<Line>)
      ensures output == DisplayLines(r)
    {
      output := HeaderLines(r);
      output := AppendGit(output, r.gitInfo);
      output := AppendExtended(output, r.extended);
      output := AppendMemory(output, r.shortMemory);
      output := output + LogSection(r.metadata);
      output := output + DocsSection();
      output := output + FooterLines();
    }

    /** The git section appended to `output`. */
    method AppendGit(output: seq<Line>, git: Option<GitInfo>) returns (r: seq<Line>)
      ensures r == output + GitSection(git)
    {
      r := output;
      if git.Some? {
        var g := git.value;
        ghost var a := [FixedLine(GitTitle), FixedLine(SingleRule), Plain("Branch: " + g.branch)];
        r := r + [FixedLine(GitTitle), FixedLine(SingleRule), Plain("Branch: " + g.branch)];
        r := AppendFileList(r, ModifiedTitle, g.modifiedFiles, 10);
        Assoc(output, a, FileList(ModifiedTitle, g.modifiedFiles, 10));
        ghost var b := a + FileList(ModifiedTitle, g.modifiedFiles, 10);
        r := AppendFileList(r, StagedTitle, g.stagedFiles, 5);
        Assoc(output, b, FileList(StagedTitle, g.stagedFiles, 5));
        ghost var c := b + FileList(StagedTitle, g.stagedFiles, 5);
        r := AppendCommits(r, g.recentCommits);
        Assoc(output, c, CommitList(g.recentCommits));
        ghost var d := c + CommitList(g.recentCommits);
        r := r + [Plain("")];
        Assoc(output, d, [Plain("")]);
      }
    }

    /** A titled file list appended to `output` when the list is not empty. */
    method AppendFileList(output: seq<Line>, title: Fixed, xs: seq<string>, cap: nat) returns (r: seq<Line>)
      ensures r == output + FileList(title, xs, cap)
    {
      r := output;
      if xs != [] {
        r := r + [FixedLine(title)];
        r := AppendCapped(r, xs, cap);
        Assoc(output, [FixedLine(title)], Capped(xs, cap));
      }
    }

    /** The first three commits appended to `output` when there are any. */
    method AppendCommits(output: seq<Line>, commits: seq<string>) returns (r: seq<Line>)
      ensures r == output + CommitList(commits)
    {
      r := output;
      if commits != [] {
        r := r + [FixedLine(CommitsTitle)];
        r := AppendPrefixed(r, "  ", commits[..Min(3, |commits|)]);
        Assoc(output, [FixedLine(CommitsTitle)], Prefixed("  ", commits[..Min(3, |commits|)]));
      }
    }

    /** The extended-context section appended to `output`. */
    method AppendExtended(output: seq<Line>, extended: Option<seq<Entry>>) returns (r: seq<Line>)
      ensures r == output + ExtendedSection(extended)
    {
      r := output;
      if extended.Some? && extended.value != [] {
        ghost var a := [FixedLine(ExtendedTitle), FixedLine(SingleRule)];
        r := r + [FixedLine(ExtendedTitle), FixedLine(SingleRule)];
        r := AppendEntries(r, extended.value);
        Assoc(output, a, EntriesLines(extended.value));
        r := r + [Plain("")];
        Assoc(output, a + EntriesLines(extended.value), [Plain("")]);
      }
    }

    /** The memory section appended to `output`. */
    method AppendMemory(output: seq<Line>, memory: Option<string>) returns (r: seq<Line>)
      ensures r == output + MemorySection(memory)
    {
      r := output;
      if memory.Some? && memory.value != "" {
        var m := memory.value;
        ghost var a := [FixedLine(MemoryTitle), FixedLine(SingleRule)];
        r := r + [FixedLine(MemoryTitle), FixedLine(SingleRule)];
        r := AppendPrefixed(r, "", Excerpt(m));
        Assoc(output, a, Prefixed("", Excerpt(m)));
        ghost var b := a + Prefixed("", Excerpt(m));
        ghost var pointer: seq<Line> := if |Split(m, "\n")| > 10 then [FixedLine(MemoryPointer)] else [];
        if |Split(m, "\n")| > 10 {
          r := r + [FixedLine(MemoryPointer)];
        }
        Assoc(output, b, pointer);
        r := r + [Plain("")];
        Assoc(output, b + pointer, [Plain("")]);
      }
    }

    /** At most `cap` bulleted items appended to `output`, then the count of the rest. */
    method AppendCapped(output: seq<Line>, xs: seq<string>, cap: nat) returns (r: seq<Line>)
      ensures r == output + Capped(xs, cap)
    {
      r := AppendPrefixed(output, "  - ", xs[..Min(cap, |xs|)]);
      if |xs| > cap {
        r := r + [MoreLine(|xs| - cap)];
      }
    }

    /** One line per item appended to `output`, each `prefix` followed by the item. */
    method AppendPrefixed(output: seq<Line>, prefix: string, xs: seq<string>) returns (r: seq<Line>)
      ensures r == output + Prefixed(prefix, xs)
    {
      r := output;
      for i := 0 to |xs|
        invariant r == output + Prefixed(prefix, xs[..i])
      {
        assert Prefixed(prefix, xs[..i + 1]) == Prefixed(prefix, xs[..i]) + [Plain(prefix + xs[i])];
        r := r + [Plain(prefix + xs[i])];
      }
      assert xs[..|xs|] == xs;
    }

    /** The extended-context entries appended to `output`, in key order. */
    method AppendEntries(output: seq<Line>, es: seq<Entry>) returns (r: seq<Line>)
      ensures r == output + EntriesLines(es)
    {
      r := output;
      for i := 0 to |es|
        invariant r == output + EntriesLines(es[..i])
      {
        ghost var done := EntriesLines(es[..i]);
        r := AppendEntry(r, es[i]);
        assert EntriesLines(es[..i + 1]) == done + EntryLines(es[i]) by {
          assert es[..i + 1][..i] == es[..i];
        }
        Assoc(output, done, EntryLines(es[i]));
      }
      assert es[..|es|] == es;
    }

    /** One entry: its heading, then its items or its value. */
    method AppendEntry(output: seq<Line>, e: Entry) returns (r: seq<Line>)
      ensures r == output + EntryLines(e)
    {
      r := output + [Plain(Heading(e.key))];
      match e.value {
        case Items(xs) =>
          r := AppendPrefixed(r, "  - ", xs);
        case Scalar(t) =>
          r := r + [Plain("  " + t)];
      }
    }

    /** `generate_claude_context` */
    method GenerateClaudeContext(r: SessionRecord) returns (text: string)
      ensures text == Digest(r)
    {
      var parts := ["ATLAS SESSION RESUME", "Session ID: " + r.sessionId,
                    "\nPrevious Context: " + r.context, "\nNext Task: " + r.nextTask];
      ghost var fixed := parts;
      if r.gitInfo.Some? && r.gitInfo.value.modifiedFiles != [] {
        var m := r.gitInfo.value.modifiedFiles;
        parts := parts + ["\nModified Files: " + Join(m[..Min(5, |m|)], ", ")];
      } else {
        assert parts == fixed + [];
      }
      ghost var base := parts;
      if r.extended.Some? && r.extended.value != [] {
        var es := r.extended.value;
        parts := parts + ["\nExtended Context:"];
        parts := AppendEntryDigests(parts, es);
        assert parts == base + (["\nExtended Context:"] + EntryDigests(es));
      } else {
        assert parts == base + [];
      }
      text := Join(parts, " | ");
    }

    /** One `- key: value` part per entry appended to `parts`. */
    method AppendEntryDigests(parts: seq<string>, es: seq<Entry>) returns (r: seq<string>)
      ensures r == parts + EntryDigests(es)
    {
      r := parts;
      for i := 0 to |es|
        invariant r == parts + EntryDigests(es[..i])
      {
        assert EntryDigests(es[..i + 1]) == EntryDigests(es[..i]) + [EntryDigest(es[i])];
        match es[i].value {
          case Items(xs) =>
            r := r + ["- " + es[i].key + ": " + Join(xs, ", ")];
          case Scalar(t) =>
            r := r + ["- " + es[i].key + ": " + t];
        }
      }
      assert es[..|es|] == es;
    }

    /**
     * `main`: with `-l` the session list; otherwise the loaded session as the
     * report and quick commands, or as the digest with `--claude`, or a
     * not-found message. An empty `sessionId` stands for no `-c`.
     */
    method Run(list: bool, sessionId: string, claude: bool) returns (out: Outcome)
      ensures list ==> forall s :: IsListing(fs.files, fs.dirs, s) ==> out == Printed(ListOutput(s))
      ensures !list ==> out == LoadOutput(LoadSession(fs.files, fs.dirs, sessionId), sessionId, claude)
    {
      if list {
        var sessions := ListSessions();
        var printed := ListCommand(sessions);
        out := Printed(printed);
        forall s | IsListing(fs.files, fs.dirs, s)
          ensures s == sessions
        {
          ListingUnique(fs.files, fs.dirs, s, sessions);
        }
        return;
      }
      var loaded := LoadSession(fs.files, fs.dirs, sessionId);
      match loaded {
        case NotFound =>
          if sessionId != "" {
            out := Printed([NotFoundLine(sessionId)]);
          } else {
            out := Printed([FixedLine(NoSavedSessions)]);
          }
        case Unreadable(_) =>
          out := Crashed;
        case Found(r) =>
          if claude {
            var text := GenerateClaudeContext(r);
            out := Printed([Plain(text)]);
          } else {
            var report := FormatSessionDisplay(r);
            out := Printed(report + QuickCommands(r.metadata));
          }
      }
    }

    /** The `-l` branch of `main`: header, the first twenty rows, the count of the rest, the hint. */
    method ListCommand(sessions: seq<Summary>) returns (printed: seq<Line>)
      ensures printed == ListOutput(sessions)
    {
      if sessions == [] {
        return [FixedLine(NoSessions)];
      }
      printed := [FixedLine(ListTitle), FixedLine(WideRule), FixedLine(ColumnHeads), FixedLine(WideRule)];
      ghost var head := printed;
      var shown := sessions[..Min(20, |sessions|)];
      for i := 0 to |shown|
        invariant printed == head + ListRows(shown[..i])
      {
        assert ListRows(shown[..i + 1]) == ListRows(shown[..i]) + [Plain(ListRow(shown[i]))];
        printed := printed + [Plain(ListRow(shown[i]))];
      }
      assert shown[..|shown|] == shown;
      if |sessions| > 20 {
        printed := printed + [MoreSessions(|sessions| - 20)];
      }
      printed := printed + [FixedLine(ResumeHint)];
    }
  }
}
