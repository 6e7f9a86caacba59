/**
 * `save_session.py`: a save builds one session record, writes it to
 * `sessions/Session_<id>.json` and to `sessions/LATEST.json`, appends an entry
 * to the day's working log and, when the extended context carries
 * `important_notes`, appends a dated line to the critical notes of the
 * short-memory document.
 */
module SaveSession {
  import opened Wrappers
  import opened Text
  import opened Clock
  import opened Records
  import opened Files

  // ---------------------------------------------------------------------------
  // Texts
  // ---------------------------------------------------------------------------

  /** The working-log entry of one save; `stamp` is `%Y-%m-%d %H:%M:%S`. */
  function LogEntry(stamp: string, context: string, nextTask: string, cwd: string, pyVersion: string): string {
    "\n## Session: " + stamp + "\n\n### Context\n" + context + "\n\n### Next Task\n" + nextTask
    + "\n\n### Session Details\n- Saved at: " + stamp + "\n- Working Directory: " + cwd
    + "\n- Python Version: " + pyVersion + "\n\n---\n"
  }

  /** The header of a new day's log; the month is named by the part of the bucket after its `-`, title-cased. */
  function LogHeader(year: string, month: string, day: string): string
    requires |Split(month, "-")| >= 2
  {
    "# Working Log - " + day + " " + Title(Split(month, "-")[1]) + " " + year
    + "\n\n> Atlas Engineering Session Log\n> Professional Mode: Active\n\n---\n"
  }

  /**
   * The log file after one append: an existing file keeps its whole text,
   * followed by a line break and the entry; a new file is the header followed
   * by the entry.
   */
  function AppendedLog(existing: Option<string>, header: string, entry: string): string {
    match existing
    case Some(prior) => prior + "\n" + entry
    case None => header + entry
  }

  /** An append never loses what the log held: the old text is a prefix, followed by a line break and the entry. */
  lemma {:induction false} AppendKeepsOld(existing: Option<string>, header: string, entry: string)
    ensures var r := AppendedLog(existing, header, entry);
            && (existing.Some? ==> existing.value <= r && r[|existing.value|..] == "\n" + entry)
            && (existing.None? ==> header <= r && r[|header|..] == entry)
  {
  }

  /** The text of a file, or `None` when there is no such text file. */
  function ExistingText(files: map<string, Blob>, p: string): (r: Option<string>)
    ensures r.Some? <==> p in files && files[p].TextFile?
    ensures r.Some? ==> files[p] == TextFile(r.value)
  {
    if p in files && files[p].TextFile? then Some(files[p].text) else None
  }

  const CriticalNotes := "## Critical Notes"

  /** The line a note adds; `date` is `%Y-%m-%d`. */
  function NoteLine(date: string, note: string): string {
    "\n- " + date + ": " + note + "\n"
  }

  /**
   * `update_short_memory` on a document holding the marker: the text before
   * the first marker, the marker, the next piece with trailing whitespace
   * removed, the note line. Pieces after a second marker are not kept.
   */
  function UpdatedMemory(content: string, date: string, note: string): string
    requires Contains(content, CriticalNotes)
  {
    AfterMarker(content, CriticalNotes, NoteLine(date, note))
  }

  /** `parts = content.split(m)`, then `parts[0] + m + parts[1].rstrip() + line`. */
  function AfterMarker(content: string, m: string, line: string): string
    requires |m| > 0 && Contains(content, m)
  {
    SplitOnePiece(content, m);
    var parts := Split(content, m);
    parts[0] + m + RStrip(parts[1]) + line
  }

  /** `AfterMarker` in terms of the text before the first marker and the piece after it. */
  lemma {:induction false} MarkerPieces(content: string, m: string, line: string)
    requires |m| > 0 && Contains(content, m)
    ensures var i := Find(content, m);
            AfterMarker(content, m, line)
            == content[..i] + m + RStrip(FirstPiece(content[i + |m|..], m)) + line
  {
    SplitFirstTwo(content, m);
  }

  /** The text up to the second marker is the text before the first, the marker, and the piece after it. */
  lemma {:induction false} UpToSecondPieces(content: string, m: string, i: int)
    requires |m| > 0 && Contains(content, m) && i == Find(content, m)
    ensures BeforeSecondMarker(content, m) == content[..i] + m + FirstPiece(content[i + |m|..], m)
  {
    var after := content[i + |m|..];
    var piece := FirstPiece(after, m);
    var j := Find(after, m);
    var cut := if j < 0 then content else content[..i + |m| + j];
    assert BeforeSecondMarker(content, m) == cut;
    assert cut == content[..i] + m + piece by {
      FindOccurs(content, m);
      CutPieces(content, m, i, j, piece);
    }
  }

  /** Cutting after the occurrence at `i` and `j` characters further on keeps the text before it, it, and the piece between. */
  lemma {:induction false} CutPieces(content: string, m: string, i: int, j: int, piece: string)
    requires OccursAt(content, m, i)
    requires j < 0 ==> piece == content[i + |m|..]
    requires j >= 0 ==> j <= |content| - i - |m| && piece == content[i + |m|..][..j]
    ensures (if j < 0 then content else content[..i + |m| + j]) == content[..i] + m + piece
  {
    JoinAroundOccurrence(content, m, i, piece);
    if j < 0 {
      assert content[..i + |m| + |piece|] == content;
    }
  }

  /** The text before an occurrence, the occurrence, and a prefix of what follows it, make a prefix of the text. */
  lemma {:induction false} JoinAroundOccurrence(s: string, p: string, i: int, piece: string)
    requires OccursAt(s, p, i) && piece <= s[i + |p|..]
    ensures s[..i] + p + piece == s[..i + |p| + |piece|]
  {
    var r := s[..i] + p + piece;
    assert forall k :: 0 <= k < |r| ==> r[k] == s[k] by {
      forall k | 0 <= k < |r|
        ensures r[k] == s[k]
      {
        if k < i {
        } else if k < i + |p| {
          assert p[k - i] == s[i..i + |p|][k - i];
        } else {
          assert piece[k - i - |p|] == s[i + |p|..][k - i - |p|];
        }
      }
    }
  }

  /** Stripping text that follows a marker ending in a non-space character leaves the marker and what precedes it. */
  lemma {:induction false} RStripAfterMarker(head: string, m: string, piece: string)
    requires |m| > 0 && !IsSpace(m[|m| - 1])
    ensures RStrip(head + m + piece) == head + m + RStrip(piece)
  {
    var hm := head + m;
    assert hm[|hm| - 1] == m[|m| - 1];
    RStripKeepsPrefix(hm, piece);
  }

  /** The document up to its second marker, or the whole document when the marker occurs once. */
  function BeforeSecondMarker(content: string, m: string): string
    requires |m| > 0 && Contains(content, m)
  {
    var i := Find(content, m);
    var j := Find(content[i + |m|..], m);
    if j < 0 then content else content[..i + |m| + j]
  }

  /** `BeforeSecondMarker` with trailing whitespace removed. */
  function UpToSecondMarker(content: string, m: string): string
    requires |m| > 0 && Contains(content, m)
  {
    RStrip(BeforeSecondMarker(content, m))
  }

  /** `AfterMarker` cuts the text at the second occurrence of the marker, if there is one. */
  lemma {:induction false} AfterMarkerCuts(content: string, m: string, line: string)
    requires |m| > 0 && Contains(content, m) && !IsSpace(m[|m| - 1])
    ensures AfterMarker(content, m, line) == UpToSecondMarker(content, m) + line
  {
    var i := Find(content, m);
    var kept := content[..i] + m + RStrip(FirstPiece(content[i + |m|..], m));
    assert AfterMarker(content, m, line) == kept + line by {
      MarkerPieces(content, m, line);
    }
    assert UpToSecondMarker(content, m) == kept by {
      UpToSecondStripped(content, m, i);
    }
  }

  /** The kept text, once stripped, is the text before the first marker, the marker, and the stripped piece after it. */
  lemma {:induction false} UpToSecondStripped(content: string, m: string, i: int)
    requires |m| > 0 && Contains(content, m) && !IsSpace(m[|m| - 1]) && i == Find(content, m)
    ensures UpToSecondMarker(content, m) == content[..i] + m + RStrip(FirstPiece(content[i + |m|..], m))
  {
    var head := content[..i];
    var piece := FirstPiece(content[i + |m|..], m);
    assert BeforeSecondMarker(content, m) == head + m + piece by {
      UpToSecondPieces(content, m, i);
    }
    var before := BeforeSecondMarker(content, m);
    assert RStrip(before) == head + m + RStrip(piece) by {
      RStripAfterMarker(head, m, piece);
    }
    assert UpToSecondMarker(content, m) == RStrip(before);
  }

  /**
   * With a single marker, the note is appended after the document with its
   * trailing whitespace removed. With a second marker, everything from the
   * second marker on is dropped before the note is appended.
   */
  lemma {:induction false} NoteCutsAtSecondMarker(content: string, date: string, note: string)
    requires Contains(content, CriticalNotes)
    ensures UpdatedMemory(content, date, note) == UpToSecondMarker(content, CriticalNotes) + NoteLine(date, note)
  {
    assert CriticalNotes[|CriticalNotes| - 1] == 's';
    AfterMarkerCuts(content, CriticalNotes, NoteLine(date, note));
  }

  /** The files after `update_short_memory`: unchanged unless the document exists and holds the marker. */
  function MemoryAfterNote(files: map<string, Blob>, date: string, note: string): map<string, Blob> {
    match ExistingText(files, MemoryPath)
    case Some(content) =>
      if Contains(content, CriticalNotes) then files[MemoryPath := TextFile(UpdatedMemory(content, date, note))]
      else files
    case None => files
  }

  /** A note is a no-op unless the document exists and already has a critical-notes section. */
  lemma {:induction false} NoteNeedsMarker(files: map<string, Blob>, date: string, note: string)
    ensures MemoryAfterNote(files, date, note).Keys == files.Keys
    ensures MemoryAfterNote(files, date, note) != files
            ==> MemoryPath in files && files[MemoryPath].TextFile?
                && Contains(files[MemoryPath].text, CriticalNotes)
    ensures forall p :: p in files && p != MemoryPath ==> MemoryAfterNote(files, date, note)[p] == files[p]
  {
  }

  // ---------------------------------------------------------------------------
  // The extended context
  // ---------------------------------------------------------------------------

  /** `extended_context and "important_notes" in extended_context`. */
  predicate NotesRequested(extended: Option<seq<Entry>>) {
    extended.Some? && |extended.value| > 0 && Lookup(extended.value, ImportantNotes).Some?
  }

  /** The `important_notes` value as the note line renders it. */
  function RequestedNote(extended: Option<seq<Entry>>): string
    requires NotesRequested(extended)
  {
    ValueText(Lookup(extended.value, ImportantNotes).value)
  }

  // ---------------------------------------------------------------------------
  // The files after a save
  // ---------------------------------------------------------------------------

  /** The directories `mkdir(parents=True)` creates for a log bucket. */
  function LogDirs(year: string, month: string): set<string> {
    {WorkingLogDir, WorkingLogDir + "/" + year, WorkingLogDir + "/" + year + "/" + month}
  }

  /**
   * All writes of one save, in the source's order: the session file, the
   * latest file, the log append into the record's own date bucket, then the
   * note when requested.
   */
  function AfterSave(files: map<string, Blob>, record: SessionRecord, header: string, entry: string,
                     extended: Option<seq<Entry>>, noteDate: string): map<string, Blob>
  {
    var b := record.metadata;
    var log := LogPath(b.year, b.month, b.day);
    var written := files[SessionPath(record.sessionId) := RecordFile(record)][LatestPath := RecordFile(record)];
    var logged := written[log := TextFile(AppendedLog(ExistingText(written, log), header, entry))];
    if NotesRequested(extended) then MemoryAfterNote(logged, noteDate, RequestedNote(extended)) else logged
  }

  lemma {:induction false} SessionPathIsJson(id: string)
    ensures EndsWith(SessionPath(id), ".json") && EndsWith(LatestPath, ".json")
  {
    var p := SessionPath(id);
    assert p[|p| - 5..] == ".json";
  }

  /** Log files and the memory document are `.md` files, never one of the two record files. */
  lemma {:induction false} MarkdownPathsDiffer(id: string, year: string, month: string, day: string)
    ensures LogPath(year, month, day) != SessionPath(id) && LogPath(year, month, day) != LatestPath
    ensures MemoryPath != SessionPath(id) && MemoryPath != LatestPath
    ensures LogPath(year, month, day) != MemoryPath
  {
    var log, s := LogPath(year, month, day), SessionPath(id);
    assert log[|log| - 1] == 'd' && s[|s| - 1] == 'n';
    assert log[7] == 'W' && MemoryPath[7] == 'S';
  }

  /**
   * After a save the session file and `LATEST.json` hold the identical record,
   * and the only paths added are those two and the log of the record's own
   * date bucket.
   */
  lemma {:induction false} SaveWritesBothCopies(files: map<string, Blob>, record: SessionRecord, header: string, entry: string,
                             extended: Option<seq<Entry>>, noteDate: string)
    ensures var after := AfterSave(files, record, header, entry, extended, noteDate);
            && SessionPath(record.sessionId) in after && LatestPath in after
            && after[SessionPath(record.sessionId)] == RecordFile(record)
            && after[LatestPath] == RecordFile(record)
    ensures var b := record.metadata;
            AfterSave(files, record, header, entry, extended, noteDate).Keys
            == files.Keys + {SessionPath(record.sessionId), LatestPath, LogPath(b.year, b.month, b.day)}
  {
    var b := record.metadata;
    MarkdownPathsDiffer(record.sessionId, b.year, b.month, b.day);
    var log := LogPath(b.year, b.month, b.day);
    var written := files[SessionPath(record.sessionId) := RecordFile(record)][LatestPath := RecordFile(record)];
    var logged := written[log := TextFile(AppendedLog(ExistingText(written, log), header, entry))];
    if NotesRequested(extended) {
      NoteNeedsMarker(logged, noteDate, RequestedNote(extended));
    }
  }

  /** An existing log keeps all of its text; the entry goes after it, so same-day saves accumulate. */
  lemma {:induction false} SaveKeepsLog(files: map<string, Blob>, record: SessionRecord, header: string, entry: string,
                     extended: Option<seq<Entry>>, noteDate: string)
    requires var b := record.metadata; ExistingText(files, LogPath(b.year, b.month, b.day)).Some?
    ensures var b := record.metadata;
            var log := LogPath(b.year, b.month, b.day);
            var after := AfterSave(files, record, header, entry, extended, noteDate);
            log in after && after[log] == TextFile(files[log].text + "\n" + entry)
  {
    var b := record.metadata;
    MarkdownPathsDiffer(record.sessionId, b.year, b.month, b.day);
    var log := LogPath(b.year, b.month, b.day);
    var written := files[SessionPath(record.sessionId) := RecordFile(record)][LatestPath := RecordFile(record)];
    assert ExistingText(written, log) == ExistingText(files, log);
    var logged := written[log := TextFile(AppendedLog(ExistingText(written, log), header, entry))];
    if NotesRequested(extended) {
      NoteNeedsMarker(logged, noteDate, RequestedNote(extended));
    }
  }

  /**
   * Without `important_notes` in the extended context (in particular when the
   * `--extended` text was not valid JSON) the memory document is untouched.
   */
  lemma {:induction false} MemoryOnlyOnRequest(files: map<string, Blob>, record: SessionRecord, header: string, entry: string,
                            extended: Option<seq<Entry>>, noteDate: string)
    requires !NotesRequested(extended)
    ensures var after := AfterSave(files, record, header, entry, extended, noteDate);
            (MemoryPath in after <==> MemoryPath in files)
            && (MemoryPath in files ==> after[MemoryPath] == files[MemoryPath])
  {
    var b := record.metadata;
    MarkdownPathsDiffer(record.sessionId, b.year, b.month, b.day);
  }

  // ---------------------------------------------------------------------------
  // The saver
  // ---------------------------------------------------------------------------

  /** `AtlasSessionSaver`: the file store and the date bucket fixed when it is created. */
  class AtlasSessionSaver {
    const fs: FileStore
    const year: string
    const month: string
    const day: string

    ghost predicate Valid()
      reads this, fs
    {
      fs.Valid() && |Split(month, "-")| >= 2
    }

    /** `__init__`: the bucket is `%Y`, lower-cased `%m-%b` and `%d` of one clock reading; `sessions` is created. */
    constructor (fs: FileStore, now: DateTime)
      requires fs.Valid() && now.Valid() && AtlasDir in fs.dirs
      modifies fs
      ensures Valid() && this.fs == fs
      ensures year == YearField(now) && month == MonthField(now) && day == DayField(now)
      ensures fs.files == old(fs.files) && fs.dirs == old(fs.dirs) + {SessionsDir}
    {
      this.fs := fs;
      year := YearField(now);
      month := MonthField(now);
      day := DayField(now);
      MonthHeaderName(now);
      new;
      fs.dirs := fs.dirs + {SessionsDir};
    }

    /** `read_short_memory` */
    function ReadShortMemory(): (r: Option<string>)
      reads this, fs
      requires Valid()
      ensures r.Some? <==> MemoryPath in fs.files
      ensures r.Some? ==> fs.files[MemoryPath] == TextFile(r.value)
    {
      if MemoryPath in fs.files then
        MarkdownNotJson("", "", "");
        Some(ReadText(fs.files, MemoryPath))
      else None
    }

    /** `create_working_log_entry`: the append into `WORKING_LOG/<year>/<month>/<day>.md`. */
    method CreateWorkingLogEntry(context: string, nextTask: string, cwd: string, pyVersion: string, now: DateTime)
      requires Valid() && now.Valid()
      modifies fs
      ensures Valid()
      ensures fs.dirs == old(fs.dirs) + LogDirs(year, month)
      ensures fs.files == old(fs.files)[LogPath(year, month, day) := TextFile(AppendedLog(
                ExistingText(old(fs.files), LogPath(year, month, day)),
                LogHeader(year, month, day),
                LogEntry(SecondStamp(now), context, nextTask, cwd, pyVersion)))]
    {
      var logFile := LogPath(year, month, day);
      var entry := LogEntry(SecondStamp(now), context, nextTask, cwd, pyVersion);
      var header := LogHeader(year, month, day);
      MarkdownNotJson(year, month, day);
      var text;
      if logFile in fs.files {
        var existing := ReadText(fs.files, logFile);
        assert ExistingText(fs.files, logFile) == Some(existing);
        text := existing + "\n" + entry;
      } else {
        assert ExistingText(fs.files, logFile) == None;
        text := header + entry;
      }
      assert text == AppendedLog(ExistingText(fs.files, logFile), header, entry);
      assert FilesValid(fs.files[logFile := TextFile(text)]);
      fs.files := fs.files[logFile := TextFile(text)];
      fs.dirs := fs.dirs + LogDirs(year, month);
    }

    /** `update_short_memory` */
    method UpdateShortMemory(note: string, now: DateTime)
      requires Valid() && now.Valid()
      modifies fs
      ensures Valid() && fs.dirs == old(fs.dirs)
      ensures fs.files == MemoryAfterNote(old(fs.files), DateStamp(now), note)
    {
      if MemoryPath in fs.files {
        MarkdownNotJson("", "", "");
        var content := ReadText(fs.files, MemoryPath);
        if Contains(content, CriticalNotes) {
          SplitOnePiece(content, CriticalNotes);
          var parts := Split(content, CriticalNotes);
          var updated := parts[0] + CriticalNotes + RStrip(parts[1]) + NoteLine(DateStamp(now), note);
          fs.files := fs.files[MemoryPath := TextFile(updated)];
        }
      }
    }

    /**
     * `save_session`: the record holds the id and time of `now`, the git
     * snapshot, the memory document as it was before the save, and this
     * saver's date bucket; the files change as `AfterSave` says.
     */
    method SaveSession(context: string, nextTask: string, extended: Option<seq<Entry>>, now: DateTime,
                       git: Option<GitOutputs>, cwd: string, user: string, pyVersion: string,
                       logNow: DateTime, noteNow: DateTime)
      returns (sessionFile: string, record: SessionRecord)
      requires Valid() && now.Valid() && logNow.Valid() && noteNow.Valid()
      modifies fs
      ensures Valid()
      ensures record == SessionRecord(SessionId(now), now, context, nextTask, extended, cwd,
                                      GetGitInfo(git), ExistingText(old(fs.files), MemoryPath),
                                      Bucket(year, month, day, user))
      ensures sessionFile == SessionPath(record.sessionId)
      ensures |Split(month, "-")| >= 2
      ensures fs.files == AfterSave(old(fs.files), record, LogHeader(year, month, day),
                                    LogEntry(SecondStamp(logNow), context, nextTask, cwd, pyVersion),
                                    extended, DateStamp(noteNow))
      ensures fs.dirs == old(fs.dirs) + LogDirs(year, month)
    {
      var memory := ReadShortMemory();
      record := SessionRecord(SessionId(now), now, context, nextTask, extended, cwd,
                              GetGitInfo(git), memory, Bucket(year, month, day, user));
      sessionFile := SessionPath(record.sessionId);
      SessionPathIsJson(record.sessionId);
      fs.files := fs.files[sessionFile := RecordFile(record)];
      fs.files := fs.files[LatestPath := RecordFile(record)];
      CreateWorkingLogEntry(context, nextTask, cwd, pyVersion, logNow);
      ghost var logged := fs.files;
      if NotesRequested(extended) {
        UpdateShortMemory(RequestedNote(extended), noteNow);
      }
      assert fs.files == if NotesRequested(extended)
                         then MemoryAfterNote(logged, DateStamp(noteNow), RequestedNote(extended)) else logged;
    }
  }
}
