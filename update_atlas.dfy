/**
 * `update_atlas.py`: bring a project's `.atlas` checkout up to date. The
 * updater refuses when `.atlas` is missing or has uncommitted changes the
 * user does not confirm, backs up the customizable documents and the session
 * data, pulls, rewrites the project `CLAUDE.md` from the new atlas one with
 * the same reference chain as the setup, and copies the customizations back.
 * Git is an oracle: the porcelain status, and what fetch, diff and pull
 * report and bring in.
 */
module UpdateAtlas {
  import opened Wrappers
  import opened Text
  import opened Clock
  import opened Files
  import opened SetupProject

  // ---------------------------------------------------------------------------
  // The git checks
  // ---------------------------------------------------------------------------

  /**
   * `check_git_status`: `status` is the output of `git status --porcelain`,
   * `None` when git could not be run at all; `answer` is what was typed at
   * the prompt, which is only asked when the output is not blank.
   */
  function CheckGitStatus(status: Option<string>, answer: string): bool {
    match status
    case None => false
    case Some(out) => if Strip(out) != [] then Lower(answer) == "y" else true
  }

  /**
   * The update goes ahead exactly when git ran and either reported nothing
   * but whitespace or the user answered `y` or `Y`.
   */
  lemma {:induction false} GitCheckDecision(status: Option<string>, answer: string)
    ensures CheckGitStatus(status, answer)
            <==> status.Some? && (AllSpace(status.value) || answer == "y" || answer == "Y")
  {
    if status.Some? {
      StripEmpty(status.value);
      LowerIsY(answer);
    }
  }

  /**
   * What git does during `pull_latest`: whether `git fetch origin main`
   * succeeded, the output of `git diff --name-only HEAD origin/main`, whether
   * `git pull origin main` succeeded, and the files that pull writes, whether
   * or not it then succeeds (a pull stopped by a merge conflict leaves files
   * holding conflict markers).
   */
  datatype PullOracle = PullOracle(fetched: bool, diff: string, pulled: bool, incoming: map<string, Blob>)

  /** The pull writes only into `.atlas`, and only text under names other than `.json` ones. */
  predicate PullValid(git: PullOracle) {
    FilesValid(git.incoming) && forall p :: p in git.incoming ==> StartsWith(p, AtlasDir + "/")
  }

  datatype PullResult = UpToDate | Pulled | PullFailed

  /** `pull_latest`: a failed checked step fails it; a blank diff stops before pulling. */
  function PullOutcome(git: PullOracle): PullResult {
    if !git.fetched then PullFailed
    else if Strip(git.diff) == [] then UpToDate
    else if git.pulled then Pulled
    else PullFailed
  }

  /** The files after `pull_latest`: changed by the pull whenever it runs, successful or not. */
  function AfterPull(files: map<string, Blob>, git: PullOracle): map<string, Blob> {
    if git.fetched && Strip(git.diff) != [] then files + git.incoming else files
  }

  /**
   * Nothing is pulled when the fetch fails or the diff is blank; otherwise
   * the pull runs and its writes land whether it succeeds or fails.
   */
  lemma {:induction false} PullDecision(files: map<string, Blob>, git: PullOracle)
    ensures PullOutcome(git) == UpToDate <==> git.fetched && AllSpace(git.diff)
    ensures PullOutcome(git) == Pulled <==> git.fetched && !AllSpace(git.diff) && git.pulled
    ensures !git.fetched || AllSpace(git.diff) ==> AfterPull(files, git) == files
    ensures git.fetched && !AllSpace(git.diff) ==> AfterPull(files, git) == files + git.incoming
    ensures PullOutcome(git) == Pulled ==> AfterPull(files, git) == files + git.incoming
  {
    StripEmpty(git.diff);
  }

  /** A pull keeps the files valid. */
  lemma {:induction false} PullKeepsValid(files: map<string, Blob>, git: PullOracle)
    requires FilesValid(files) && PullValid(git)
    ensures FilesValid(AfterPull(files, git))
  {
  }

  // ---------------------------------------------------------------------------
  // Backup and restore
  // ---------------------------------------------------------------------------

  const BackupsDir := ".atlas/backups"

  /** `.atlas/backups/<%Y%m%d_%H%M%S>` of the clock reading taken when the updater is made. */
  function BackupDir(t: DateTime): string
    requires t.Valid()
  {
    InDir(BackupsDir, SessionId(t))
  }

  const MemoryName := "SHORT_IMPORTANT_MEMORY.md"
  const SpecificName := "CLAUDE_PROJECT_SPECIFIC.md"

  /** The documents a user may have customized, in the order they are backed up. */
  const CustomFiles := [MemoryName, SpecificName]

  /** `shutil.copy2(from/name, to/name)` for each name whose source exists, in order. */
  function CopyEach(files: map<string, Blob>, names: seq<string>, from: string, to: string): map<string, Blob>
    decreases |names|
  {
    if names == [] then files
    else
      var name := names[|names| - 1];
      CopyIfExists(CopyEach(files, names[..|names| - 1], from, to), InDir(from, name), InDir(to, name))
  }

  /** Copying markdown files keeps the files valid. */
  lemma {:induction false} CopyEachValid(files: map<string, Blob>, names: seq<string>, from: string, to: string)
    requires FilesValid(files)
    requires forall k :: 0 <= k < |names| ==> EndsWith(names[k], ".md")
    ensures FilesValid(CopyEach(files, names, from, to))
    decreases |names|
  {
    if names != [] {
      var name := names[|names| - 1];
      CopyEachValid(files, names[..|names| - 1], from, to);
      MarkdownName(from, name);
      CopyKeepsValid(CopyEach(files, names[..|names| - 1], from, to), InDir(from, name), InDir(to, name));
    }
  }

  lemma {:induction false} CustomFilesMarkdown()
    ensures forall k :: 0 <= k < |CustomFiles| ==> EndsWith(CustomFiles[k], ".md")
  {
    assert MemoryName[|MemoryName| - 3..] == ".md";
    assert SpecificName[|SpecificName| - 3..] == ".md";
  }

  /** `sessions_dir.exists() and any(sessions_dir.iterdir())` */
  predicate SessionsNonEmpty(files: map<string, Blob>, dirs: set<string>) {
    SessionsDir in dirs
    && ((exists p :: p in files && StartsWith(p, SessionsPrefix))
        || (exists d :: d in dirs && StartsWith(d, SessionsPrefix)))
  }

  function SessionsBackup(backupDir: string): string {
    InDir(backupDir, "sessions")
  }

  /** Two names under one directory that end the same way are the same name. */
  lemma {:induction false} SameTail(a: string, b: string, to: string)
    requires StartsWith(a, SessionsPrefix) && StartsWith(b, SessionsPrefix)
    requires to + a[|SessionsPrefix|..] == to + b[|SessionsPrefix|..]
    ensures a == b
  {
    var n := |SessionsPrefix|;
    assert a[n..] == (to + a[n..])[|to|..];
    assert b[n..] == (to + b[n..])[|to|..];
    assert a == a[..n] + a[n..] && b == b[..n] + b[n..];
  }

  /** `shutil.copytree(sessions, backup/sessions)`: every file under `sessions/` gets a copy under the backup. */
  function CopySessions(files: map<string, Blob>, backupDir: string): map<string, Blob> {
    var to := SessionsBackup(backupDir) + "/";
    assert forall a, b | a in files && StartsWith(a, SessionsPrefix) && b in files && StartsWith(b, SessionsPrefix)
                         && to + a[|SessionsPrefix|..] == to + b[|SessionsPrefix|..] :: a == b by {
      forall a, b | a in files && StartsWith(a, SessionsPrefix) && b in files && StartsWith(b, SessionsPrefix)
                    && to + a[|SessionsPrefix|..] == to + b[|SessionsPrefix|..]
        ensures a == b
      {
        SameTail(a, b, to);
      }
    }
    files + map p | p in files && StartsWith(p, SessionsPrefix) :: to + p[|SessionsPrefix|..] := files[p]
  }

  /** Each file under `sessions/` has its copy under the backup's `sessions/`. */
  lemma {:induction false} CopySessionsCopies(files: map<string, Blob>, backupDir: string, p: string)
    requires p in files && StartsWith(p, SessionsPrefix)
    ensures var c := SessionsBackup(backupDir) + "/" + p[|SessionsPrefix|..];
            c in CopySessions(files, backupDir) && CopySessions(files, backupDir)[c] == files[p]
  {
    var to := SessionsBackup(backupDir) + "/";
    var k := to + p[|SessionsPrefix|..];
    forall a, b | a in files && StartsWith(a, SessionsPrefix) && b in files && StartsWith(b, SessionsPrefix)
                  && to + a[|SessionsPrefix|..] == to + b[|SessionsPrefix|..]
      ensures a == b
    {
      SameTail(a, b, to);
    }
    var copies := map q | q in files && StartsWith(q, SessionsPrefix) :: to + q[|SessionsPrefix|..] := files[q];
    assert k in copies && copies[k] == files[p];
  }

  /** The copy of the session data adds paths under the backup only. */
  lemma {:induction false} CopySessionsElsewhere(files: map<string, Blob>, backupDir: string, q: string)
    requires !StartsWith(q, SessionsBackup(backupDir) + "/")
    ensures q in CopySessions(files, backupDir) <==> q in files
    ensures q in files ==> CopySessions(files, backupDir)[q] == files[q]
  {
    var to := SessionsBackup(backupDir) + "/";
    forall p | p in files && StartsWith(p, SessionsPrefix)
      ensures to + p[|SessionsPrefix|..] != q
    {
      var k := to + p[|SessionsPrefix|..];
      assert k[..|to|] == to;
    }
  }

  /** The directories `copytree` creates: the backup of `sessions` and a copy of each directory under it. */
  function CopySessionDirs(dirs: set<string>, backupDir: string): set<string> {
    var to := SessionsBackup(backupDir) + "/";
    dirs + {SessionsBackup(backupDir)} + set d | d in dirs && StartsWith(d, SessionsPrefix) :: to + d[|SessionsPrefix|..]
  }

  /** A name under `sessions/` that is a `.json` name is one under any other directory too. */
  lemma {:induction false} JsonTail(p: string, to: string)
    requires StartsWith(p, SessionsPrefix) && EndsWith(p, ".json")
    ensures EndsWith(to + p[|SessionsPrefix|..], ".json")
  {
    var n := |SessionsPrefix|;
    var rest := p[n..];
    assert forall i :: |p| - 5 <= i < |p| ==> p[i] == p[|p| - 5..][i - (|p| - 5)];
    assert p[n - 1] == '/';
    assert |rest| >= 5;
    var q := to + rest;
    assert q[|q| - 5..] == rest[|rest| - 5..] == p[|p| - 5..];
  }

  /** The copy of the session data keeps the files valid. */
  lemma {:induction false} CopySessionsValid(files: map<string, Blob>, backupDir: string)
    requires FilesValid(files)
    ensures FilesValid(CopySessions(files, backupDir))
  {
    var to := SessionsBackup(backupDir) + "/";
    forall p | p in files && StartsWith(p, SessionsPrefix) && files[p].RecordFile?
      ensures EndsWith(to + p[|SessionsPrefix|..], ".json")
    {
      JsonTail(p, to);
    }
  }

  /** The files after `backup_customizations`. */
  function BackupFiles(files: map<string, Blob>, dirs: set<string>, backupDir: string): (r: map<string, Blob>)
    requires FilesValid(files)
    ensures FilesValid(r)
  {
    CustomFilesMarkdown();
    CopyEachValid(files, CustomFiles, AtlasDir, backupDir);
    var saved := CopyEach(files, CustomFiles, AtlasDir, backupDir);
    CopySessionsValid(saved, backupDir);
    if SessionsNonEmpty(files, dirs) then CopySessions(saved, backupDir) else saved
  }

  /** The directories after `backup_customizations`. */
  function BackupDirs(files: map<string, Blob>, dirs: set<string>, backupDir: string): set<string> {
    var made := dirs + {BackupsDir, backupDir};
    if SessionsNonEmpty(files, dirs) then CopySessionDirs(made, backupDir) else made
  }

  /** The files after `restore_customizations`: the backed-up documents copied back into `.atlas`. */
  function RestoreFiles(files: map<string, Blob>, backupDir: string): (r: map<string, Blob>)
    requires FilesValid(files)
    ensures FilesValid(r)
  {
    CustomFilesMarkdown();
    CopyEachValid(files, CustomFiles, backupDir, AtlasDir);
    CopyEach(files, CustomFiles, backupDir, AtlasDir)
  }

  /** The two customizable documents, one after the other. */
  lemma {:induction false} CopyBoth(files: map<string, Blob>, from: string, to: string)
    ensures CopyEach(files, CustomFiles, from, to)
            == CopyIfExists(CopyIfExists(files, InDir(from, MemoryName), InDir(to, MemoryName)),
                            InDir(from, SpecificName), InDir(to, SpecificName))
  {
    var one := CopyEach(files, [MemoryName], from, to);
    assert CustomFiles[..1] == [MemoryName] && [MemoryName][..0] == [];
    assert CopyEach(files, [], from, to) == files;
    assert one == CopyIfExists(files, InDir(from, MemoryName), InDir(to, MemoryName));
  }

  /** Where the atlas documents live, where their backups go, and the project `CLAUDE.md`, are all different paths. */
  lemma {:induction false} BackupPathsApart(t: DateTime, name: string, other: string)
    requires t.Valid()
    requires name in {MemoryName, SpecificName, "CLAUDE.md"} && other in {MemoryName, SpecificName, "CLAUDE.md"}
    ensures InDir(BackupDir(t), name) != InDir(AtlasDir, other)
    ensures InDir(BackupDir(t), name) != ProjectClaudePath && InDir(AtlasDir, other) != ProjectClaudePath
    ensures name != other ==> InDir(BackupDir(t), name) != InDir(BackupDir(t), other)
    ensures name != other ==> InDir(AtlasDir, name) != InDir(AtlasDir, other)
  {
    assert |BackupDir(t)| == 30;
  }

  /** Backup paths are not under `sessions/`, and so are not among the copied session data. */
  lemma {:induction false} BackupNotSession(t: DateTime, name: string)
    requires t.Valid()
    ensures !StartsWith(InDir(BackupDir(t), name), SessionsPrefix)
  {
    var b := InDir(BackupDir(t), name);
    assert b[7] == 'b' && SessionsPrefix[7] == 's';
  }

  /** Copies of the session data are not where the customized documents or their backups are. */
  lemma {:induction false} SessionCopiesApart(t: DateTime, name: string, q: string)
    requires t.Valid()
    requires name in {MemoryName, SpecificName, "CLAUDE.md"}
    requires StartsWith(q, SessionsBackup(BackupDir(t)) + "/")
    ensures q != InDir(AtlasDir, name) && q != InDir(BackupDir(t), name) && q != ProjectClaudePath
  {
    var bd := BackupDir(t);
    var to := SessionsBackup(bd) + "/";
    assert |bd| == 30;
    assert q[7] == to[7] == 'b';
    assert q[31] == to[31] == 's';
    var b := InDir(bd, name);
    assert b[31] == name[0];
  }

  /** A backup path is under the backup directory. */
  lemma {:induction false} UnderBackup(bd: string, name: string)
    ensures StartsWith(InDir(bd, name), bd + "/")
  {
    assert InDir(bd, name)[..|bd| + 1] == bd + "/";
  }

  /** Paths outside the backup directory are outside its copy of the session data. */
  lemma {:induction false} OutsideSessionsBackup(bd: string, p: string)
    requires !StartsWith(p, bd + "/")
    ensures !StartsWith(p, SessionsBackup(bd) + "/")
  {
    var to := SessionsBackup(bd) + "/";
    assert to[..|bd| + 1] == bd + "/";
  }

  /** The loop of `backup_customizations` alone: each existing document copied, nothing outside the backup touched. */
  lemma {:induction false} CustomCopies(files: map<string, Blob>, t: DateTime, name: string)
    requires t.Valid() && name in {MemoryName, SpecificName}
    ensures var bd := BackupDir(t);
            var saved := CopyEach(files, CustomFiles, AtlasDir, bd);
            var a := InDir(AtlasDir, name);
            var b := InDir(bd, name);
            && (a in files ==> b in saved && saved[b] == files[a])
            && (a !in files ==> (b in saved <==> b in files))
            && (forall p :: p in files && !StartsWith(p, bd + "/") ==> p in saved && saved[p] == files[p])
  {
    var bd := BackupDir(t);
    CopyBoth(files, AtlasDir, bd);
    BackupPathsApart(t, MemoryName, SpecificName);
    BackupPathsApart(t, SpecificName, MemoryName);
    BackupPathsApart(t, name, name);
    UnderBackup(bd, MemoryName);
    UnderBackup(bd, SpecificName);
  }

  /**
   * The backup copies each customizable document that exists in `.atlas`,
   * and leaves everything outside the backup directory as it was.
   */
  lemma {:induction false} BackupCopiesExisting(files: map<string, Blob>, dirs: set<string>, t: DateTime, name: string)
    requires FilesValid(files) && t.Valid() && name in {MemoryName, SpecificName}
    ensures var bd := BackupDir(t);
            var r := BackupFiles(files, dirs, bd);
            var a := InDir(AtlasDir, name);
            var b := InDir(bd, name);
            && (a in files ==> b in r && r[b] == files[a])
            && (a !in files ==> (b in r <==> b in files))
            && (forall p :: p in files && !StartsWith(p, bd + "/") ==> p in r && r[p] == files[p])
  {
    var bd := BackupDir(t);
    var saved := CopyEach(files, CustomFiles, AtlasDir, bd);
    var r := BackupFiles(files, dirs, bd);
    var b := InDir(bd, name);
    CustomCopies(files, t, name);
    assert Kept: forall q :: !StartsWith(q, SessionsBackup(bd) + "/") ==> (q in r <==> q in saved) && (q in saved ==> r[q] == saved[q]) by {
      forall q | !StartsWith(q, SessionsBackup(bd) + "/")
        ensures (q in r <==> q in saved) && (q in saved ==> r[q] == saved[q])
      {
        CopySessionsElsewhere(saved, bd, q);
      }
    }
    if StartsWith(b, SessionsBackup(bd) + "/") {
      SessionCopiesApart(t, name, b);
    }
    forall p | p in files && !StartsWith(p, bd + "/")
      ensures !StartsWith(p, SessionsBackup(bd) + "/")
    {
      OutsideSessionsBackup(bd, p);
    }
  }

  /**
   * Restoring copies back each customizable document present in the backup,
   * and leaves every other path as it was.
   */
  lemma {:induction false} RestoreCopiesBack(files: map<string, Blob>, t: DateTime, name: string)
    requires FilesValid(files) && t.Valid() && name in {MemoryName, SpecificName}
    ensures var r := RestoreFiles(files, BackupDir(t));
            var a := InDir(AtlasDir, name);
            var b := InDir(BackupDir(t), name);
            && (b in files ==> a in r && r[a] == files[b])
            && (b !in files ==> (a in r <==> a in files))
            && (b !in files && a in files ==> r[a] == files[a])
            && (forall p :: p in files && p != InDir(AtlasDir, MemoryName) && p != InDir(AtlasDir, SpecificName)
                  ==> p in r && r[p] == files[p])
  {
    CopyBoth(files, BackupDir(t), AtlasDir);
    BackupPathsApart(t, MemoryName, SpecificName);
    BackupPathsApart(t, SpecificName, MemoryName);
  }

  // ---------------------------------------------------------------------------
  // The project CLAUDE.md
  // ---------------------------------------------------------------------------

  const SpecificReference := "@.atlas/CLAUDE_PROJECT_SPECIFIC.md"

  /** The section pointing at the project-specific instructions. */
  const SpecificBlock := "\n\n## Project-Specific Instructions\n\nThis project has additional specific instructions and context:\n\n"
    + SpecificReference + "\n"

  /** The section is appended when the project has specific instructions and the text does not reference them yet. */
  function WithSpecific(content: string, hasSpecific: bool): string {
    if hasSpecific && !Contains(content, SpecificReference) then content + SpecificBlock else content
  }

  lemma {:induction false} BlockHasReference()
    ensures Contains(SpecificBlock, SpecificReference)
  {
    var front := "\n\n## Project-Specific Instructions\n\nThis project has additional specific instructions and context:\n\n";
    assert SpecificBlock == front + (SpecificReference + "\n");
    ContainsSelf(SpecificReference);
    ContainsPrepend(SpecificReference, "\n", SpecificReference);
    ContainsAppend(front, SpecificReference + "\n", SpecificReference);
  }

  /**
   * The text is kept in front; with specific instructions the reference is
   * in the result, and appending again changes nothing; without them the
   * text is unchanged.
   */
  lemma {:induction false} SpecificOnce(content: string, hasSpecific: bool)
    ensures content <= WithSpecific(content, hasSpecific)
    ensures hasSpecific ==> Contains(WithSpecific(content, hasSpecific), SpecificReference)
    ensures !hasSpecific ==> WithSpecific(content, hasSpecific) == content
    ensures WithSpecific(WithSpecific(content, hasSpecific), hasSpecific) == WithSpecific(content, hasSpecific)
  {
    BlockHasReference();
    if hasSpecific && !Contains(content, SpecificReference) {
      ContainsAppend(content, SpecificBlock, SpecificReference);
    }
  }

  /** The new project `CLAUDE.md`: the atlas one through the setup's rewrite chain, header included, then the section. */
  function UpdatedClaudeMd(atlasText: string, hasSpecific: bool): string {
    WithSpecific(ApplyRules(atlasText, References), hasSpecific)
  }

  /**
   * The files after `update_project_claude_md`: without the atlas `CLAUDE.md`
   * nothing happens; otherwise the project one is backed up when it exists
   * and then overwritten.
   */
  function ClaudeStep(files: map<string, Blob>, backupDir: string): (r: map<string, Blob>)
    requires FilesValid(files)
    ensures FilesValid(r)
  {
    var src := InDir(AtlasDir, "CLAUDE.md");
    if src !in files then files
    else
      NotJson(src);
      NotJson(ProjectClaudePath);
      var saved := CopyIfExists(files, ProjectClaudePath, InDir(backupDir, "CLAUDE.md"));
      saved[ProjectClaudePath := TextFile(UpdatedClaudeMd(ReadText(files, src), InDir(AtlasDir, SpecificName) in files))]
  }

  /**
   * With the atlas `CLAUDE.md`, the project one is its rewrite, the previous
   * one is in the backup, and only those two paths change; without it,
   * nothing changes.
   */
  lemma {:induction false} ClaudeStepWrites(files: map<string, Blob>, t: DateTime)
    requires FilesValid(files) && t.Valid()
    ensures var src := InDir(AtlasDir, "CLAUDE.md");
            var bd := BackupDir(t);
            var r := ClaudeStep(files, bd);
            && (src !in files ==> r == files)
            && (src in files ==>
                  && files[src].TextFile?
                  && r[ProjectClaudePath] == TextFile(UpdatedClaudeMd(files[src].text, InDir(AtlasDir, SpecificName) in files))
                  && (ProjectClaudePath in files ==> r[InDir(bd, "CLAUDE.md")] == files[ProjectClaudePath])
                  && r.Keys == files.Keys + {ProjectClaudePath} + (if ProjectClaudePath in files then {InDir(bd, "CLAUDE.md")} else {})
                  && forall p :: p in files && p != ProjectClaudePath && p != InDir(bd, "CLAUDE.md") ==> r[p] == files[p])
  {
    var src := InDir(AtlasDir, "CLAUDE.md");
    BackupPathsApart(t, "CLAUDE.md", "CLAUDE.md");
    if src in files {
      NotJson(src);
    }
  }

  // ---------------------------------------------------------------------------
  // The whole update
  // ---------------------------------------------------------------------------

  /** The files after a run that passed both checks and whose pull did not fail. */
  function UpdatedFiles(files: map<string, Blob>, dirs: set<string>, backupDir: string, git: PullOracle): (r: map<string, Blob>)
    requires FilesValid(files) && PullValid(git)
    ensures FilesValid(r)
  {
    var backedUp := BackupFiles(files, dirs, backupDir);
    PullKeepsValid(backedUp, git);
    RestoreFiles(ClaudeStep(AfterPull(backedUp, git), backupDir), backupDir)
  }

  /**
   * A customized document that existed before the update is there afterwards
   * with the same contents, even when the pull overwrote it, as long as the
   * pull does not write over its backup.
   */
  lemma {:induction false} CustomizationsSurvive(files: map<string, Blob>, dirs: set<string>, t: DateTime,
                                                  git: PullOracle, name: string)
    requires FilesValid(files) && t.Valid() && PullValid(git)
    requires name in {MemoryName, SpecificName} && InDir(AtlasDir, name) in files
    requires InDir(BackupDir(t), name) !in git.incoming
    ensures var r := UpdatedFiles(files, dirs, BackupDir(t), git);
            InDir(AtlasDir, name) in r && r[InDir(AtlasDir, name)] == files[InDir(AtlasDir, name)]
  {
    var bd := BackupDir(t);
    var b := InDir(bd, name);
    var backedUp := BackupFiles(files, dirs, bd);
    BackupCopiesExisting(files, dirs, t, name);
    PullKeepsValid(backedUp, git);
    var pulled := AfterPull(backedUp, git);
    assert b in pulled && pulled[b] == files[InDir(AtlasDir, name)];
    var rewritten := ClaudeStep(pulled, bd);
    ClaudeStepWrites(pulled, t);
    BackupPathsApart(t, name, "CLAUDE.md");
    BackupPathsApart(t, "CLAUDE.md", name);
    assert b in rewritten && rewritten[b] == files[InDir(AtlasDir, name)];
    RestoreCopiesBack(rewritten, t, name);
  }

  /**
   * With session data present, every file under `sessions/` is copied to the
   * same name under the backup's `sessions/`, with the same contents.
   */
  lemma {:induction false} SessionsBackedUp(files: map<string, Blob>, dirs: set<string>, t: DateTime, p: string)
    requires FilesValid(files) && t.Valid() && SessionsNonEmpty(files, dirs)
    requires p in files && StartsWith(p, SessionsPrefix)
    ensures var r := BackupFiles(files, dirs, BackupDir(t));
            var c := SessionsBackup(BackupDir(t)) + "/" + p[|SessionsPrefix|..];
            c in r && r[c] == files[p]
  {
    var bd := BackupDir(t);
    var saved := CopyEach(files, CustomFiles, AtlasDir, bd);
    CopyBoth(files, AtlasDir, bd);
    BackupNotSession(t, MemoryName);
    BackupNotSession(t, SpecificName);
    assert p in saved && saved[p] == files[p];
    CopySessionsCopies(saved, bd, p);
  }

  /** Without session data, the backup's `sessions/` holds only what was already there. */
  lemma {:induction false} NoSessionsNoCopies(files: map<string, Blob>, dirs: set<string>, t: DateTime, q: string)
    requires FilesValid(files) && t.Valid() && !SessionsNonEmpty(files, dirs)
    requires StartsWith(q, SessionsBackup(BackupDir(t)) + "/")
    ensures var r := BackupFiles(files, dirs, BackupDir(t));
            (q in r <==> q in files) && (q in files ==> r[q] == files[q])
  {
    var bd := BackupDir(t);
    CopyBoth(files, AtlasDir, bd);
    SessionCopiesApart(t, MemoryName, q);
    SessionCopiesApart(t, SpecificName, q);
  }

  /**
   * When the pull fails after the backup, the backed-up copy of a customized
   * document still holds what the document held before the run, as long as
   * the pull does not write over the backup.
   */
  lemma {:induction false} FailedPullKeepsBackup(files: map<string, Blob>, dirs: set<string>, t: DateTime,
                                                 git: PullOracle, name: string)
    requires FilesValid(files) && t.Valid() && PullValid(git) && PullOutcome(git) == PullFailed
    requires name in {MemoryName, SpecificName} && InDir(AtlasDir, name) in files
    requires InDir(BackupDir(t), name) !in git.incoming
    ensures var r := AfterPull(BackupFiles(files, dirs, BackupDir(t)), git);
            InDir(BackupDir(t), name) in r && r[InDir(BackupDir(t), name)] == files[InDir(AtlasDir, name)]
  {
    BackupCopiesExisting(files, dirs, t, name);
  }

  /** `AtlasUpdater`: the file store and the backup directory named from one clock reading. */
  class AtlasUpdater {
    const fs: FileStore
    const stamp: DateTime
    const backupDir: string

    ghost predicate Valid()
      reads this, fs
    {
      fs.Valid() && stamp.Valid() && backupDir == BackupDir(stamp)
    }

    /** `__init__` */
    constructor (fs: FileStore, now: DateTime)
      requires fs.Valid() && now.Valid()
      ensures Valid() && this.fs == fs && stamp == now
    {
      this.fs := fs;
      stamp := now;
      backupDir := BackupDir(now);
    }

    /** `backup_customizations` */
    method BackupCustomizations()
      requires Valid()
      modifies fs
      ensures Valid()
      ensures fs.files == BackupFiles(old(fs.files), old(fs.dirs), backupDir)
      ensures fs.dirs == BackupDirs(old(fs.files), old(fs.dirs), backupDir)
    {
      var nonEmpty := SessionsNonEmpty(fs.files, fs.dirs);
      fs.dirs := fs.dirs + {BackupsDir, backupDir};
      CustomFilesMarkdown();
      for i := 0 to |CustomFiles|
        invariant fs.files == CopyEach(old(fs.files), CustomFiles[..i], AtlasDir, backupDir)
        invariant fs.dirs == old(fs.dirs) + {BackupsDir, backupDir}
      {
        assert CustomFiles[..i + 1][..i] == CustomFiles[..i];
        var src := InDir(AtlasDir, CustomFiles[i]);
        if src in fs.files {
          fs.files := fs.files[InDir(backupDir, CustomFiles[i]) := fs.files[src]];
        }
      }
      assert CustomFiles[..|CustomFiles|] == CustomFiles;
      ghost var saved := fs.files;
      assert FilesValid(saved) by {
        CopyEachValid(old(fs.files), CustomFiles, AtlasDir, backupDir);
      }
      if nonEmpty {
        fs.files := CopySessions(fs.files, backupDir);
        fs.dirs := CopySessionDirs(fs.dirs, backupDir);
      }
      assert fs.files == BackupFiles(old(fs.files), old(fs.dirs), backupDir);
    }

    /** `pull_latest`: true unless a checked git step failed. */
    method PullLatest(git: PullOracle) returns (ok: bool)
      requires Valid() && PullValid(git)
      modifies fs
      ensures Valid() && fs.dirs == old(fs.dirs)
      ensures ok <==> PullOutcome(git) != PullFailed
      ensures fs.files == AfterPull(old(fs.files), git)
    {
      if !git.fetched {
        return false;
      }
      if Strip(git.diff) == [] {
        return true;
      }
      fs.files := fs.files + git.incoming;
      ok := git.pulled;
    }

    /** `update_project_claude_md` */
    method UpdateProjectClaudeMd()
      requires Valid()
      modifies fs
      ensures Valid() && fs.dirs == old(fs.dirs)
      ensures fs.files == ClaudeStep(old(fs.files), backupDir)
    {
      var src := InDir(AtlasDir, "CLAUDE.md");
      if src !in fs.files {
        return;
      }
      NotJson(src);
      NotJson(ProjectClaudePath);
      if ProjectClaudePath in fs.files {
        fs.files := fs.files[InDir(backupDir, "CLAUDE.md") := fs.files[ProjectClaudePath]];
      }
      var content := ClaudeText(ReadText(fs.files, src), InDir(AtlasDir, SpecificName) in fs.files);
      fs.files := fs.files[ProjectClaudePath := TextFile(content)];
      assert fs.files == ClaudeStep(old(fs.files), backupDir);
    }

    /** The new project `CLAUDE.md`: the atlas one with its references rewritten, plus the block when needed. */
    method ClaudeText(atlasText: string, hasSpecific: bool) returns (content: string)
      ensures content == UpdatedClaudeMd(atlasText, hasSpecific)
    {
      content := RewriteAll(atlasText, References);
      if hasSpecific {
        if !Contains(content, SpecificReference) {
          content := content + SpecificBlock;
        }
      }
    }

    /** `restore_customizations` */
    method RestoreCustomizations()
      requires Valid()
      modifies fs
      ensures Valid() && fs.dirs == old(fs.dirs)
      ensures fs.files == RestoreFiles(old(fs.files), backupDir)
    {
      CopyBoth(fs.files, backupDir, AtlasDir);
      var backupMemory := InDir(backupDir, MemoryName);
      ghost var memoryDone := CopyIfExists(fs.files, backupMemory, InDir(AtlasDir, MemoryName));
      if backupMemory in fs.files {
        fs.files := fs.files[InDir(AtlasDir, MemoryName) := fs.files[backupMemory]];
      }
      assert fs.files == memoryDone;
      var backupSpecific := InDir(backupDir, SpecificName);
      ghost var specificDone := CopyIfExists(fs.files, backupSpecific, InDir(AtlasDir, SpecificName));
      if backupSpecific in fs.files {
        fs.files := fs.files[InDir(AtlasDir, SpecificName) := fs.files[backupSpecific]];
      }
      assert fs.files == specificDone;
      assert fs.files == RestoreFiles(old(fs.files), backupDir);
    }

    /**
     * `run_update`: without `.atlas`, or when the git check says no, nothing
     * is touched; otherwise the backup is made, and when the pull fails the
     * run stops there, with whatever the pull wrote, `CLAUDE.md` not
     * rewritten and nothing restored.
     */
    method RunUpdate(status: Option<string>, answer: string, git: PullOracle) returns (ok: bool)
      requires Valid() && PullValid(git)
      modifies fs
      ensures Valid()
      ensures !Installed(old(fs.dirs)) || !CheckGitStatus(status, answer)
              ==> !ok && fs.files == old(fs.files) && fs.dirs == old(fs.dirs)
      ensures Installed(old(fs.dirs)) && CheckGitStatus(status, answer)
              ==> fs.dirs == BackupDirs(old(fs.files), old(fs.dirs), backupDir)
      ensures Installed(old(fs.dirs)) && CheckGitStatus(status, answer) && PullOutcome(git) == PullFailed
              ==> !ok && fs.files == AfterPull(BackupFiles(old(fs.files), old(fs.dirs), backupDir), git)
      ensures Installed(old(fs.dirs)) && CheckGitStatus(status, answer) && PullOutcome(git) != PullFailed
              ==> ok && fs.files == UpdatedFiles(old(fs.files), old(fs.dirs), backupDir, git)
    {
      if AtlasDir !in fs.dirs {
        return false;
      }
      if !CheckGitStatus(status, answer) {
        return false;
      }
      BackupCustomizations();
      var pulled := PullLatest(git);
      if !pulled {
        return false;
      }
      UpdateProjectClaudeMd();
      RestoreCustomizations();
      ok := true;
    }
  }
}
