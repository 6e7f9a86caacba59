/**
 * `setup_new_project.py`: installs the atlas into a project. It writes a
 * project `CLAUDE.md` built from the atlas one (header replaced, references
 * pointed into `.atlas/`), creates the working directories, copies the
 * memory template and adds the atlas block to `.gitignore` once.
 *
 * Paths are relative to the project root. The atlas checkout the script runs
 * from is `atlasRoot`, a path relative to the project root; the empty path
 * means the script was started from inside the checkout itself.
 */
module SetupProject {
  import opened Wrappers
  import opened Text
  import opened Files

  // ---------------------------------------------------------------------------
  // Reference rewriting (shared with the updater)
  // ---------------------------------------------------------------------------

  /** A text to look for: never empty, and never spanning a line break. */
  type Pattern = s: string | |s| > 0 && SingleLine(s) witness "-"

  /** `content.replace(pattern, replacement)` */
  datatype Rule = Rule(pattern: Pattern, replacement: string)

  /** The `@` references to the instruction and identity documents. */
  const IdentityReferences: seq<Rule> := [
    Rule("@PROFESSIONAL_INSTRUCTION.md", "@.atlas/PROFESSIONAL_INSTRUCTION.md"),
    Rule("- @IDENTITY.md", "- @.atlas/IDENTITY.md"),
    Rule("- @PERSONAL_SELF.md", "- @.atlas/PERSONAL_SELF.md")
  ]

  /** The `@` references to the development and security guidelines. */
  const GuideReferences: seq<Rule> := [
    Rule("- @DEVELOPMENT_BELIEFS.md", "- @.atlas/DEVELOPMENT_BELIEFS.md"),
    Rule("- @DEVELOPMENT_CONVENTION.md", "- @.atlas/DEVELOPMENT_CONVENTION.md"),
    Rule("- @SECURITY_GUIDELINES.md", "- @.atlas/SECURITY_GUIDELINES.md")
  ]

  /** The `@` references to the memory and tool documents. */
  const MemoryReferences: seq<Rule> := [
    Rule("- @SHORT_IMPORTANT_MEMORY.md", "- @.atlas/SHORT_IMPORTANT_MEMORY.md"),
    Rule("- @MCP_INTEGRATION.md", "- @.atlas/MCP_INTEGRATION.md"),
    Rule("- @CONTEXT7_USAGE.md", "- @.atlas/CONTEXT7_USAGE.md")
  ]

  /** The directory references and the script command. */
  const PathReferences: seq<Rule> := [
    Rule("- **WORKING_LOG/**", "- **.atlas/WORKING_LOG/**"),
    Rule("- **MEMORY/**", "- **.atlas/MEMORY/**"),
    Rule("- **sessions/**", "- **.atlas/sessions/**"),
    Rule("python scripts/", "python .atlas/scripts/")
  ]

  /** All thirteen rewrites, in the order they are applied. */
  const References := IdentityReferences + GuideReferences + MemoryReferences + PathReferences

  /** The rules applied one after the other, each to the result of the one before. */
  function ApplyRules(s: string, rules: seq<Rule>): string
    decreases |rules|
  {
    if rules == [] then s else ApplyRules(Replace(s, rules[0].pattern, rules[0].replacement), rules[1..])
  }

  /** Text holding none of the patterns passes through the rewrite unchanged. */
  lemma {:induction false} RulesNoOp(s: string, rules: seq<Rule>)
    requires forall k :: 0 <= k < |rules| ==> !Contains(s, rules[k].pattern)
    ensures ApplyRules(s, rules) == s
    decreases |rules|
  {
    if rules != [] {
      ReplaceAbsent(s, rules[0].pattern, rules[0].replacement);
      RulesNoOp(s, rules[1..]);
    }
  }

  /**
   * A head that ends in a line break and holds none of the patterns comes
   * through the rewrite untouched, in front of the rewritten rest.
   */
  lemma {:induction false} RulesKeepHead(h: string, c: string, rules: seq<Rule>)
    requires h != [] ==> h[|h| - 1] == '\n'
    requires forall k :: 0 <= k < |rules| ==> !Contains(h, rules[k].pattern)
    ensures ApplyRules(h + c, rules) == h + ApplyRules(c, rules)
    decreases |rules|
  {
    if rules != [] {
      ReplaceKeepsPrefix(h, c, rules[0].pattern, rules[0].replacement);
      RulesKeepHead(h, Replace(c, rules[0].pattern, rules[0].replacement), rules[1..]);
    }
  }

  /**
   * Any header ending in a line break and naming none of the bare references
   * stays at the front of the rewritten file.
   */
  lemma {:induction false} HeaderSurvivesRewrite(h: string, c: string)
    requires h != [] && h[|h| - 1] == '\n'
    requires forall k :: 0 <= k < |References| ==> !Contains(h, References[k].pattern)
    ensures ApplyRules(h + c, References) == h + ApplyRules(c, References)
    ensures StartsWith(ApplyRules(h + c, References), h)
  {
    RulesKeepHead(h, c, References);
    var r := ApplyRules(c, References);
    assert (h + r)[..|h|] == h;
  }

  /** A run of `content = content.replace(...)` statements, in order. */
  method RewriteAll(content: string, rules: seq<Rule>) returns (r: string)
    ensures r == ApplyRules(content, rules)
  {
    r := content;
    for i := 0 to |rules|
      invariant ApplyRules(r, rules[i..]) == ApplyRules(content, rules)
    {
      assert rules[i..][1..] == rules[i + 1..];
      r := Replace(r, rules[i].pattern, rules[i].replacement);
    }
    assert rules[|rules|..] == [];
  }

  // ---------------------------------------------------------------------------
  // Header replacement
  // ---------------------------------------------------------------------------

  const ClaudeTitle := "# CLAUDE.md"

  /** The header put in front of the project's `CLAUDE.md`. */
  const ProjectHeader := "# CLAUDE.md\n\nThis file provides guidance to Claude Code (claude.ai/code) when working with code in this repository.\n\nThis is a project-specific configuration that integrates the ATLAS consciousness framework.\nAll ATLAS files are contained in the `.atlas/` directory to keep your project root clean.\n\n---\n\n"

  predicate IsRule(line: string) {
    Strip(line) == "---"
  }

  /** The index of the first line that is `---` once stripped, or -1. */
  function FirstRule(lines: seq<string>): (k: int)
    ensures -1 <= k < |lines|
    ensures k >= 0 ==> IsRule(lines[k])
    ensures forall j :: 0 <= j < |lines| && (k < 0 || j < k) ==> !IsRule(lines[j])
    decreases |lines|
  {
    if lines == [] then -1
    else if IsRule(lines[0]) then 0
    else
      var k := FirstRule(lines[1..]);
      assert forall j :: 1 <= j < |lines| ==> lines[j] == lines[1..][j - 1];
      if k < 0 then -1 else k + 1
  }

  /** The first `---` line is the one a front-to-back search stops at. */
  lemma {:induction false} FirstRuleAt(lines: seq<string>, i: int)
    requires -1 <= i < |lines|
    requires forall j :: 0 <= j < |lines| && (i < 0 || j < i) ==> !IsRule(lines[j])
    requires i >= 0 ==> IsRule(lines[i])
    ensures FirstRule(lines) == i
  {
    var k := FirstRule(lines);
    if k >= 0 && i >= 0 {
      assert !(k < i) && !(i < k);
    }
  }

  /** The content without its original header: the lines after the first `---` line, when it starts with the title. */
  function WithoutHeader(content: string): string {
    if !StartsWith(content, ClaudeTitle) then content
    else
      var lines := Split(content, "\n");
      Join(lines[FirstRule(lines) + 1..], "\n")
  }

  /** Content without the title, or without a `---` line, is kept whole. */
  lemma {:induction false} HeaderKeptWithoutRule(content: string)
    requires !StartsWith(content, ClaudeTitle) || FirstRule(Split(content, "\n")) < 0
    ensures WithoutHeader(content) == content
  {
    var lines := Split(content, "\n");
    if StartsWith(content, ClaudeTitle) {
      SplitJoin(content, "\n");
      assert lines[0..] == lines;
    }
  }

  /**
   * With the title and a `---` line, exactly the lines up to and including the
   * first `---` line are dropped: they and a line break, then the result, make
   * up the content.
   */
  lemma {:induction false} HeaderDroppedThroughRule(content: string)
    requires StartsWith(content, ClaudeTitle) && FirstRule(Split(content, "\n")) >= 0
    ensures var lines := Split(content, "\n");
            var k := FirstRule(lines);
            && (k + 1 < |lines| ==> content == Join(lines[..k + 1], "\n") + "\n" + WithoutHeader(content))
            && (k + 1 == |lines| ==> WithoutHeader(content) == "")
  {
    var lines := Split(content, "\n");
    var k := FirstRule(lines);
    SplitJoin(content, "\n");
    if k + 1 < |lines| {
      JoinSplitAt(lines, k + 1, "\n");
    }
  }

  /** `content.startswith("# CLAUDE.md")`, then the search for the first `---` line. */
  method StripHeader(content: string) returns (r: string)
    ensures r == WithoutHeader(content)
  {
    r := content;
    if StartsWith(content, ClaudeTitle) {
      var lines := Split(content, "\n");
      var start := ContentStart(lines);
      r := Join(lines[start..], "\n");
    }
  }

  /** The for/break loop: the index after the first `---` line, or 0 when there is none. */
  method ContentStart(lines: seq<string>) returns (start: int)
    ensures start == FirstRule(lines) + 1
  {
    start := 0;
    var i := 0;
    while i < |lines|
      invariant 0 <= i <= |lines| && start == 0
      invariant forall j :: 0 <= j < i ==> !IsRule(lines[j])
      decreases |lines| - i
    {
      if IsRule(lines[i]) {
        start := i + 1;
        break;
      }
      i := i + 1;
    }
    FirstRuleAt(lines, start - 1);
  }

  /** The project `CLAUDE.md` made from the atlas one. */
  function ProjectClaudeMd(atlasText: string): string {
    ApplyRules(ProjectHeader + WithoutHeader(atlasText), References)
  }

  /** Read, strip the header, prepend the project header, rewrite. */
  method MakeProjectClaudeMd(atlasText: string) returns (content: string)
    ensures content == ProjectClaudeMd(atlasText)
  {
    content := StripHeader(atlasText);
    content := ProjectHeader + content;
    content := RewriteAll(content, References);
  }

  // ---------------------------------------------------------------------------
  // .gitignore
  // ---------------------------------------------------------------------------

  /** The line whose presence means the block is already there. */
  const IgnoreMarker := ".atlas/sessions/"

  const IgnoreBlock := "\n# ATLAS Sessions and Memory\n" + IgnoreMarker
    + "\n.atlas/WORKING_LOG/*/*/*.md\n.atlas/SHORT_IMPORTANT_MEMORY.md\n.atlas/MEMORY/PERSONAL_DIARY/*/*/*.md\n.atlas/MEMORY/KNOWLEDGE_LOG/*.md\n"

  /** The new `.gitignore`: created holding the block, or appended to unless the marker is there. */
  function UpdatedGitignore(existing: Option<string>): string {
    match existing
    case None => IgnoreBlock
    case Some(t) => if Contains(t, IgnoreMarker) then t else t + IgnoreBlock
  }

  lemma {:induction false} BlockHasMarker()
    ensures Contains(IgnoreBlock, IgnoreMarker)
  {
    var front := "\n# ATLAS Sessions and Memory\n";
    var back := IgnoreBlock[|front| + |IgnoreMarker|..];
    assert IgnoreBlock == front + (IgnoreMarker + back);
    ContainsSelf(IgnoreMarker);
    ContainsPrepend(IgnoreMarker, back, IgnoreMarker);
    ContainsAppend(front, IgnoreMarker + back, IgnoreMarker);
  }

  /**
   * The update keeps what was there in front, always leaves the marker in the
   * file, and a second update changes nothing.
   */
  lemma {:induction false} GitignoreOnce(existing: Option<string>)
    ensures existing.Some? ==> existing.value <= UpdatedGitignore(existing)
    ensures Contains(UpdatedGitignore(existing), IgnoreMarker)
    ensures UpdatedGitignore(Some(UpdatedGitignore(existing))) == UpdatedGitignore(existing)
  {
    BlockHasMarker();
    if existing.Some? && !Contains(existing.value, IgnoreMarker) {
      ContainsAppend(existing.value, IgnoreBlock, IgnoreMarker);
    }
  }

  // ---------------------------------------------------------------------------
  // The setup run
  // ---------------------------------------------------------------------------

  datatype SetupResult = InsideAtlas | NoAtlas | Completed

  const GitignorePath := ".gitignore"
  const ProjectClaudePath := "CLAUDE.md"

  /** The working directories created under `.atlas`, in order. */
  const WorkDirs := [".atlas/sessions", ".atlas/WORKING_LOG", ".atlas/MEMORY"]

  function TemplatePath(atlasRoot: string): string {
    InDir(atlasRoot, "SHORT_IMPORTANT_MEMORY_TEMPLATE.md")
  }

  /** `.atlas` exists: the script's only precondition once started outside the checkout. */
  predicate Installed(dirs: set<string>) {
    AtlasDir in dirs
  }

  lemma {:induction false} MarkdownName(p: string, name: string)
    requires EndsWith(name, ".md")
    ensures !EndsWith(p + "/" + name, ".json")
  {
    var s := p + "/" + name;
    assert s[|s| - 1] == name[|name| - 1] == 'd';
  }

  /** The files after the `CLAUDE.md` step: written when the atlas one exists. */
  function WithClaudeMd(files: map<string, Blob>, atlasRoot: string): (r: map<string, Blob>)
    requires FilesValid(files)
    ensures FilesValid(r)
  {
    var src := InDir(atlasRoot, "CLAUDE.md");
    MarkdownName(atlasRoot, "CLAUDE.md");
    if src in files then files[ProjectClaudePath := TextFile(ProjectClaudeMd(files[src].text))] else files
  }

  /** The files after the template step: the template copied over the memory document when it exists. */
  function WithMemory(files: map<string, Blob>, atlasRoot: string): (r: map<string, Blob>)
    requires FilesValid(files)
    ensures FilesValid(r)
  {
    MarkdownName(atlasRoot, "SHORT_IMPORTANT_MEMORY_TEMPLATE.md");
    CopyKeepsValid(files, TemplatePath(atlasRoot), MemoryPath);
    CopyIfExists(files, TemplatePath(atlasRoot), MemoryPath)
  }

  /** The files after the `.gitignore` step. */
  function WithGitignore(files: map<string, Blob>): (r: map<string, Blob>)
    requires FilesValid(files)
    ensures FilesValid(r)
  {
    NotJson(GitignorePath);
    var existing := if GitignorePath in files then Some(ReadText(files, GitignorePath)) else None;
    files[GitignorePath := TextFile(UpdatedGitignore(existing))]
  }

  /** The files after the whole run (when it runs). */
  function SetupFiles(files: map<string, Blob>, atlasRoot: string): (r: map<string, Blob>)
    requires FilesValid(files)
    ensures FilesValid(r)
  {
    WithGitignore(WithMemory(WithClaudeMd(files, atlasRoot), atlasRoot))
  }

  /** The paths one run reads are none of the paths it writes. */
  lemma {:induction false} SetupPathsApart(atlasRoot: string)
    ensures InDir(atlasRoot, "CLAUDE.md") !in {ProjectClaudePath, MemoryPath, GitignorePath}
    ensures TemplatePath(atlasRoot) !in {ProjectClaudePath, MemoryPath, GitignorePath}
  {
    var src := InDir(atlasRoot, "CLAUDE.md");
    var tpl := TemplatePath(atlasRoot);
    assert src[|src| - 9] == 'C' && MemoryPath[|MemoryPath| - 9] == 'M';
    assert |src| > |ProjectClaudePath| && src[|src| - 1] != GitignorePath[|GitignorePath| - 1];
    assert tpl[|tpl| - 4] == 'E' && MemoryPath[|MemoryPath| - 4] == 'Y';
    assert |tpl| > |ProjectClaudePath| && tpl[|tpl| - 1] != GitignorePath[|GitignorePath| - 1];
  }

  /**
   * A run leaves every path other than the three it writes as it was, so in
   * particular the atlas `CLAUDE.md` and the template it reads.
   */
  lemma {:induction false} SetupWritesThree(files: map<string, Blob>, atlasRoot: string, p: string)
    requires FilesValid(files)
    requires p !in {ProjectClaudePath, MemoryPath, GitignorePath}
    ensures p in SetupFiles(files, atlasRoot) <==> p in files
    ensures p in files ==> SetupFiles(files, atlasRoot)[p] == files[p]
  {
  }

  /** Once a run has written `CLAUDE.md`, its step writes the same text again. */
  lemma {:induction false} ClaudeMdAgain(files: map<string, Blob>, atlasRoot: string)
    requires FilesValid(files)
    ensures WithClaudeMd(SetupFiles(files, atlasRoot), atlasRoot) == SetupFiles(files, atlasRoot)
  {
    var once := SetupFiles(files, atlasRoot);
    var src := InDir(atlasRoot, "CLAUDE.md");
    SetupPathsApart(atlasRoot);
    SetupWritesThree(files, atlasRoot, src);
    if src in files {
      var f1 := WithClaudeMd(files, atlasRoot);
      assert once[ProjectClaudePath] == f1[ProjectClaudePath];
    }
  }

  /** Once a run has copied the template, its step copies the same file again. */
  lemma {:induction false} MemoryAgain(files: map<string, Blob>, atlasRoot: string)
    requires FilesValid(files)
    ensures WithMemory(SetupFiles(files, atlasRoot), atlasRoot) == SetupFiles(files, atlasRoot)
  {
    var once := SetupFiles(files, atlasRoot);
    var tpl := TemplatePath(atlasRoot);
    SetupPathsApart(atlasRoot);
    SetupWritesThree(files, atlasRoot, tpl);
    if tpl in files {
      var f2 := WithMemory(WithClaudeMd(files, atlasRoot), atlasRoot);
      assert f2[MemoryPath] == files[tpl];
      assert once[MemoryPath] == f2[MemoryPath];
    }
  }

  /** Once a run has updated `.gitignore`, its step leaves it as it is. */
  lemma {:induction false} GitignoreAgain(files: map<string, Blob>, atlasRoot: string)
    requires FilesValid(files)
    ensures WithGitignore(SetupFiles(files, atlasRoot)) == SetupFiles(files, atlasRoot)
  {
    var f2 := WithMemory(WithClaudeMd(files, atlasRoot), atlasRoot);
    GitignoreOnce(if GitignorePath in f2 then Some(f2[GitignorePath].text) else None);
  }

  /**
   * Running the setup a second time changes nothing: the same `CLAUDE.md` and
   * memory copy are written again, and the `.gitignore` already has the block.
   */
  lemma {:induction false} SetupIdempotent(files: map<string, Blob>, atlasRoot: string)
    requires FilesValid(files)
    ensures SetupFiles(SetupFiles(files, atlasRoot), atlasRoot) == SetupFiles(files, atlasRoot)
  {
    ClaudeMdAgain(files, atlasRoot);
    MemoryAgain(files, atlasRoot);
    GitignoreAgain(files, atlasRoot);
  }

  /** The `CLAUDE.md` step: read the atlas file, rewrite it, write the project one. */
  method WriteProjectClaudeMd(fs: FileStore, atlasRoot: string)
    requires fs.Valid()
    modifies fs
    ensures fs.Valid() && fs.dirs == old(fs.dirs)
    ensures fs.files == WithClaudeMd(old(fs.files), atlasRoot)
  {
    var src := InDir(atlasRoot, "CLAUDE.md");
    MarkdownName(atlasRoot, "CLAUDE.md");
    if src in fs.files {
      var content := MakeProjectClaudeMd(fs.files[src].text);
      fs.files := fs.files[ProjectClaudePath := TextFile(content)];
    }
  }

  /** `mkdir(exist_ok=True)` for each working directory, in order. */
  method MakeWorkDirs(fs: FileStore)
    modifies fs
    ensures fs.files == old(fs.files)
    ensures fs.dirs == old(fs.dirs) + set d | d in WorkDirs
  {
    for i := 0 to |WorkDirs|
      invariant fs.files == old(fs.files)
      invariant fs.dirs == old(fs.dirs) + set d | d in WorkDirs[..i]
    {
      assert WorkDirs[..i + 1] == WorkDirs[..i] + [WorkDirs[i]];
      fs.dirs := fs.dirs + {WorkDirs[i]};
    }
    assert WorkDirs[..|WorkDirs|] == WorkDirs;
  }

  /** The template step: `shutil.copy2` when the template exists. */
  method CopyTemplate(fs: FileStore, atlasRoot: string)
    requires fs.Valid()
    modifies fs
    ensures fs.Valid() && fs.dirs == old(fs.dirs)
    ensures fs.files == WithMemory(old(fs.files), atlasRoot)
  {
    var template := TemplatePath(atlasRoot);
    if template in fs.files {
      fs.files := fs.files[MemoryPath := fs.files[template]];
    }
  }

  /** The `.gitignore` step: create it with the block, or append the block unless the marker is there. */
  method UpdateGitignore(fs: FileStore)
    requires fs.Valid()
    modifies fs
    ensures fs.Valid() && fs.dirs == old(fs.dirs)
    ensures fs.files == WithGitignore(old(fs.files))
  {
    if GitignorePath in fs.files {
      NotJson(GitignorePath);
      var existing := ReadText(fs.files, GitignorePath);
      if !Contains(existing, IgnoreMarker) {
        fs.files := fs.files[GitignorePath := TextFile(existing + IgnoreBlock)];
      }
    } else {
      fs.files := fs.files[GitignorePath := TextFile(IgnoreBlock)];
    }
  }

  /**
   * `setup_new_project`: refuses inside the checkout or without `.atlas`,
   * writing nothing; otherwise writes `CLAUDE.md`, creates the working
   * directories, copies the memory template and updates `.gitignore`.
   */
  method SetupNewProject(fs: FileStore, atlasRoot: string) returns (result: SetupResult)
    requires fs.Valid()
    modifies fs
    ensures fs.Valid()
    ensures atlasRoot == "" ==> result == InsideAtlas && fs.files == old(fs.files) && fs.dirs == old(fs.dirs)
    ensures atlasRoot != "" && !Installed(old(fs.dirs))
            ==> result == NoAtlas && fs.files == old(fs.files) && fs.dirs == old(fs.dirs)
    ensures atlasRoot != "" && Installed(old(fs.dirs))
            ==> result == Completed && fs.files == SetupFiles(old(fs.files), atlasRoot)
                && fs.dirs == old(fs.dirs) + set d | d in WorkDirs
  {
    if atlasRoot == "" {
      return InsideAtlas;
    }
    if AtlasDir !in fs.dirs {
      return NoAtlas;
    }
    WriteProjectClaudeMd(fs, atlasRoot);
    MakeWorkDirs(fs);
    CopyTemplate(fs, atlasRoot);
    UpdateGitignore(fs);
    result := Completed;
  }
}
