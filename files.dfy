/**
 * The part of the file system the scripts touch, as a map from paths
 * (relative to the project root, `/`-separated) to contents, plus the set of
 * existing directories. A session file holds the record itself: JSON
 * serialisation is not modelled, and a record written reads back unchanged.
 * A `.json` file whose contents do not parse as a record is a text file.
 */
module Files {
  import opened Text
  import opened Records

  datatype Blob = TextFile(text: string) | RecordFile(record: SessionRecord)

  /** Records are only ever stored under `.json` names, so every other file is text. */
  predicate FilesValid(files: map<string, Blob>) {
    forall p :: p in files && files[p].RecordFile? ==> EndsWith(p, ".json")
  }

  class FileStore {
    var files: map<string, Blob>
    var dirs: set<string>

    ghost predicate Valid()
      reads this
    {
      FilesValid(files)
    }

    constructor (files: map<string, Blob>, dirs: set<string>)
      requires FilesValid(files)
      ensures this.files == files && this.dirs == dirs && Valid()
    {
      this.files := files;
      this.dirs := dirs;
    }
  }

  // ---------------------------------------------------------------------------
  // Fixed paths
  // ---------------------------------------------------------------------------

  const AtlasDir := ".atlas"
  const SessionsDir := ".atlas/sessions"
  const SessionsPrefix := ".atlas/sessions/"
  const LatestPath := ".atlas/sessions/LATEST.json"
  const MemoryPath := ".atlas/SHORT_IMPORTANT_MEMORY.md"
  const WorkingLogDir := ".atlas/WORKING_LOG"

  /** `dir / name` */
  function InDir(dir: string, name: string): string {
    dir + "/" + name
  }

  /** `sessions/Session_<id>.json` */
  function SessionPath(id: string): string {
    SessionsPrefix + "Session_" + id + ".json"
  }

  /** `WORKING_LOG/<year>/<month>/<day>.md` */
  function LogPath(year: string, month: string, day: string): string {
    WorkingLogDir + "/" + year + "/" + month + "/" + day + ".md"
  }

  /** A path whose last character is not `n` is not a `.json` name. */
  lemma {:induction false} NotJson(p: string)
    requires p != [] && p[|p| - 1] != 'n'
    ensures !EndsWith(p, ".json")
  {
  }

  /** Working logs and the memory document are markdown files, never `.json` ones. */
  lemma {:induction false} MarkdownNotJson(year: string, month: string, day: string)
    ensures !EndsWith(LogPath(year, month, day), ".json") && !EndsWith(MemoryPath, ".json")
  {
    var p := LogPath(year, month, day);
    NotJson(p);
    NotJson(MemoryPath);
  }

  /** The text of a file that is not a `.json` file. */
  function ReadText(files: map<string, Blob>, p: string): (t: string)
    requires FilesValid(files) && p in files && !EndsWith(p, ".json")
    ensures files[p] == TextFile(t)
  {
    files[p].text
  }

  /** `shutil.copy2(src, dst)` when `src` exists; nothing otherwise. */
  function CopyIfExists(files: map<string, Blob>, src: string, dst: string): (r: map<string, Blob>)
    ensures r.Keys == files.Keys + (if src in files then {dst} else {})
    ensures src in files ==> r[dst] == files[src]
    ensures forall p :: p in files && p != dst ==> r[p] == files[p]
    ensures src !in files ==> r == files
  {
    if src in files then files[dst := files[src]] else files
  }

  /** Copying a text file, or a record to a `.json` name, keeps every record under a `.json` name. */
  lemma {:induction false} CopyKeepsValid(files: map<string, Blob>, src: string, dst: string)
    requires FilesValid(files)
    requires EndsWith(src, ".json") ==> EndsWith(dst, ".json")
    ensures FilesValid(CopyIfExists(files, src, dst))
  {
  }
}
