/**
 * The session record that `save_session.py` writes and `resume_session.py`
 * reads, and the git snapshot it carries.
 */
module Records {
  import opened Wrappers
  import opened Text
  import opened Clock

  // ---------------------------------------------------------------------------
  // Git snapshot
  // ---------------------------------------------------------------------------

  /**
   * What the git commands print: `rev-parse --abbrev-ref HEAD`, `diff
   * --name-only`, `diff --cached --name-only`, `log --oneline -5` and
   * `status --short`. The commands themselves are not modelled; a run in
   * which one of them fails is `None`.
   */
  datatype GitOutputs = GitOutputs(head: string, diff: string, diffCached: string, log: string, status: string)

  /** The `git_info` object of a record. */
  datatype GitInfo = GitInfo(
    branch: string,
    modifiedFiles: seq<string>,
    stagedFiles: seq<string>,
    recentCommits: seq<string>,
    statusSummary: string)

  /** `a` is `b` with some elements left out, the rest kept in order. */
  predicate IsSubsequence(a: seq<string>, b: seq<string>)
    decreases |b|
  {
    if a == [] then true
    else if b == [] then false
    else (a[0] == b[0] && IsSubsequence(a[1..], b[1..])) || IsSubsequence(a, b[1..])
  }

  /** `[f for f in xs if f]`: the non-empty entries, in their original order. */
  function NonEmpty(xs: seq<string>): (r: seq<string>)
    ensures forall i :: 0 <= i < |r| ==> r[i] != ""
    ensures forall x :: x in r <==> x in xs && x != ""
    ensures IsSubsequence(r, xs)
    ensures (forall i :: 0 <= i < |xs| ==> xs[i] != "") ==> r == xs
    decreases |xs|
  {
    if xs == [] then []
    else
      var rest := NonEmpty(xs[1..]);
      assert forall x :: x in xs <==> x == xs[0] || x in xs[1..];
      if xs[0] == "" then
        assert rest == [] || IsSubsequence(rest, xs);
        rest
      else
        var r := [xs[0]] + rest;
        assert r[1..] == rest;
        r
  }

  /** The filter drops every empty entry and keeps every other entry as often as it occurs. */
  lemma {:induction false} NonEmptyCounts(xs: seq<string>)
    ensures multiset(NonEmpty(xs)) == multiset(xs)["" := 0]
    decreases |xs|
  {
    if xs != [] {
      NonEmptyCounts(xs[1..]);
      assert xs == [xs[0]] + xs[1..];
      if xs[0] != "" {
        assert NonEmpty(xs) == [xs[0]] + NonEmpty(xs[1..]);
      }
    }
  }

  /** `out.strip().split('\n')` */
  function GitLines(out: string): seq<string> {
    Split(Strip(out), "\n")
  }

  /** No line of a split on newlines holds a newline. */
  lemma {:induction false} CommitsOneLine(out: string)
    ensures forall c :: c in GitLines(out) ==> '\n' !in c
  {
    var lines := GitLines(out);
    SplitPiecesClean(Strip(out), "\n");
    forall c | c in lines
      ensures '\n' !in c
    {
      ContainsChar(c, '\n');
    }
  }

  /**
   * `get_git_info`: no snapshot when a git call failed; otherwise the
   * modified and staged lists hold exactly the non-empty output lines, in
   * git's order, and the commit list holds every line of the log output.
   */
  function GetGitInfo(outputs: Option<GitOutputs>): (r: Option<GitInfo>)
    ensures r.None? <==> outputs.None?
    ensures r.Some? ==> forall f :: f in r.value.modifiedFiles <==> f in GitLines(outputs.value.diff) && f != ""
    ensures r.Some? ==> IsSubsequence(r.value.modifiedFiles, GitLines(outputs.value.diff))
    ensures r.Some? ==> forall f :: f in r.value.stagedFiles <==> f in GitLines(outputs.value.diffCached) && f != ""
    ensures r.Some? ==> IsSubsequence(r.value.stagedFiles, GitLines(outputs.value.diffCached))
    ensures r.Some? ==> "" !in r.value.modifiedFiles && "" !in r.value.stagedFiles
    ensures r.Some? ==> multiset(r.value.modifiedFiles) == multiset(GitLines(outputs.value.diff))["" := 0]
    ensures r.Some? ==> multiset(r.value.stagedFiles) == multiset(GitLines(outputs.value.diffCached))["" := 0]
    ensures r.Some? ==> Join(r.value.recentCommits, "\n") == Strip(outputs.value.log)
    ensures r.Some? ==> forall c :: c in r.value.recentCommits ==> '\n' !in c
    ensures r.Some? ==> r.value.branch == Strip(outputs.value.head)
    ensures r.Some? ==> r.value.statusSummary == Strip(outputs.value.status)
  {
    match outputs
    case None => None
    case Some(g) =>
      SplitJoin(Strip(g.log), "\n");
      CommitsOneLine(g.log);
      NonEmptyCounts(GitLines(g.diff));
      NonEmptyCounts(GitLines(g.diffCached));
      Some(GitInfo(
        Strip(g.head),
        NonEmpty(GitLines(g.diff)),
        NonEmpty(GitLines(g.diffCached)),
        GitLines(g.log),
        Strip(g.status)))
  }

  // ---------------------------------------------------------------------------
  // Extended context
  // ---------------------------------------------------------------------------

  /**
   * A value of the `--extended` JSON object: a list of strings, or any other
   * value held as the text Python's `str()` gives it.
   */
  datatype ExtValue = Scalar(text: string) | Items(items: seq<string>)

  /** One key of the extended-context object, in the object's key order. */
  datatype Entry = Entry(key: string, value: ExtValue)

  /** The key whose presence makes a save append to the short-memory document. */
  const ImportantNotes := "important_notes"

  /** `ext[key]`, or `None` when the key is absent. */
  function Lookup(ext: seq<Entry>, key: string): (r: Option<ExtValue>)
    ensures r.None? <==> forall i :: 0 <= i < |ext| ==> ext[i].key != key
    ensures r.Some? ==> exists i :: 0 <= i < |ext| && ext[i] == Entry(key, r.value)
    decreases |ext|
  {
    if ext == [] then None
    else if ext[0].key == key then Some(ext[0].value)
    else
      var r := Lookup(ext[1..], key);
      assert forall i :: 1 <= i < |ext| ==> ext[i] == ext[1..][i - 1];
      r
  }

  /** Python's `str(value)` for a list of strings: each item's `repr`, comma-separated, in brackets. */
  function ListRepr(items: seq<string>): string {
    "[" + Join(seq(|items|, i requires 0 <= i < |items| => StrRepr(items[i])), ", ") + "]"
  }

  /** `repr(s)`: the quote `ReprQuote(s)` on both sides of the escaped text. */
  function StrRepr(s: string): (r: string)
    ensures |r| >= 2 && r[0] == ReprQuote(s) && r[|r| - 1] == ReprQuote(s)
    ensures Unescape(r[1..|r| - 1]) == Some(s)
  {
    var q := ReprQuote(s);
    var r := [q] + Escaped(s, q) + [q];
    assert r[1..|r| - 1] == Escaped(s, q);
    EscapedRoundTrip(s, q);
    r
  }

  /** `repr` uses double quotes only for text holding a single quote and no double quote. */
  function ReprQuote(s: string): (q: char)
    ensures q == '"' <==> '\'' in s && '"' !in s
    ensures q == '"' || q == '\''
  {
    if '\'' in s && '"' !in s then '"' else '\''
  }

  /** Lower-case hexadecimal digit. */
  function HexDigit(n: int): (c: char)
    requires 0 <= n < 16
    ensures IsHexDigit(c) && HexValue(c) == n
  {
    if n < 10 then ('0' as int + n) as char else ('a' as int + n - 10) as char
  }

  predicate IsHexDigit(c: char) {
    '0' <= c <= '9' || 'a' <= c <= 'f'
  }

  function HexValue(c: char): (n: int)
    requires IsHexDigit(c)
    ensures 0 <= n < 16
  {
    if c <= '9' then c as int - '0' as int else c as int - 'a' as int + 10
  }

  /**
   * How `repr` writes one character between quotes `q`: the quote and the
   * backslash behind a backslash, tab, newline and carriage return as `\t`,
   * `\n` and `\r`, other control characters and DEL as `\xhh`, anything
   * else as itself.
   */
  function CharRepr(c: char, q: char): (r: string)
    ensures |r| >= 1 && (r[0] == '\\' <==> |r| > 1)
    ensures |r| == 1 <==> r == [c]
  {
    if c == q || c == '\\' then ['\\', c]
    else if c == '\t' then "\\t"
    else if c == '\n' then "\\n"
    else if c == '\r' then "\\r"
    else if c as int < 32 || c as int == 127 then ['\\', 'x', HexDigit(c as int / 16), HexDigit(c as int % 16)]
    else [c]
  }

  /** The text between the quotes of `repr`. */
  function Escaped(s: string, q: char): string
    decreases |s|
  {
    if s == [] then [] else CharRepr(s[0], q) + Escaped(s[1..], q)
  }

  /** Prefix a decoded character to the decoding of the rest. */
  function Prepend(c: char, rest: Option<string>): Option<string> {
    if rest.Some? then Some([c] + rest.value) else None
  }

  /**
   * Reading the text between the quotes of a Python string literal back, for
   * the escapes `repr` writes; `None` for any other use of a backslash.
   */
  function Unescape(t: string): Option<string>
    decreases |t|
  {
    if t == [] then Some([])
    else if t[0] != '\\' then Prepend(t[0], Unescape(t[1..]))
    else if |t| >= 2 && (t[1] == '\\' || t[1] == '\'' || t[1] == '"') then Prepend(t[1], Unescape(t[2..]))
    else if |t| >= 2 && t[1] == 't' then Prepend('\t', Unescape(t[2..]))
    else if |t| >= 2 && t[1] == 'n' then Prepend('\n', Unescape(t[2..]))
    else if |t| >= 2 && t[1] == 'r' then Prepend('\r', Unescape(t[2..]))
    else if |t| >= 4 && t[1] == 'x' && IsHexDigit(t[2]) && IsHexDigit(t[3])
    then Prepend((HexValue(t[2]) * 16 + HexValue(t[3])) as char, Unescape(t[4..]))
    else None
  }

  /** One escaped character followed by more text reads back as that character and the rest. */
  lemma {:induction false} CharReprRoundTrip(c: char, q: char, rest: string)
    requires q == '"' || q == '\''
    ensures Unescape(CharRepr(c, q) + rest) == Prepend(c, Unescape(rest))
  {
    var e := CharRepr(c, q);
    var t := e + rest;
    assert t[|e|..] == rest;
    if |e| == 4 {
      var n := c as int;
      assert (n / 16) * 16 + n % 16 == n;
    }
  }

  /** What `repr` writes between the quotes reads back as the original text. */
  lemma {:induction false} EscapedRoundTrip(s: string, q: char)
    requires q == '"' || q == '\''
    ensures Unescape(Escaped(s, q)) == Some(s)
    decreases |s|
  {
    if s != [] {
      EscapedRoundTrip(s[1..], q);
      CharReprRoundTrip(s[0], q, Escaped(s[1..], q));
      assert [s[0]] + s[1..] == s;
    }
  }

  /** The text `repr` writes never holds a line break, so a rendered list stays on one line. */
  lemma {:induction false} EscapedOneLine(s: string, q: char)
    requires q == '"' || q == '\''
    ensures '\n' !in Escaped(s, q) && '\r' !in Escaped(s, q)
    decreases |s|
  {
    if s != [] {
      EscapedOneLine(s[1..], q);
      var e := CharRepr(s[0], q);
      if |e| == 4 {
        assert IsHexDigit(e[2]) && IsHexDigit(e[3]);
      }
      assert forall k :: 0 <= k < |e| ==> e[k] != '\n' && e[k] != '\r';
    }
  }

  /** A list value renders on a single line, whatever its items hold. */
  lemma {:induction false} ListReprOneLine(items: seq<string>)
    ensures '\n' !in ListRepr(items)
  {
    var parts := seq(|items|, i requires 0 <= i < |items| => StrRepr(items[i]));
    forall k | 0 <= k < |parts|
      ensures '\n' !in parts[k]
    {
      var q := ReprQuote(items[k]);
      EscapedOneLine(items[k], q);
      assert parts[k] == [q] + Escaped(items[k], q) + [q];
    }
    JoinNoChar(parts, ", ", '\n');
  }

  /** Text with no quote, backslash or control character is written between single quotes as it is. */
  lemma {:induction false} PlainRepr(s: string)
    requires forall k :: 0 <= k < |s| ==> s[k] != '\'' && s[k] != '\\' && 32 <= s[k] as int != 127
    ensures StrRepr(s) == "'" + s + "'"
  {
    PlainEscaped(s);
  }

  lemma {:induction false} PlainEscaped(s: string)
    requires forall k :: 0 <= k < |s| ==> s[k] != '\'' && s[k] != '\\' && 32 <= s[k] as int != 127
    ensures Escaped(s, '\'') == s
    decreases |s|
  {
    if s != [] {
      PlainEscaped(s[1..]);
      assert [s[0]] + s[1..] == s;
    }
  }

  /** `f"{value}"` */
  function ValueText(v: ExtValue): string {
    match v
    case Scalar(t) => t
    case Items(xs) => ListRepr(xs)
  }

  // ---------------------------------------------------------------------------
  // The record
  // ---------------------------------------------------------------------------

  /** `session_metadata`: the working-log date bucket and the saving user. */
  datatype Bucket = Bucket(year: string, month: string, day: string, user: string)

  /**
   * One saved session. The pass-through fields of the JSON object
   * (`atlas_identity`, `python_version`, `professional_mode`,
   * `mcp_available`) are not part of the model.
   */
  datatype SessionRecord = SessionRecord(
    sessionId: string,
    timestamp: Instant,
    context: string,
    nextTask: string,
    extended: Option<seq<Entry>>,
    workingDirectory: string,
    gitInfo: Option<GitInfo>,
    shortMemory: Option<string>,
    metadata: Bucket)
}
