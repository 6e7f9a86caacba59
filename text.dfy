/**
 * The Python `str` operations the scripts rely on: `find`, `in`, `split`,
 * `join`, `replace`, `strip`/`rstrip`, `startswith`, `lower`, `title`,
 * zero-padded decimal fields and code-point ordering of strings.
 */
module Text {

  // ---------------------------------------------------------------------------
  // Whitespace and stripping
  // ---------------------------------------------------------------------------

  /** The characters Python's `str.isspace()` accepts, which `strip()` removes. */
  predicate IsSpace(c: char) {
    c == ' ' || ('\t' <= c <= '\r') || ('\U{1C}' <= c <= '\U{1F}')
    || c == '\U{85}' || c == '\U{A0}' || c == '\U{1680}'
    || ('\U{2000}' <= c <= '\U{200A}') || c == '\U{2028}' || c == '\U{2029}'
    || c == '\U{202F}' || c == '\U{205F}' || c == '\U{3000}'
  }

  /** Every character of `s` is whitespace. */
  predicate AllSpace(s: string) {
    forall i :: 0 <= i < |s| ==> IsSpace(s[i])
  }

  /** `s.rstrip()`: the longest prefix of `s` that does not end in whitespace. */
  function RStrip(s: string): (r: string)
    decreases |s|
  {
    if |s| == 0 || !IsSpace(s[|s| - 1]) then s
    else RStrip(s[..|s| - 1])
  }

  /** `s.lstrip()`: the longest suffix of `s` that does not start with whitespace. */
  function LStrip(s: string): (r: string)
    decreases |s|
  {
    if |s| == 0 || !IsSpace(s[0]) then s
    else LStrip(s[1..])
  }

  /** `rstrip` keeps a prefix of `s` not ending in whitespace and drops only whitespace. */
  lemma {:induction false} RStripSpec(s: string)
    ensures var r := RStrip(s);
            && r <= s
            && (r == [] || !IsSpace(r[|r| - 1]))
            && AllSpace(s[|r|..])
    decreases |s|
  {
    if |s| > 0 && IsSpace(s[|s| - 1]) {
      var r := RStrip(s[..|s| - 1]);
      RStripSpec(s[..|s| - 1]);
      assert s[|r|..] == s[..|s| - 1][|r|..] + [s[|s| - 1]];
    } else {
      assert s[|s|..] == [];
    }
  }

  /** `lstrip` keeps a suffix of `s` not starting with whitespace and drops only whitespace. */
  lemma {:induction false} LStripSpec(s: string)
    ensures var r := LStrip(s);
            && |r| <= |s| && r == s[|s| - |r|..]
            && (r == [] || !IsSpace(r[0]))
            && AllSpace(s[..|s| - |r|])
    decreases |s|
  {
    if |s| > 0 && IsSpace(s[0]) {
      var t := s[1..];
      var r := LStrip(t);
      assert LStrip(s) == r;
      LStripSpec(t);
      assert r == s[|s| - |r|..] by {
        assert t[|t| - |r|..] == s[|s| - |r|..];
      }
      var dropped := s[..|s| - |r|];
      assert AllSpace(dropped) by {
        forall i | 0 <= i < |dropped|
          ensures IsSpace(dropped[i])
        {
          if i > 0 {
            assert dropped[i] == t[..|t| - |r|][i - 1];
          }
        }
      }
    } else {
      assert s[..0] == [] && s[0..] == s;
    }
  }

  /** `s.strip()` */
  function Strip(s: string): string {
    LStrip(RStrip(s))
  }

  /** `s.strip()` is empty exactly when `s` is all whitespace (Python's falsy output). */
  lemma {:induction false} StripEmpty(s: string)
    ensures Strip(s) == [] <==> AllSpace(s)
  {
    var r := RStrip(s);
    RStripSpec(s);
    LStripSpec(r);
    if Strip(s) == [] {
      assert r[..|r|] == r;
      assert r == [];
      assert s[0..] == s;
    } else {
      var k := |r| - |Strip(s)|;
      assert r[k] == Strip(s)[0];
      assert s[k] == r[k];
    }
  }

  /** Stripping never changes a string that has no leading or trailing whitespace. */
  lemma {:induction false} RStripAppend(a: string, b: string)
    requires b != [] && !IsSpace(b[|b| - 1])
    ensures RStrip(a + b) == a + b
  {
  }

  /** Trailing whitespace is stripped from the end only: a prefix ending in non-space is kept. */
  lemma {:induction false} RStripKeepsPrefix(a: string, b: string)
    requires a != [] && !IsSpace(a[|a| - 1])
    ensures RStrip(a + b) == a + RStrip(b)
    decreases |b|
  {
    if |b| == 0 {
      assert a + b == a;
    } else if !IsSpace(b[|b| - 1]) {
      assert (a + b)[|a + b| - 1] == b[|b| - 1];
    } else {
      assert (a + b)[..|a + b| - 1] == a + b[..|b| - 1];
      RStripKeepsPrefix(a, b[..|b| - 1]);
    }
  }

  // ---------------------------------------------------------------------------
  // Searching
  // ---------------------------------------------------------------------------

  predicate StartsWith(s: string, p: string) {
    |p| <= |s| && s[..|p|] == p
  }

  predicate EndsWith(s: string, p: string) {
    |p| <= |s| && s[|s| - |p|..] == p
  }

  /** `p` occurs in `s` at index `i`. */
  predicate OccursAt(s: string, p: string, i: int) {
    0 <= i && i + |p| <= |s| && s[i..i + |p|] == p
  }

  lemma {:induction false} OccursShift(s: string, p: string, j: int)
    requires |s| > 0 && 0 <= j
    ensures OccursAt(s, p, j + 1) <==> OccursAt(s[1..], p, j)
  {
    if 0 <= j && j + 1 + |p| <= |s| {
      assert s[1..][j..j + |p|] == s[j + 1..j + 1 + |p|];
    }
  }

  /** `s.find(p)`: the leftmost index where `p` occurs, or -1 when it occurs nowhere. */
  function Find(s: string, p: string): (i: int)
    ensures -1 <= i <= |s| && (i >= 0 ==> i + |p| <= |s|)
    decreases |s|
  {
    if |s| < |p| then -1
    else if s[..|p|] == p then 0
    else
      var k := Find(s[1..], p);
      if k < 0 then -1 else k + 1
  }

  /** What `find` returns is a place where `p` occurs. */
  lemma {:induction false} FindOccurs(s: string, p: string)
    requires Find(s, p) >= 0
    ensures OccursAt(s, p, Find(s, p))
    decreases |s|
  {
    if |s| >= |p| && s[..|p|] != p {
      var k := Find(s[1..], p);
      FindOccurs(s[1..], p);
      OccursShift(s, p, k);
    } else {
      assert s[0..|p|] == s[..|p|];
    }
  }

  /** `find` returns the leftmost occurrence: none is found before any place `p` occurs. */
  lemma {:induction false} FindFirst(s: string, p: string, j: int)
    requires OccursAt(s, p, j)
    ensures 0 <= Find(s, p) <= j
    decreases |s|
  {
    if |s| >= |p| && s[..|p|] != p {
      assert !OccursAt(s, p, 0) by {
        assert s[0..|p|] == s[..|p|];
      }
      OccursShift(s, p, j - 1);
      FindFirst(s[1..], p, j - 1);
    }
  }

  /** Where `p` is absent, it occurs nowhere. */
  lemma {:induction false} AbsentNowhere(s: string, p: string, j: int)
    requires !Contains(s, p)
    ensures !OccursAt(s, p, j)
  {
    if OccursAt(s, p, j) {
      FindFirst(s, p, j);
    }
  }

  /** Python's `p in s`. */
  predicate Contains(s: string, p: string) {
    Find(s, p) >= 0
  }

  /** An occurrence inside `b` is an occurrence inside `a + b`. */
  lemma {:induction false} ContainsAppend(a: string, b: string, p: string)
    requires Contains(b, p)
    ensures Contains(a + b, p)
  {
    var j := Find(b, p);
    FindOccurs(b, p);
    assert (a + b)[|a| + j..|a| + j + |p|] == b[j..j + |p|];
    FindFirst(a + b, p, |a| + j);
  }

  /** An occurrence inside `a` is an occurrence inside `a + b`. */
  lemma {:induction false} ContainsPrepend(a: string, b: string, p: string)
    requires Contains(a, p)
    ensures Contains(a + b, p)
  {
    var j := Find(a, p);
    FindOccurs(a, p);
    assert (a + b)[j..j + |p|] == a[j..j + |p|];
    FindFirst(a + b, p, j);
  }

  /** A string contains itself. */
  lemma {:induction false} ContainsSelf(p: string)
    ensures Contains(p, p)
  {
    assert p[0..|p|] == p;
    FindFirst(p, p, 0);
  }

  // ---------------------------------------------------------------------------
  // split / join / replace
  // ---------------------------------------------------------------------------

  /** `sep.join(parts)` */
  function Join(parts: seq<string>, sep: string): string
    decreases |parts|
  {
    if |parts| == 0 then ""
    else if |parts| == 1 then parts[0]
    else parts[0] + sep + Join(parts[1..], sep)
  }

  lemma {:induction false} JoinCons(head: string, tail: seq<string>, sep: string)
    requires |tail| > 0
    ensures Join([head] + tail, sep) == head + sep + Join(tail, sep)
  {
    assert ([head] + tail)[1..] == tail;
  }

  /** The join of three or more parts, with its first two parts written out. */
  lemma {:induction false} JoinTwoHead(parts: seq<string>, sep: string)
    requires |parts| >= 3
    ensures Join(parts, sep) == parts[0] + sep + parts[1] + sep + Join(parts[2..], sep)
  {
    assert parts[1..][1..] == parts[2..];
  }

  /** Joining a prefix of the parts, then the rest, gives the whole join. */
  lemma {:induction false} JoinSplitAt(parts: seq<string>, k: nat, sep: string)
    requires 0 < k < |parts|
    ensures Join(parts, sep) == Join(parts[..k], sep) + sep + Join(parts[k..], sep)
    decreases k
  {
    if k > 1 {
      JoinSplitAt(parts[1..], k - 1, sep);
      assert parts[1..][..k - 1] == parts[..k][1..];
      assert parts[1..][k - 1..] == parts[k..];
    }
  }

  lemma {:induction false} OccursInPrefix(s: string, p: string, i: int, j: int)
    requires 0 <= i <= |s|
    requires OccursAt(s[..i], p, j)
    ensures OccursAt(s, p, j)
  {
    assert s[..i][j..j + |p|] == s[j..j + |p|];
  }

  /** `s.split(sep)`: the pieces between the occurrences of `sep`, found left to right. */
  function Split(s: string, sep: string): (parts: seq<string>)
    requires |sep| > 0
    ensures |parts| >= 1
    decreases |s|
  {
    var i := Find(s, sep);
    if i < 0 then [s] else [s[..i]] + Split(s[i + |sep|..], sep)
  }

  /** Joining the pieces of a split with the separator gives the text back. */
  lemma {:induction false} SplitJoin(s: string, sep: string)
    requires |sep| > 0
    ensures Join(Split(s, sep), sep) == s
    decreases |s|
  {
    var i := Find(s, sep);
    SplitHead(s, sep);
    if i >= 0 {
      var rest := s[i + |sep|..];
      SplitJoin(rest, sep);
      JoinCons(s[..i], Split(rest, sep), sep);
      FindOccurs(s, sep);
      CutAt(s, sep, i);
    }
  }

  /** No piece of a split contains the separator. */
  lemma {:induction false} SplitPiecesClean(s: string, sep: string)
    requires |sep| > 0
    ensures forall k :: 0 <= k < |Split(s, sep)| ==> !Contains(Split(s, sep)[k], sep)
    decreases |s|
  {
    var i := Find(s, sep);
    if i >= 0 {
      var head := s[..i];
      var rest := Split(s[i + |sep|..], sep);
      SplitPiecesClean(s[i + |sep|..], sep);
      assert !Contains(head, sep) by {
        var j := Find(head, sep);
        if j >= 0 {
          FindOccurs(head, sep);
          OccursInPrefix(s, sep, i, j);
          FindFirst(s, sep, j);
        }
      }
      assert forall k :: 0 < k < |Split(s, sep)| ==> Split(s, sep)[k] == rest[k - 1];
    }
  }

  /** The first piece of a split, and the pieces after it as the split of the rest. */
  lemma {:induction false} SplitHead(s: string, sep: string)
    requires |sep| > 0
    ensures var i := Find(s, sep);
            && (i < 0 ==> Split(s, sep) == [s])
            && (i >= 0 ==> Split(s, sep) == [s[..i]] + Split(s[i + |sep|..], sep))
  {
  }

  /** The piece of `s` before the first `sep`, or all of `s` when it holds none. */
  function FirstPiece(s: string, sep: string): (r: string)
    ensures r <= s
  {
    var i := Find(s, sep);
    if i < 0 then s else s[..i]
  }

  /** The first piece of a split is the text before the first separator. */
  lemma {:induction false} SplitFirstPiece(s: string, sep: string)
    requires |sep| > 0
    ensures Split(s, sep)[0] == FirstPiece(s, sep)
  {
    SplitHead(s, sep);
  }

  /** The first two pieces of `s.split(sep)` when `sep` occurs in `s`. */
  lemma {:induction false} SplitFirstTwo(s: string, sep: string)
    requires |sep| > 0 && Contains(s, sep)
    ensures var i := Find(s, sep);
            && |Split(s, sep)| >= 2
            && Split(s, sep)[0] == s[..i]
            && Split(s, sep)[1] == FirstPiece(s[i + |sep|..], sep)
  {
    var i := Find(s, sep);
    var after := s[i + |sep|..];
    var parts := Split(s, sep);
    var rest := Split(after, sep);
    assert parts == [s[..i]] + rest by {
      SplitHead(s, sep);
    }
    assert rest[0] == FirstPiece(after, sep) by {
      SplitFirstPiece(after, sep);
    }
    ConsIndex(s[..i], rest);
  }

  /** The first two elements of a list built by putting `x` in front of `rest`. */
  lemma {:induction false} ConsIndex<T>(x: T, rest: seq<T>)
    requires |rest| > 0
    ensures |[x] + rest| >= 2 && ([x] + rest)[0] == x && ([x] + rest)[1] == rest[0]
  {
  }


  /** An occurrence of `p` at `i` cuts `s` into what precedes it, `p` and what follows. */
  lemma {:induction false} CutAt(s: string, p: string, i: int)
    requires OccursAt(s, p, i)
    ensures s == s[..i] + p + s[i + |p|..]
  {
  }

  /** For a one-character pattern, `p in s` is membership of the character. */
  lemma {:induction false} ContainsChar(s: string, c: char)
    ensures Contains(s, [c]) <==> c in s
  {
    if c in s {
      var i :| 0 <= i < |s| && s[i] == c;
      assert s[i..i + 1] == [c];
      FindFirst(s, [c], i);
    }
    if Contains(s, [c]) {
      var i := Find(s, [c]);
      FindOccurs(s, [c]);
      assert s[i] == s[i..i + 1][0];
    }
  }

  /** A character found in neither the pieces nor the separator is not in their join. */
  lemma {:induction false} JoinNoChar(parts: seq<string>, sep: string, c: char)
    requires forall k :: 0 <= k < |parts| ==> c !in parts[k]
    requires c !in sep
    ensures c !in Join(parts, sep)
    decreases |parts|
  {
    if |parts| > 1 {
      JoinNoChar(parts[1..], sep, c);
    }
  }

  /** `split` yields a single piece exactly when the separator does not occur. */
  lemma {:induction false} SplitOnePiece(s: string, sep: string)
    requires |sep| > 0
    ensures |Split(s, sep)| == 1 <==> !Contains(s, sep)
  {
  }

  /**
   * `s.replace(p, q)`: a left-to-right scan that rewrites each non-overlapping
   * occurrence of `p` (the source never passes an empty pattern).
   */
  function Replace(s: string, p: string, q: string): string
    requires |p| > 0
    decreases |s|
  {
    if |s| < |p| then s
    else if s[..|p|] == p then q + Replace(s[|p|..], p, q)
    else [s[0]] + Replace(s[1..], p, q)
  }

  /**
   * Python's own reading of `replace`: `s.replace(p, q) == q.join(s.split(p))`.
   * With `Split`'s contract this says every occurrence of `p` is rewritten to
   * `q` and the text between occurrences is kept.
   */
  lemma {:induction false} ReplaceJoinsPieces(s: string, p: string, q: string)
    requires |p| > 0
    ensures Replace(s, p, q) == Join(Split(s, p), q)
    decreases |s|
  {
    if |s| < |p| {
      assert !OccursAt(s, p, Find(s, p));
    } else if s[..|p|] == p {
      var rest := s[|p|..];
      assert Split(s, p) == [""] + Split(rest, p) by {
        assert OccursAt(s, p, 0);
      }
      assert Replace(rest, p, q) == Join(Split(rest, p), q) by {
        ReplaceJoinsPieces(rest, p, q);
      }
      JoinCons("", Split(rest, p), q);
    } else {
      var t := Split(s[1..], p);
      assert Split(s, p) == [[s[0]] + t[0]] + t[1..] by {
        SplitShift(s, p);
      }
      assert Replace(s[1..], p, q) == Join(t, q) by {
        ReplaceJoinsPieces(s[1..], p, q);
      }
      JoinPrepend(s[0], t, q);
    }
  }

  /** Joining pieces whose first piece is extended by `c` in front extends the join by `c`. */
  lemma {:induction false} JoinPrepend(c: char, parts: seq<string>, sep: string)
    requires |parts| > 0
    ensures Join([[c] + parts[0]] + parts[1..], sep) == [c] + Join(parts, sep)
  {
    if |parts| > 1 {
      JoinCons([c] + parts[0], parts[1..], sep);
    }
  }

  /** When `s` does not start with `p`, the first occurrence moves one place. */
  lemma {:induction false} FindShift(s: string, p: string)
    requires |s| >= |p| && s[..|p|] != p
    ensures var k := Find(s[1..], p); Find(s, p) == if k < 0 then -1 else k + 1
  {
  }

  /** When `s` does not start with `p`, its first character belongs to the first piece. */
  lemma {:induction false} SplitShift(s: string, p: string)
    requires |p| > 0 && |s| >= |p| && s[..|p|] != p
    ensures var t := Split(s[1..], p); Split(s, p) == [[s[0]] + t[0]] + t[1..]
  {
    FindShift(s, p);
    if Find(s[1..], p) < 0 {
      SplitShiftAbsent(s, p);
    } else {
      SplitShiftPresent(s, p);
    }
  }

  lemma {:induction false} SplitShiftAbsent(s: string, p: string)
    requires |p| > 0 && |s| > 0 && Find(s, p) < 0 && Find(s[1..], p) < 0
    ensures var t := Split(s[1..], p); Split(s, p) == [[s[0]] + t[0]] + t[1..]
  {
    SplitHead(s, p);
    SplitHead(s[1..], p);
    assert [s[0]] + s[1..] == s;
  }

  lemma {:induction false} SplitShiftPresent(s: string, p: string)
    requires |p| > 0 && |s| > 0 && Find(s[1..], p) >= 0 && Find(s, p) == Find(s[1..], p) + 1
    ensures var t := Split(s[1..], p); Split(s, p) == [[s[0]] + t[0]] + t[1..]
  {
    var t := s[1..];
    var k := Find(t, p);
    var pieces := Split(t, p);
    var rest := Split(s[k + 1 + |p|..], p);
    assert Split(s, p) == [s[..k + 1]] + rest by {
      SplitHead(s, p);
    }
    assert pieces[0] == t[..k] && pieces[1..] == rest by {
      SplitHead(t, p);
      ShiftedSlices(s, k, |p|);
      assert pieces == [t[..k]] + rest;
    }
    assert [s[0]] + t[..k] == s[..k + 1] by {
      ShiftedSlices(s, k, |p|);
    }
  }

  /** How slices of `s[1..]` sit inside `s`. */
  lemma {:induction false} ShiftedSlices(s: string, k: nat, n: nat)
    requires k + 1 + n <= |s|
    ensures s[1..][k + n..] == s[k + 1 + n..]
    ensures [s[0]] + s[1..][..k] == s[..k + 1]
  {
  }

  /** Text that does not contain the pattern passes through `replace` unchanged. */
  lemma {:induction false} ReplaceAbsent(s: string, p: string, q: string)
    requires |p| > 0 && !Contains(s, p)
    ensures Replace(s, p, q) == s
  {
    ReplaceJoinsPieces(s, p, q);
  }

  // ---------------------------------------------------------------------------
  // Case mapping (ASCII letters only)
  // ---------------------------------------------------------------------------

  predicate IsUpper(c: char) { 'A' <= c <= 'Z' }
  predicate IsLower(c: char) { 'a' <= c <= 'z' }
  predicate IsLetter(c: char) { IsUpper(c) || IsLower(c) }
  predicate IsDigit(c: char) { '0' <= c <= '9' }

  function LowerChar(c: char): (d: char)
    ensures IsLetter(c) ==> IsLower(d)
    ensures !IsLetter(c) ==> d == c
  {
    if IsUpper(c) then (c as int + 32) as char else c
  }

  function UpperChar(c: char): (d: char)
    ensures IsLetter(c) ==> IsUpper(d)
    ensures !IsLetter(c) ==> d == c
  {
    if IsLower(c) then (c as int - 32) as char else c
  }

  /** Lower-casing an upper-case letter and upper-casing it again gives it back. */
  lemma {:induction false} CaseRoundTrip(c: char)
    requires IsUpper(c)
    ensures UpperChar(LowerChar(c)) == c
  {
    var d := LowerChar(c);
    assert d as int == c as int + 32;
    assert IsLower(d);
    assert (d as int - 32) as char == c;
  }

  /** `s.lower()` */
  function Lower(s: string): (r: string)
    ensures |r| == |s| && forall i :: 0 <= i < |s| ==> r[i] == LowerChar(s[i])
  {
    seq(|s|, i requires 0 <= i < |s| => LowerChar(s[i]))
  }

  /** `s.title()`: a letter is upper-cased when it starts a word, lower-cased otherwise. */
  function Title(s: string): (r: string)
    ensures |r| == |s|
    ensures forall i :: 0 <= i < |s| ==> (IsLetter(r[i]) <==> IsLetter(s[i]))
    ensures forall i :: 0 <= i < |s| && !IsLetter(s[i]) ==> r[i] == s[i]
    ensures forall i :: 0 <= i < |s| && IsLetter(s[i]) ==> (IsUpper(r[i]) <==> i == 0 || !IsLetter(s[i - 1]))
    ensures forall i :: 0 <= i < |s| ==> LowerChar(r[i]) == LowerChar(s[i])
  {
    seq(|s|, i requires 0 <= i < |s| => TitleChar(s, i))
  }

  /**
   * The character `title()` puts at index `i`: a letter is upper-cased when
   * it starts a run of letters and lower-cased otherwise; nothing else changes.
   */
  function TitleChar(s: string, i: nat): (d: char)
    requires i < |s|
    ensures IsLetter(d) <==> IsLetter(s[i])
    ensures !IsLetter(s[i]) ==> d == s[i]
    ensures IsLetter(s[i]) ==> (IsUpper(d) <==> i == 0 || !IsLetter(s[i - 1]))
    ensures LowerChar(d) == LowerChar(s[i])
  {
    if i == 0 || !IsLetter(s[i - 1]) then UpperChar(s[i]) else LowerChar(s[i])
  }

  /** A text without line breaks. */
  predicate SingleLine(s: string) {
    forall i :: 0 <= i < |s| ==> s[i] != '\n'
  }

  /** A single-line pattern absent from a head ending in a line break does not occur at the start of head and tail. */
  lemma {:induction false} NoOccurrenceAtHead(h: string, c: string, p: string)
    requires h != [] && h[|h| - 1] == '\n' && SingleLine(p) && !Contains(h, p)
    ensures |h + c| >= |p| ==> (h + c)[..|p|] != p
  {
    var s := h + c;
    if |s| >= |p| {
      if |p| <= |h| {
        assert s[..|p|] == h[0..|p|];
        assert !OccursAt(h, p, 0);
      } else {
        assert s[|h| - 1] == '\n';
        assert p[|h| - 1] != '\n';
      }
    }
  }

  /**
   * Replacing a single-line pattern behind a head that ends in a line break
   * and holds no occurrence leaves the head as it is: no occurrence can
   * start inside the head.
   */
  lemma {:induction false} ReplaceKeepsPrefix(h: string, c: string, p: string, q: string)
    requires |p| > 0 && SingleLine(p)
    requires h != [] ==> h[|h| - 1] == '\n'
    requires !Contains(h, p)
    ensures Replace(h + c, p, q) == h + Replace(c, p, q)
    decreases |h|
  {
    if h == [] {
      assert h + c == c;
    } else {
      var t := h[1..];
      var r := Replace(c, p, q);
      assert Replace(h + c, p, q) == [h[0]] + Replace(t + c, p, q) by {
        NoOccurrenceAtHead(h, c, p);
        ReplaceStep(h + c, p, q);
        assert (h + c)[1..] == t + c;
      }
      assert Replace(t + c, p, q) == t + r by {
        HeadTailClean(h, p);
        ReplaceKeepsPrefix(t, c, p, q);
      }
      assert [h[0]] + (t + r) == h + r;
    }
  }

  /** The tail of a line-terminated head free of `p` is again one. */
  lemma {:induction false} HeadTailClean(h: string, p: string)
    requires h != [] && h[|h| - 1] == '\n' && !Contains(h, p)
    ensures h[1..] != [] ==> h[1..][|h[1..]| - 1] == '\n'
    ensures !Contains(h[1..], p)
  {
    var t := h[1..];
    if Contains(t, p) {
      OccursShift(h, p, Find(t, p));
    }
  }

  /** Where `p` does not occur at the front, `replace` keeps the first character. */
  lemma {:induction false} ReplaceStep(s: string, p: string, q: string)
    requires |p| > 0 && s != []
    requires |s| >= |p| ==> s[..|p|] != p
    ensures |s| < |p| ==> Replace(s, p, q) == s && Replace(s[1..], p, q) == s[1..]
    ensures Replace(s, p, q) == [s[0]] + Replace(s[1..], p, q)
  {
    if |s| < |p| {
      assert s == [s[0]] + s[1..];
    }
  }

  /** The interactive answer test `answer.lower() == 'y'` accepts exactly "y" and "Y". */
  lemma {:induction false} LowerIsY(a: string)
    ensures Lower(a) == "y" <==> a == "y" || a == "Y"
  {
    if Lower(a) == "y" {
      assert Lower(a)[0] == LowerChar(a[0]) == 'y';
      assert a == [a[0]];
    }
    if a == "y" || a == "Y" {
      assert Lower(a)[0] == 'y';
    }
  }

  // ---------------------------------------------------------------------------
  // Decimal fields
  // ---------------------------------------------------------------------------

  function DigitChar(d: nat): (c: char)
    requires d < 10
    ensures IsDigit(c)
  {
    ('0' as int + d) as char
  }

  function Pow10(w: nat): (p: nat)
    ensures p >= 1
  {
    if w == 0 then 1 else 10 * Pow10(w - 1)
  }

  /** The low `width` decimal digits of `n`, zero-padded (strftime's `%m`, `%d`, ...). */
  function ZeroPad(n: nat, width: nat): (s: string)
    ensures |s| == width
    ensures forall i :: 0 <= i < |s| ==> IsDigit(s[i])
  {
    if width == 0 then "" else ZeroPad(n / 10, width - 1) + [DigitChar(n % 10)]
  }

  /** `str(n)` for a natural number. */
  function NatToString(n: nat): (s: string)
    ensures |s| > 0
    ensures forall i :: 0 <= i < |s| ==> IsDigit(s[i])
  {
    if n < 10 then [DigitChar(n)] else NatToString(n / 10) + [DigitChar(n % 10)]
  }

  /** Python's `f"{s:<width}"`: `s` padded on the right with spaces. */
  function LJust(s: string, width: nat): (r: string)
    ensures s <= r
    ensures |r| == if |s| < width then width else |s|
    ensures forall i :: |s| <= i < |r| ==> r[i] == ' '
  {
    if |s| < width then s + seq(width - |s|, _ => ' ') else s
  }

  // ---------------------------------------------------------------------------
  // Ordering of strings by code points (Python's `<` on `str` and on paths)
  // ---------------------------------------------------------------------------

  predicate LexLess(a: string, b: string)
    decreases |a|
  {
    if |a| == 0 then |b| > 0
    else if |b| == 0 then false
    else if a[0] != b[0] then a[0] < b[0]
    else LexLess(a[1..], b[1..])
  }

  lemma {:induction false} LexIrreflexive(a: string)
    ensures !LexLess(a, a)
    decreases |a|
  {
    if |a| > 0 {
      LexIrreflexive(a[1..]);
    }
  }

  lemma {:induction false} LexTransitive(a: string, b: string, c: string)
    requires LexLess(a, b) && LexLess(b, c)
    ensures LexLess(a, c)
    decreases |a|
  {
    if |a| > 0 && a[0] == b[0] && b[0] == c[0] {
      LexTransitive(a[1..], b[1..], c[1..]);
    }
  }

  lemma {:induction false} LexTotal(a: string, b: string)
    requires a != b
    ensures LexLess(a, b) || LexLess(b, a)
    decreases |a|
  {
    if |a| > 0 && |b| > 0 && a[0] == b[0] {
      assert a == [a[0]] + a[1..] && b == [b[0]] + b[1..];
      LexTotal(a[1..], b[1..]);
    }
  }

  lemma {:induction false} LexAsymmetric(a: string, b: string)
    requires LexLess(a, b)
    ensures !LexLess(b, a)
  {
    if LexLess(b, a) {
      LexTransitive(a, b, a);
      LexIrreflexive(a);
    }
  }

  /** Comparing two strings that share a prefix compares what follows it. */
  lemma {:induction false} LexCommonPrefix(p: string, a: string, b: string)
    ensures LexLess(p + a, p + b) <==> LexLess(a, b)
    decreases |p|
  {
    if |p| > 0 {
      assert (p + a)[0] == p[0] == (p + b)[0];
      assert (p + a)[1..] == p[1..] + a;
      assert (p + b)[1..] == p[1..] + b;
      LexCommonPrefix(p[1..], a, b);
    } else {
      assert p + a == a && p + b == b;
    }
  }

  /**
   * For strings of the same length, the first differing position decides:
   * comparing `a1 + b1` with `a2 + b2` compares `a1` with `a2`, then `b1` with `b2`.
   */
  lemma {:induction false} LexConcat(a1: string, b1: string, a2: string, b2: string)
    requires |a1| == |a2|
    ensures LexLess(a1 + b1, a2 + b2) <==> LexLess(a1, a2) || (a1 == a2 && LexLess(b1, b2))
    decreases |a1|
  {
    if |a1| == 0 {
      assert a1 + b1 == b1 && a2 + b2 == b2;
    } else {
      assert (a1 + b1)[1..] == a1[1..] + b1;
      assert (a2 + b2)[1..] == a2[1..] + b2;
      LexConcat(a1[1..], b1, a2[1..], b2);
      if a1[0] == a2[0] {
        assert a1 == a2 <==> a1[1..] == a2[1..] by {
          assert a1 == [a1[0]] + a1[1..] && a2 == [a2[0]] + a2[1..];
        }
      }
    }
  }

  /** Zero-padded fields of one width compare like the numbers they spell. */
  lemma {:induction false} ZeroPadOrder(n: nat, m: nat, width: nat)
    requires n < Pow10(width) && m < Pow10(width)
    ensures LexLess(ZeroPad(n, width), ZeroPad(m, width)) <==> n < m
    ensures ZeroPad(n, width) == ZeroPad(m, width) <==> n == m
    decreases width
  {
    if width == 0 {
    } else {
      var hn, hm := ZeroPad(n / 10, width - 1), ZeroPad(m / 10, width - 1);
      ZeroPadOrder(n / 10, m / 10, width - 1);
      LexConcat(hn, [DigitChar(n % 10)], hm, [DigitChar(m % 10)]);
      var a, b := ZeroPad(n, width), ZeroPad(m, width);
      assert a == hn + [DigitChar(n % 10)] && b == hm + [DigitChar(m % 10)];
      if a == b {
        assert a[..width - 1] == hn && b[..width - 1] == hm;
        assert a[width - 1] == DigitChar(n % 10) && b[width - 1] == DigitChar(m % 10);
      }
    }
  }

  /** Every non-empty finite set of strings has a greatest element in code-point order. */
  lemma {:induction false} LexMaxExists(s: set<string>)
    requires s != {}
    ensures exists p :: p in s && forall q :: q in s && q != p ==> LexLess(q, p)
    decreases |s|
  {
    var x :| x in s;
    if s == {x} {
      assert forall q :: q in s ==> q == x;
    } else {
      var rest := s - {x};
      LexMaxExists(rest);
      var m :| m in rest && forall q :: q in rest && q != m ==> LexLess(q, m);
      if LexLess(x, m) {
        assert forall q :: q in s && q != m ==> LexLess(q, m);
      } else {
        LexTotal(x, m);
        forall q | q in s && q != x
          ensures LexLess(q, x)
        {
          if q != m {
            LexTransitive(q, m, x);
          }
        }
      }
    }
  }
}
