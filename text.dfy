/**
 * The string operations the shell is built from, with JavaScript's semantics
 * written out: `split` on one separator character, `join`, `filter(Boolean)`,
 * `trim`, splitting on runs of whitespace, `toLowerCase`, `startsWith`,
 * `endsWith`, `replace` with a string pattern, and the order on names that
 * the directory listing uses.
 */
module Text {
  import opened Wrappers

  predicate IsSlash(c: char) { c == '/' }

  predicate IsNewline(c: char) { c == '\n' }

  /** The characters of JavaScript's `\s` class, which are also the ones `trim` removes. */
  predicate IsSpace(c: char) {
    || c == ' ' || c == '\t' || c == '\n' || c == '\r' || c == '\U{000B}' || c == '\U{000C}'
    || c == '\U{00A0}' || c == '\U{1680}' || ('\U{2000}' <= c <= '\U{200A}')
    || c == '\U{2028}' || c == '\U{2029}' || c == '\U{202F}' || c == '\U{205F}'
    || c == '\U{3000}' || c == '\U{FEFF}'
  }

  /** No character of `s` is a separator. */
  predicate Free(s: string, isSep: char -> bool) {
    forall i :: 0 <= i < |s| ==> !isSep(s[i])
  }

  predicate AllSpace(s: string) {
    forall i :: 0 <= i < |s| ==> IsSpace(s[i])
  }

  // ---------------------------------------------------------------------------
  // split and join
  // ---------------------------------------------------------------------------

  /** `s.split(sep)`: the pieces between separators, empty ones included; never an empty list. */
  function SplitBy(s: string, isSep: char -> bool): (r: seq<string>)
    ensures |r| >= 1
    ensures forall i :: 0 <= i < |r| ==> Free(r[i], isSep)
    decreases |s|
  {
    if s == [] then [""]
    else
      var rest := SplitBy(s[1..], isSep);
      if isSep(s[0]) then [""] + rest
      else
        assert Free([s[0]] + rest[0], isSep) by {
          forall i | 0 <= i < |[s[0]] + rest[0]| ensures !isSep(([s[0]] + rest[0])[i]) {
            if i > 0 { assert ([s[0]] + rest[0])[i] == rest[0][i - 1]; }
          }
        }
        [[s[0]] + rest[0]] + rest[1..]
  }

  /** `parts.join(sep)` */
  function Join(parts: seq<string>, sep: char): string
  {
    if parts == [] then ""
    else if |parts| == 1 then parts[0]
    else parts[0] + [sep] + Join(parts[1..], sep)
  }

  /** A string without separators is one piece. */
  lemma {:induction false} SplitFreeWhole(a: string, isSep: char -> bool)
    requires Free(a, isSep)
    ensures SplitBy(a, isSep) == [a]
    decreases |a|
  {
    if a != [] {
      SplitFreeWhole(a[1..], isSep);
      assert [a[0]] + a[1..] == a;
    }
  }

  /** Splitting at a separator character splits the two sides independently. */
  lemma {:induction false} SplitAtSeparator(a: string, c: char, b: string, isSep: char -> bool)
    requires isSep(c)
    ensures SplitBy(a + [c] + b, isSep) == SplitBy(a, isSep) + SplitBy(b, isSep)
    decreases |a|
  {
    var s := a + [c] + b;
    if a == [] {
      assert s[0] == c && s[1..] == b;
    } else {
      assert s[0] == a[0] && s[1..] == a[1..] + [c] + b;
      SplitAtSeparator(a[1..], c, b, isSep);
    }
  }

  /** `join` undoes `split` when the pieces hold no separator. */
  lemma {:induction false} SplitJoin(parts: seq<string>, sep: char, isSep: char -> bool)
    requires |parts| >= 1 && isSep(sep)
    requires forall i :: 0 <= i < |parts| ==> Free(parts[i], isSep)
    ensures SplitBy(Join(parts, sep), isSep) == parts
    decreases |parts|
  {
    SplitFreeWhole(parts[0], isSep);
    if |parts| > 1 {
      SplitJoin(parts[1..], sep, isSep);
      SplitAtSeparator(parts[0], sep, Join(parts[1..], sep), isSep);
      assert [parts[0]] + parts[1..] == parts;
    }
  }

  /** `split` undoes `join`: the separator is the only character the predicate accepts. */
  lemma {:induction false} JoinSplit(s: string, sep: char, isSep: char -> bool)
    requires forall c :: isSep(c) <==> c == sep
    ensures Join(SplitBy(s, isSep), sep) == s
    decreases |s|
  {
    if s != [] {
      var rest := SplitBy(s[1..], isSep);
      JoinSplit(s[1..], sep, isSep);
      if isSep(s[0]) {
        assert SplitBy(s, isSep) == [""] + rest;
        assert ([""] + rest)[1..] == rest;
        assert s == [s[0]] + s[1..];
      } else {
        var r := [[s[0]] + rest[0]] + rest[1..];
        assert SplitBy(s, isSep) == r;
        if |rest| == 1 {
          assert s == [s[0]] + s[1..];
        } else {
          assert r[1..] == rest[1..];
          assert Join(rest, sep) == rest[0] + [sep] + Join(rest[1..], sep);
          assert s == [s[0]] + s[1..];
        }
      }
    }
  }

  /**
   * The last of `pieces` ends `s` and is preceded by a separator unless it is
   * all of `s`, which it is exactly when it is the only piece.
   */
  predicate LastIsSuffix(s: string, pieces: seq<string>, isSep: char -> bool) {
    && |pieces| >= 1
    && var last := pieces[|pieces| - 1];
    && EndsWith(s, last)
    && (|last| < |s| ==> isSep(s[|s| - |last| - 1]))
    && (|pieces| == 1 ==> pieces[0] == s)
    && (|pieces| > 1 ==> |last| < |s|)
  }

  /** The last piece of a split is the longest separator-free suffix (`split(sep).pop()`). */
  lemma {:induction false} SplitLast(s: string, isSep: char -> bool)
    ensures LastIsSuffix(s, SplitBy(s, isSep), isSep)
    decreases |s|
  {
    var pieces := SplitBy(s, isSep);
    if s == [] {
      assert pieces == [""];
      assert s[|s| - |pieces[0]|..] == pieces[0];
    } else {
      var rest := SplitBy(s[1..], isSep);
      SplitLast(s[1..], isSep);
      SplitFirstStep(s, isSep);
      LastOfFirstStep(s, isSep, rest, pieces);
    }
  }

  /** How the pieces of `s` follow from those of `s[1..]`. */
  predicate FirstStep(s: string, isSep: char -> bool, rest: seq<string>, pieces: seq<string>) {
    && s != [] && |rest| >= 1 && |pieces| >= 1
    && (|pieces| == 1 <==> !isSep(s[0]) && |rest| == 1)
    && (|pieces| > 1 ==> pieces[|pieces| - 1] == rest[|rest| - 1])
    && (|pieces| == 1 ==> pieces[0] == [s[0]] + rest[0])
  }

  lemma SplitFirstStep(s: string, isSep: char -> bool)
    requires s != []
    ensures FirstStep(s, isSep, SplitBy(s[1..], isSep), SplitBy(s, isSep))
  {
    var rest := SplitBy(s[1..], isSep);
    if isSep(s[0]) {
      assert SplitBy(s, isSep) == [""] + rest;
      ConsStep(s, isSep, rest, [""] + rest);
    } else {
      assert SplitBy(s, isSep) == [[s[0]] + rest[0]] + rest[1..];
      ConsStep(s, isSep, rest, [[s[0]] + rest[0]] + rest[1..]);
    }
  }

  lemma ConsStep(s: string, isSep: char -> bool, rest: seq<string>, pieces: seq<string>)
    requires s != [] && |rest| >= 1
    requires isSep(s[0]) ==> pieces == [""] + rest
    requires !isSep(s[0]) ==> pieces == [[s[0]] + rest[0]] + rest[1..]
    ensures FirstStep(s, isSep, rest, pieces)
  {
  }

  /** The inductive step of SplitLast. */
  lemma LastOfFirstStep(s: string, isSep: char -> bool, rest: seq<string>, pieces: seq<string>)
    requires FirstStep(s, isSep, rest, pieces) && LastIsSuffix(s[1..], rest, isSep)
    ensures LastIsSuffix(s, pieces, isSep)
  {
    var t := s[1..];
    var last := rest[|rest| - 1];
    if |pieces| == 1 {
      assert [s[0]] + t == s;
      assert s[|s| - |s|..] == s;
    } else {
      assert s[|s| - |last|..] == t[|t| - |last|..];
      if |last| < |t| {
        assert s[|s| - |last| - 1] == t[|t| - |last| - 1];
      }
    }
  }

  // ---------------------------------------------------------------------------
  // filter(Boolean) and path segments
  // ---------------------------------------------------------------------------

  /** `parts.filter(Boolean)`: the non-empty strings, in order. */
  function NonEmpty(parts: seq<string>): (r: seq<string>)
    ensures forall i :: 0 <= i < |r| ==> r[i] != ""
    ensures forall x :: x in r ==> x in parts
    ensures |r| <= |parts|
  {
    if parts == [] then []
    else (if parts[0] == "" then [] else [parts[0]]) + NonEmpty(parts[1..])
  }

  lemma {:induction false} NonEmptyConcat(a: seq<string>, b: seq<string>)
    ensures NonEmpty(a + b) == NonEmpty(a) + NonEmpty(b)
    decreases |a|
  {
    if a == [] {
      assert a + b == b;
    } else {
      assert (a + b)[0] == a[0] && (a + b)[1..] == a[1..] + b;
      NonEmptyConcat(a[1..], b);
    }
  }

  lemma {:induction false} NonEmptyKeepsNonEmpty(a: seq<string>)
    requires forall i :: 0 <= i < |a| ==> a[i] != ""
    ensures NonEmpty(a) == a
    decreases |a|
  {
    if a != [] {
      NonEmptyKeepsNonEmpty(a[1..]);
      assert [a[0]] + a[1..] == a;
    }
  }

  /** A name that can stand between two slashes of a path. */
  predicate IsSegment(s: string) {
    s != "" && Free(s, IsSlash)
  }

  /** `path.split('/').filter(Boolean)` */
  function Segments(path: string): (r: seq<string>)
    ensures forall i :: 0 <= i < |r| ==> IsSegment(r[i])
  {
    var pieces := SplitBy(path, IsSlash);
    assert forall x :: x in pieces ==> Free(x, IsSlash);
    NonEmpty(pieces)
  }

  /** A leading slash contributes only an empty piece, which `filter(Boolean)` drops. */
  lemma SegmentsOfRooted(j: string)
    ensures Segments("/" + j) == NonEmpty(SplitBy(j, IsSlash))
  {
    SplitAtSeparator("", '/', j, IsSlash);
    assert "" + ['/'] + j == "/" + j;
    assert SplitBy("", IsSlash) == [""];
    NonEmptyConcat([""], SplitBy(j, IsSlash));
    assert NonEmpty([""]) == [];
  }

  /** Re-splitting `'/' + parts.join('/')` gives the segments back. */
  lemma SegmentsOfRootedJoin(parts: seq<string>)
    requires forall i :: 0 <= i < |parts| ==> IsSegment(parts[i])
    ensures Segments("/" + Join(parts, '/')) == parts
  {
    SegmentsOfRooted(Join(parts, '/'));
    if parts == [] {
      assert NonEmpty([""]) == [];
    } else {
      SplitJoin(parts, '/', IsSlash);
      NonEmptyKeepsNonEmpty(parts);
    }
  }

  /** The segments of `a + '/' + b` are those of `a` followed by those of `b`. */
  lemma SegmentsOfConcat(a: string, b: string)
    ensures Segments(a + "/" + b) == Segments(a) + Segments(b)
  {
    SplitAtSeparator(a, '/', b, IsSlash);
    assert a + "/" + b == a + ['/'] + b;
    NonEmptyConcat(SplitBy(a, IsSlash), SplitBy(b, IsSlash));
  }

  /** A single segment splits to itself. */
  lemma SegmentsOfSegment(s: string)
    requires IsSegment(s)
    ensures Segments(s) == [s]
  {
    SplitFreeWhole(s, IsSlash);
  }

  // ---------------------------------------------------------------------------
  // trim and whitespace tokenisation
  // ---------------------------------------------------------------------------

  /** The length of the run of whitespace at the start of `s`. */
  function LeadingSpaces(s: string): (n: nat)
    ensures n <= |s|
    ensures AllSpace(s[..n])
    ensures n < |s| ==> !IsSpace(s[n])
  {
    if s == [] || !IsSpace(s[0]) then 0
    else
      var k := LeadingSpaces(s[1..]);
      assert s[..1 + k] == [s[0]] + s[1..][..k];
      1 + k
  }

  /** The length of the run of whitespace at the end of `s`. */
  function TrailingSpaces(s: string): (n: nat)
    ensures n <= |s|
    ensures AllSpace(s[|s| - n..])
    ensures n < |s| ==> !IsSpace(s[|s| - n - 1])
  {
    if s == [] || !IsSpace(s[|s| - 1]) then 0
    else
      var t := s[..|s| - 1];
      var k := TrailingSpaces(t);
      assert s[|s| - (1 + k)..] == t[|t| - k..] + [s[|s| - 1]];
      1 + k
  }

  /** Neither end of `s` is whitespace. */
  predicate Trimmed(s: string) {
    s == [] || (!IsSpace(s[0]) && !IsSpace(s[|s| - 1]))
  }

  /** `s.trim()` */
  function Trim(s: string): (r: string)
    ensures Trimmed(r)
  {
    var t := s[LeadingSpaces(s)..];
    t[..|t| - TrailingSpaces(t)]
  }

  /** LeadingSpaces counts exactly the whitespace run before the first other character. */
  lemma {:induction false} LeadingSpacesExact(x: string, k: nat)
    requires k <= |x| && AllSpace(x[..k]) && (k < |x| ==> !IsSpace(x[k]))
    ensures LeadingSpaces(x) == k
    decreases k
  {
    if k > 0 {
      assert x[..k][0] == x[0];
      assert x[1..][..k - 1] == x[..k][1..];
      LeadingSpacesExact(x[1..], k - 1);
    }
  }

  /** TrailingSpaces counts exactly the whitespace run after the last other character. */
  lemma {:induction false} TrailingSpacesExact(x: string, k: nat)
    requires k <= |x| && AllSpace(x[|x| - k..]) && (k < |x| ==> !IsSpace(x[|x| - k - 1]))
    ensures TrailingSpaces(x) == k
    decreases k
  {
    if k > 0 {
      var t := x[..|x| - 1];
      var tail := x[|x| - k..];
      assert tail[k - 1] == x[|x| - 1];
      assert forall j :: 0 <= j < k - 1 ==> t[|t| - (k - 1)..][j] == tail[j];
      assert t[|t| - (k - 1)..] == tail[..k - 1];
      assert k - 1 < |t| ==> t[|t| - (k - 1) - 1] == x[|x| - k - 1];
      TrailingSpacesExact(t, k - 1);
    }
  }

  /** Trim strips exactly the whitespace padding around a trimmed core. */
  lemma TrimPadded(a: string, s: string, b: string)
    requires AllSpace(a) && AllSpace(b) && Trimmed(s)
    ensures Trim(a + s + b) == s
  {
    var x := a + s + b;
    if s == [] {
      assert x == a + b;
      LeadingSpacesExact(x, |x|);
      assert x[|x|..] == [];
    } else {
      assert x[..|a|] == a;
      assert x[|a|] == s[0];
      LeadingSpacesExact(x, |a|);
      var t := x[|a|..];
      assert t == s + b;
      assert t[|t| - |b|..] == b;
      assert t[|t| - |b| - 1] == s[|s| - 1];
      TrailingSpacesExact(t, |b|);
      assert t[..|t| - |b|] == s;
    }
  }

  /** `trimmed.split(/\s+/)` for a trimmed line: the maximal runs of non-whitespace. */
  function Words(trimmed: string): seq<string>
  {
    NonEmpty(SplitBy(trimmed, IsSpace))
  }

  /** A trimmed, non-empty line has a first word. */
  lemma WordsOfTrimmed(t: string)
    requires Trimmed(t) && t != ""
    ensures |Words(t)| >= 1
  {
    var parts := SplitBy(t, IsSpace);
    assert !IsSpace(t[0]);
    assert parts[0] != "";
    assert parts == [parts[0]] + parts[1..];
    NonEmptyConcat([parts[0]], parts[1..]);
  }

  /** Joining whitespace-free words with single spaces and splitting again gives the words back. */
  lemma WordsOfJoin(ws: seq<string>)
    requires forall i :: 0 <= i < |ws| ==> ws[i] != "" && Free(ws[i], IsSpace)
    ensures Words(Join(ws, ' ')) == ws
  {
    if ws == [] {
      assert SplitBy("", IsSpace) == [""];
    } else {
      SplitJoin(ws, ' ', IsSpace);
      NonEmptyKeepsNonEmpty(ws);
    }
  }

  /** Words joined by single spaces make a non-empty trimmed line. */
  lemma {:induction false} JoinTrimmed(ws: seq<string>)
    requires |ws| >= 1
    requires forall i :: 0 <= i < |ws| ==> ws[i] != "" && Free(ws[i], IsSpace)
    ensures Join(ws, ' ') != "" && Trimmed(Join(ws, ' '))
    decreases |ws|
  {
    assert !IsSpace(ws[0][0]);
    if |ws| > 1 {
      var rest := Join(ws[1..], ' ');
      JoinTrimmed(ws[1..]);
      var j := Join(ws, ' ');
      assert j == ws[0] + [' '] + rest;
      assert j[0] == ws[0][0];
      assert j[|j| - 1] == rest[|rest| - 1];
    } else {
      assert !IsSpace(ws[0][|ws[0]| - 1]);
    }
  }

  // ---------------------------------------------------------------------------
  // case, prefixes, replacement
  // ---------------------------------------------------------------------------

  /** `toLowerCase` on one character (ASCII letters). */
  function LowerChar(c: char): char {
    if 'A' <= c <= 'Z' then (c as int + 32) as char else c
  }

  function Lower(s: string): string {
    seq(|s|, i requires 0 <= i < |s| => LowerChar(s[i]))
  }

  predicate StartsWith(s: string, prefix: string) {
    |prefix| <= |s| && s[..|prefix|] == prefix
  }

  predicate EndsWith(s: string, suffix: string) {
    |suffix| <= |s| && s[|s| - |suffix|..] == suffix
  }

  /** `pattern` occurs in `s` starting at index `at`. */
  predicate OccursAt(pattern: string, s: string, at: int) {
    0 <= at && at + |pattern| <= |s| && s[at..at + |pattern|] == pattern
  }

  /** No occurrence of `pattern` in `s` starts at an index from `from` up to `to`. */
  predicate NoneBetween(pattern: string, s: string, from: int, to: int) {
    forall i :: from <= i < to ==> !OccursAt(pattern, s, i)
  }

  /** No occurrence of `pattern` in `s` starts at `from` or later. */
  ghost predicate NoneFrom(pattern: string, s: string, from: int) {
    forall i :: from <= i ==> !OccursAt(pattern, s, i)
  }

  /** `s.indexOf(pattern, from)`: where the first occurrence at or after `from` starts. */
  function IndexOf(s: string, pattern: string, from: nat): (r: Option<nat>)
    ensures r.Some? ==> from <= r.value && OccursAt(pattern, s, r.value) && NoneBetween(pattern, s, from, r.value)
    ensures r.None? ==> NoneFrom(pattern, s, from)
    decreases |s| - from
  {
    if from + |pattern| > |s| then None
    else if OccursAt(pattern, s, from) then Some(from)
    else IndexOf(s, pattern, from + 1)
  }

  /** Searching `s` from `k + 1` is searching its tail from `k`, one index further on. */
  lemma {:induction false} IndexOfShift(s: string, pattern: string, k: nat)
    requires s != []
    ensures IndexOf(s, pattern, k + 1).Some? == IndexOf(s[1..], pattern, k).Some?
    ensures IndexOf(s, pattern, k + 1).Some? ==> IndexOf(s, pattern, k + 1).value == IndexOf(s[1..], pattern, k).value + 1
    decreases |s| - k
  {
    if k + 1 + |pattern| <= |s| {
      assert s[k + 1..k + 1 + |pattern|] == s[1..][k..k + |pattern|];
      if !OccursAt(pattern, s, k + 1) {
        IndexOfShift(s, pattern, k + 1);
      }
    }
  }

  /**
   * `s.replace(pattern, '')` with a string pattern: only the first occurrence goes,
   * and a string without one is returned as it is.
   */
  function RemoveFirst(s: string, pattern: string): (r: string)
    ensures r == Removed(s, |pattern|, IndexOf(s, pattern, 0))
    decreases |s|
  {
    if |s| < |pattern| then s
    else if s[..|pattern|] == pattern then s[|pattern|..]
    else
      var rest := RemoveFirst(s[1..], pattern);
      IndexOfShift(s, pattern, 0);
      assert IndexOf(s, pattern, 0) == IndexOf(s, pattern, 1);
      RemovedAfterHead(s, |pattern|, IndexOf(s, pattern, 0), IndexOf(s[1..], pattern, 0), rest);
      [s[0]] + rest
  }

  /** `s` without the `len` characters starting at `at`, or all of `s` when there is no `at`. */
  function Removed(s: string, len: nat, at: Option<nat>): string
    requires at.Some? ==> at.value + len <= |s|
  {
    match at
    case None => s
    case Some(j) => s[..j] + s[j + len..]
  }

  /**
   * The step of `RemoveFirst` past a head that starts no occurrence: `at` and
   * `atTail` are where the occurrence starts in `s` and in its tail.
   */
  lemma RemovedAfterHead(s: string, len: nat, at: Option<nat>, atTail: Option<nat>, rest: string)
    requires s != []
    requires at.Some? == atTail.Some? && (at.Some? ==> at.value == atTail.value + 1)
    requires atTail.Some? ==> atTail.value + len <= |s| - 1
    requires rest == Removed(s[1..], len, atTail)
    ensures at.Some? ==> at.value + len <= |s|
    ensures [s[0]] + rest == Removed(s, len, at)
  {
    if atTail.Some? {
      var j := atTail.value;
      assert [s[0]] + s[1..][..j] == s[..j + 1];
      assert s[1..][j + len..] == s[j + 1 + len..];
    } else {
      assert [s[0]] + s[1..] == s;
    }
  }

  /** `s.replace(/x/g, y)` for a single character `x`. */
  function ReplaceAll(s: string, x: char, y: char): string {
    seq(|s|, i requires 0 <= i < |s| => if s[i] == x then y else s[i])
  }

  /** Removing the first occurrence of a suffix shortens the string by the suffix's length. */
  lemma {:induction false} RemoveFirstOfSuffix(s: string, pattern: string)
    requires EndsWith(s, pattern)
    ensures |RemoveFirst(s, pattern)| == |s| - |pattern|
    decreases |s|
  {
    if |s| == |pattern| {
      assert s[..|pattern|] == s[|s| - |pattern|..];
    } else if s[..|pattern|] != pattern {
      assert s[1..][|s| - 1 - |pattern|..] == s[|s| - |pattern|..];
      RemoveFirstOfSuffix(s[1..], pattern);
    }
  }

  // ---------------------------------------------------------------------------
  // the order on names
  // ---------------------------------------------------------------------------

  /** Lexicographic order on code points, standing in for `localeCompare(...) <= 0`. */
  predicate LexLe(a: string, b: string) {
    a == [] || (b != [] && (a[0] < b[0] || (a[0] == b[0] && LexLe(a[1..], b[1..]))))
  }

  lemma {:induction false} LexTotal(a: string, b: string)
    ensures LexLe(a, b) || LexLe(b, a)
    decreases |a|
  {
    if a != [] && b != [] && a[0] == b[0] {
      LexTotal(a[1..], b[1..]);
    }
  }

  lemma {:induction false} LexTransitive(a: string, b: string, c: string)
    requires LexLe(a, b) && LexLe(b, c)
    ensures LexLe(a, c)
    decreases |a|
  {
    if a != [] && a[0] == b[0] && b[0] == c[0] {
      LexTransitive(a[1..], b[1..], c[1..]);
    }
  }

  lemma {:induction false} LexAntisymmetric(a: string, b: string)
    requires LexLe(a, b) && LexLe(b, a)
    ensures a == b
    decreases |a|
  {
    if a != [] {
      LexAntisymmetric(a[1..], b[1..]);
      assert a == [a[0]] + a[1..] && b == [b[0]] + b[1..];
    }
  }
}
