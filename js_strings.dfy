/**
 * The JavaScript string built-ins the storage client relies on:
 * `indexOf`, `replace` with a string pattern (first occurrence only),
 * `split` on a one-character separator, `Array.prototype.join`, and
 * the prefix tests written as `indexOf(p) === 0` or an anchored regex.
 */
module JsStrings {
  import opened Wrappers

  /** `pat` occurs in `s` starting at index `i`. */
  predicate OccursAt(s: string, pat: string, i: nat) {
    i + |pat| <= |s| && s[i..i + |pat|] == pat
  }

  /** `i` is where `pat` occurs first in `s`. */
  predicate IsFirstOccurrence(s: string, pat: string, i: nat) {
    OccursAt(s, pat, i) && forall j :: 0 <= j < i ==> !OccursAt(s, pat, j)
  }

  predicate HasPrefix(s: string, p: string) {
    |p| <= |s| && s[..|p|] == p
  }

  /** An occurrence past the first character of `s` is an occurrence in its tail. */
  lemma OccursInTail(s: string, pat: string)
    requires |s| > 0
    ensures forall j: nat :: 0 < j ==> (OccursAt(s, pat, j) <==> OccursAt(s[1..], pat, j - 1))
  {
    forall j: nat | 0 < j
      ensures OccursAt(s, pat, j) <==> OccursAt(s[1..], pat, j - 1)
    {
      if j + |pat| <= |s| {
        assert s[1..][j - 1..j - 1 + |pat|] == s[j..j + |pat|];
      }
    }
  }

  /** `String.prototype.indexOf`: the first index where `pat` occurs, if any. */
  function IndexOf(s: string, pat: string): (r: Option<nat>)
    ensures r.Some? ==> IsFirstOccurrence(s, pat, r.value)
    ensures r.None? ==> forall j: nat :: !OccursAt(s, pat, j)
    decreases |s|
  {
    if |s| < |pat| then None
    else if s[..|pat|] == pat then Some(0)
    else
      OccursInTail(s, pat);
      match IndexOf(s[1..], pat)
      case None => None
      case Some(i) => Some(i + 1)
  }

  /**
   * `s.replace(pat, rep)` with a string pattern and a replacement without
   * `$` patterns: only the first occurrence of `pat`, wherever it stands,
   * is replaced.
   */
  function ReplaceFirst(s: string, pat: string, rep: string): (r: string)
    ensures (forall j: nat :: !OccursAt(s, pat, j)) ==> r == s
    ensures forall i: nat :: IsFirstOccurrence(s, pat, i) ==> r == s[..i] + rep + s[i + |pat|..]
  {
    match IndexOf(s, pat)
    case None => s
    case Some(i) => s[..i] + rep + s[i + |pat|..]
  }

  /** A one-character pattern occurs where that character stands. */
  lemma CharAt(s: string, c: char, j: nat)
    requires j < |s|
    ensures OccursAt(s, [c], j) <==> s[j] == c
  {
    assert s[j..j + 1] == [s[j]];
  }

  /**
   * What `IndexOf` finds for a one-character pattern: the position of the
   * first such character, or nothing when the character is absent.
   */
  lemma FirstChar(s: string, c: char)
    ensures IndexOf(s, [c]).None? ==> forall j :: 0 <= j < |s| ==> s[j] != c
    ensures IndexOf(s, [c]).Some? ==>
              var i := IndexOf(s, [c]).value;
              i < |s| && s[i] == c && forall j :: 0 <= j < i ==> s[j] != c
  {
    var r := IndexOf(s, [c]);
    var n := if r.None? then |s| else r.value;
    forall j | 0 <= j < n ensures s[j] != c {
      CharAt(s, c, j);
    }
    if r.Some? {
      CharAt(s, c, n);
    }
  }

  /**
   * `s.split(sep)` for a one-character separator: the pieces between
   * separators, always at least one (the empty string splits to `[""]`).
   */
  function Split(s: string, sep: char): (parts: seq<string>)
    ensures |parts| >= 1
    decreases |s|
  {
    match IndexOf(s, [sep])
    case None => [s]
    case Some(i) => [s[..i]] + Split(s[i + 1..], sep)
  }

  /** `parts.join(sep)`; joining no parts gives the empty string. */
  function Join(parts: seq<string>, sep: string): string {
    if |parts| == 0 then ""
    else if |parts| == 1 then parts[0]
    else parts[0] + sep + Join(parts[1..], sep)
  }

  /** The first piece of a split is the text before the first separator. */
  lemma SplitFirst(s: string, sep: char, i: nat)
    requires IsFirstOccurrence(s, [sep], i)
    ensures Split(s, sep) == [s[..i]] + Split(s[i + 1..], sep)
  {
    var r := IndexOf(s, [sep]);
    assert r == Some(i);
  }

  /** No piece of a split contains the separator. */
  lemma {:induction false} SplitPieces(s: string, sep: char)
    ensures forall k :: 0 <= k < |Split(s, sep)| ==> sep !in Split(s, sep)[k]
    decreases |s|
  {
    FirstChar(s, sep);
    var r := IndexOf(s, [sep]);
    if r.Some? {
      var rest := s[r.value + 1..];
      SplitPieces(rest, sep);
      assert Split(s, sep) == [s[..r.value]] + Split(rest, sep);
    }
  }

  /**
   * Shifting the first piece off a split and joining the rest: the first
   * piece is the text before the first separator, the rest the text after
   * it; without a separator the rest is empty.
   */
  lemma ShiftJoin(s: string, sep: char)
    ensures var parts := Split(s, sep);
            && sep !in parts[0]
            && (sep in s ==> s == parts[0] + [sep] + Join(parts[1..], [sep]))
            && (sep !in s ==> parts[0] == s && Join(parts[1..], [sep]) == "")
  {
    FirstChar(s, sep);
    var r := IndexOf(s, [sep]);
    var parts := Split(s, sep);
    if r.Some? {
      var i := r.value;
      var rest := s[i + 1..];
      assert parts == [s[..i]] + Split(rest, sep);
      assert parts[0] == s[..i] && parts[1..] == Split(rest, sep);
      assert forall j :: 0 <= j < i ==> parts[0][j] != sep;
      assert s[i] == sep;
      JoinSplit(rest, sep);
      assert s == s[..i] + [sep] + rest;
    } else {
      assert parts == [s];
    }
  }

  /** Splitting on a character and joining with it gives back the string. */
  lemma {:induction false} JoinSplit(s: string, sep: char)
    ensures Join(Split(s, sep), [sep]) == s
    decreases |s|
  {
    FirstChar(s, sep);
    var r := IndexOf(s, [sep]);
    if r.Some? {
      var i := r.value;
      var rest := s[i + 1..];
      JoinSplit(rest, sep);
      assert Split(s, sep) == [s[..i]] + Split(rest, sep);
      assert s == s[..i] + [sep] + rest;
    }
  }

  /** A suffix of the text after position `i` is a suffix of the whole string. */
  lemma SuffixPastSeparator(s: string, i: nat, last: string, sep: char)
    requires i < |s| && s[i] == sep
    requires var rest := s[i + 1..];
             && |last| <= |rest| && rest[|rest| - |last|..] == last
             && (|last| < |rest| ==> rest[|rest| - |last| - 1] == sep)
    ensures |last| < |s| && s[|s| - |last|..] == last && s[|s| - |last| - 1] == sep
  {
    var rest := s[i + 1..];
    assert s[|s| - |last|..] == rest[|rest| - |last|..];
    if |last| < |rest| {
      assert s[|s| - |last| - 1] == rest[|rest| - |last| - 1];
    }
  }

  /**
   * The last piece of a split is the suffix after the last separator:
   * it ends the string, and unless it is the whole string a separator
   * stands just before it (`SplitPieces` says it holds no separator).
   */
  lemma {:induction false} SplitLast(s: string, sep: char)
    ensures var parts := Split(s, sep);
            var last := parts[|parts| - 1];
            && |last| <= |s|
            && s[|s| - |last|..] == last
            && (|last| < |s| ==> s[|s| - |last| - 1] == sep)
    decreases |s|
  {
    var r := IndexOf(s, [sep]);
    if r.Some? {
      var i := r.value;
      CharAt(s, sep, i);
      var rest := s[i + 1..];
      SplitFirst(s, sep, i);
      SplitLast(rest, sep);
      var tail := Split(rest, sep);
      var last := tail[|tail| - 1];
      assert Split(s, sep)[|Split(s, sep)| - 1] == last;
      SuffixPastSeparator(s, i, last, sep);
    } else {
      assert Split(s, sep) == [s];
    }
  }
}
