/** Python and Qt string operations that the outline engine relies on:
    `str.split('\n')`, `'\n'.join`, `str.splitlines()`, `str.split(maxsplit=1)`,
    the set-of-characters tests, and the name parts of `QFileInfo`. */
module Strs {

  datatype Option<T> = None | Some(value: T)

  predicate StartsWith(s: string, p: string) {
    |p| <= |s| && s[..|p|] == p
  }

  predicate EndsWith(s: string, p: string) {
    |p| <= |s| && s[|s| - |p|..] == p
  }

  // ---------------------------------------------------------------------------
  // str.split(sep) and sep.join(...)
  // ---------------------------------------------------------------------------

  /** Python's `s.split(sep)` for a one-character separator. */
  function Split(s: string, sep: char): (r: seq<string>)
    ensures |r| >= 1
    decreases |s|
  {
    if s == [] then [""]
    else
      var rest := Split(s[1..], sep);
      if s[0] == sep then [""] + rest else [[s[0]] + rest[0]] + rest[1..]
  }

  /** Python's `sep.join(parts)`. */
  function Join(parts: seq<string>, sep: string): string
    decreases |parts|
  {
    if |parts| == 0 then ""
    else if |parts| == 1 then parts[0]
    else parts[0] + sep + Join(parts[1..], sep)
  }

  /** Joining the pieces of a split with the same separator gives the text back. */
  lemma {:induction false} JoinSplit(s: string, sep: char)
    ensures Join(Split(s, sep), [sep]) == s
    decreases |s|
  {
    if s != [] {
      var rest := Split(s[1..], sep);
      JoinSplit(s[1..], sep);
      if s[0] == sep {
        assert Split(s, sep) == [""] + rest;
        assert Join([""] + rest, [sep]) == "" + [sep] + Join(rest, [sep]);
        assert s == [s[0]] + s[1..];
      } else {
        JoinConsHead(s[0], rest, [sep]);
        assert s == [s[0]] + s[1..];
      }
    }
  }

  /** Prepending a character to the first part prepends it to the joined text. */
  lemma {:induction false} JoinConsHead(c: char, parts: seq<string>, sep: string)
    requires |parts| >= 1
    ensures Join([[c] + parts[0]] + parts[1..], sep) == [c] + Join(parts, sep)
  {
    var q := [[c] + parts[0]] + parts[1..];
    assert q[1..] == parts[1..];
  }

  /** Splitting a join of separator-free parts gives the parts back. */
  lemma {:induction false} SplitJoin(parts: seq<string>, sep: char)
    requires |parts| >= 1
    requires forall i :: 0 <= i < |parts| ==> sep !in parts[i]
    ensures Split(Join(parts, [sep]), sep) == parts
    decreases |parts|, |parts[0]|
  {
    if parts[0] == [] {
      if |parts| == 1 {
        assert Join(parts, [sep]) == "";
      } else {
        var tail := parts[1..];
        assert Join(parts, [sep]) == [sep] + Join(tail, [sep]);
        SplitJoin(tail, sep);
        assert ([sep] + Join(tail, [sep]))[1..] == Join(tail, [sep]);
        assert [""] + tail == parts;
      }
    } else {
      var c := parts[0][0];
      var shorter := [parts[0][1..]] + parts[1..];
      assert shorter[1..] == parts[1..];
      forall i | 0 <= i < |shorter| ensures sep !in shorter[i] {
        if i == 0 {
          assert parts[0] == [c] + parts[0][1..];
        } else {
          assert shorter[i] == parts[i];
        }
      }
      SplitJoin(shorter, sep);
      JoinConsHead(c, shorter, [sep]);
      assert [[c] + shorter[0]] + shorter[1..] == parts by {
        assert [c] + parts[0][1..] == parts[0];
      }
      var t := Join(parts, [sep]);
      assert t == [c] + Join(shorter, [sep]);
      assert t[1..] == Join(shorter, [sep]);
      assert c != sep by { assert parts[0][0] in parts[0]; }
    }
  }

  // ---------------------------------------------------------------------------
  // str.splitlines()
  // ---------------------------------------------------------------------------

  /** The characters Python's `str.splitlines` treats as line boundaries
      (`\r\n` counts as one boundary). */
  predicate IsLineBreak(c: char) {
    c == '\n' || c == '\r' || c == '\U{0b}' || c == '\U{0c}' || c == '\U{1c}' || c == '\U{1d}'
    || c == '\U{1e}' || c == '\U{85}' || c == '\U{2028}' || c == '\U{2029}'
  }

  /** Index of the first line boundary at or after `i`, or `|s|`. */
  function NextBreak(s: string, i: nat): (j: nat)
    requires i <= |s|
    ensures i <= j <= |s|
    ensures j < |s| ==> IsLineBreak(s[j])
    ensures forall k :: i <= k < j ==> !IsLineBreak(s[k])
    decreases |s| - i
  {
    if i == |s| || IsLineBreak(s[i]) then i else NextBreak(s, i + 1)
  }

  /** Python's `s.splitlines()` (without `keepends`): no trailing empty line. */
  function SplitLines(s: string): (r: seq<string>)
    ensures s == [] <==> r == []
    ensures forall i :: 0 <= i < |r| ==> forall k :: 0 <= k < |r[i]| ==> !IsLineBreak(r[i][k])
    decreases |s|
  {
    if s == [] then []
    else
      var j := NextBreak(s, 0);
      if j == |s| then [s]
      else
        var w := if s[j] == '\r' && j + 1 < |s| && s[j + 1] == '\n' then 2 else 1;
        [s[..j]] + SplitLines(s[j + w..])
  }

  /** A text without line boundaries is one line. */
  lemma SplitLinesSingle(s: string)
    requires s != []
    requires forall k :: 0 <= k < |s| ==> !IsLineBreak(s[k])
    ensures SplitLines(s) == [s]
  {
    assert NextBreak(s, 0) == |s|;
  }

  // ---------------------------------------------------------------------------
  // str.split() with maxsplit=1 (whitespace splitting)
  // ---------------------------------------------------------------------------

  /** The characters `str.isspace` accepts, which `str.split()` splits on. */
  predicate IsSpace(c: char) {
    c == ' ' || c == '\t' || c == '\n' || c == '\U{0b}' || c == '\U{0c}' || c == '\r'
    || c == '\U{1c}' || c == '\U{1d}' || c == '\U{1e}' || c == '\U{1f}' || c == '\U{85}'
    || c == '\U{a0}' || c == '\U{1680}' || ('\U{2000}' <= c <= '\U{200a}') || c == '\U{2028}'
    || c == '\U{2029}' || c == '\U{202f}' || c == '\U{205f}' || c == '\U{3000}'
  }

  /** `s` with its leading whitespace removed. */
  function SkipSpace(s: string): (r: string)
    ensures |r| <= |s|
    decreases |s|
  {
    if s != [] && IsSpace(s[0]) then SkipSpace(s[1..]) else s
  }

  /** A text of whitespace only is skipped entirely. */
  lemma {:induction false} SkipAllSpace(s: string)
    requires forall k :: 0 <= k < |s| ==> IsSpace(s[k])
    ensures SkipSpace(s) == []
    decreases |s|
  {
    if s != [] {
      assert forall k :: 0 <= k < |s[1..]| ==> IsSpace(s[1..][k]) by {
        forall k | 0 <= k < |s[1..]| ensures IsSpace(s[1..][k]) {
          assert s[1..][k] == s[k + 1];
        }
      }
      SkipAllSpace(s[1..]);
    }
  }

  /** `SkipSpace` drops a whitespace prefix and keeps the suffix from the first
      non-space character on. */
  lemma {:induction false} SkipSpaceShape(s: string)
    ensures s[|s| - |SkipSpace(s)|..] == SkipSpace(s)
    ensures SkipSpace(s) != [] ==> !IsSpace(SkipSpace(s)[0])
    ensures forall k :: 0 <= k < |s| - |SkipSpace(s)| ==> IsSpace(s[k])
    decreases |s|
  {
    if s != [] && IsSpace(s[0]) {
      SkipSpaceShape(s[1..]);
      assert s[1..][|s| - 1 - |SkipSpace(s)|..] == s[|s| - |SkipSpace(s)|..];
      forall k | 0 <= k < |s| - |SkipSpace(s)| ensures IsSpace(s[k]) {
        if k > 0 {
          assert s[k] == s[1..][k - 1];
        }
      }
    }
  }

  /** The longest prefix of `s` without whitespace. */
  function TakeToken(s: string): (r: string)
    ensures |r| <= |s|
    decreases |s|
  {
    if s == [] || IsSpace(s[0]) then [] else [s[0]] + TakeToken(s[1..])
  }

  /** Conversely, a prefix without whitespace that whitespace or the end follows is
      the token. */
  lemma {:induction false} TakeTokenUpTo(s: string, n: nat)
    requires n <= |s| && (n == |s| || IsSpace(s[n]))
    requires forall k :: 0 <= k < n ==> !IsSpace(s[k])
    ensures TakeToken(s) == s[..n]
    decreases n
  {
    if n > 0 {
      TakeTokenUpTo(s[1..], n - 1);
      assert s[..n] == [s[0]] + s[1..][..n - 1];
    }
  }

  /** `TakeToken` is a prefix without whitespace, followed by whitespace or the end. */
  lemma {:induction false} TakeTokenShape(s: string)
    ensures s[..|TakeToken(s)|] == TakeToken(s)
    ensures forall k :: 0 <= k < |TakeToken(s)| ==> !IsSpace(TakeToken(s)[k])
    ensures |TakeToken(s)| < |s| ==> IsSpace(s[|TakeToken(s)|])
    ensures s != [] && !IsSpace(s[0]) ==> TakeToken(s) != []
    decreases |s|
  {
    if s != [] && !IsSpace(s[0]) {
      TakeTokenShape(s[1..]);
      var r := TakeToken(s);
      assert r == [s[0]] + TakeToken(s[1..]);
      assert s[..|r|] == [s[0]] + s[1..][..|r| - 1];
      forall k | 0 <= k < |r| ensures !IsSpace(r[k]) {
        if k > 0 {
          assert r[k] == TakeToken(s[1..])[k - 1];
        }
      }
      if |r| < |s| {
        assert s[|r|] == s[1..][|r| - 1];
      }
    }
  }

  /** The first whitespace-separated word of `s` ("" when there is none). */
  function FirstWord(s: string): string {
    TakeToken(SkipSpace(s))
  }

  /** `s.split(maxsplit=1)`: at most two parts (see `SplitOnceShape`); the second
      part keeps its trailing whitespace. */
  function SplitOnce(s: string): seq<string> {
    var t := SkipSpace(s);
    if t == [] then []
    else
      var tok := TakeToken(t);
      var rest := SkipSpace(t[|tok|..]);
      if rest == [] then [tok] else [tok, rest]
  }

  /** The split has no part exactly for a text of whitespace; no part is empty and
      the first part holds no whitespace. */
  lemma SplitOnceShape(s: string)
    ensures |SplitOnce(s)| <= 2
    ensures |SplitOnce(s)| == 0 <==> forall k :: 0 <= k < |s| ==> IsSpace(s[k])
    ensures forall i :: 0 <= i < |SplitOnce(s)| ==> SplitOnce(s)[i] != []
    ensures |SplitOnce(s)| >= 1 ==> forall k :: 0 <= k < |SplitOnce(s)[0]| ==> !IsSpace(SplitOnce(s)[0][k])
  {
    var t := SkipSpace(s);
    SkipSpaceShape(s);
    if t != [] {
      assert !IsSpace(s[|s| - |t|]);
      TakeTokenShape(t);
    }
  }

  /** The second part of the split is a proper suffix of `s` that starts with a
      non-space character. */
  lemma SplitOnceRest(s: string)
    ensures |SplitOnce(s)| == 2 ==>
      EndsWith(s, SplitOnce(s)[1]) && !IsSpace(SplitOnce(s)[1][0]) && |SplitOnce(s)[1]| < |s|
  {
    var t := SkipSpace(s);
    SkipSpaceShape(s);
    if t != [] {
      var rest := AfterWord(t);
      SuffixOfSuffix(s, t, rest);
    }
  }

  /** What follows the first word of `t` and the whitespace after it. */
  function AfterWord(t: string): (rest: string)
    requires t != [] && !IsSpace(t[0])
    ensures |rest| < |t| && t[|t| - |rest|..] == rest
    ensures rest != [] ==> !IsSpace(rest[0])
  {
    var tok := TakeToken(t);
    TakeTokenShape(t);
    var after := t[|tok|..];
    assert t[|t| - |after|..] == after;
    var rest := SkipSpace(after);
    SkipSpaceShape(after);
    SuffixOfSuffix(t, after, rest);
    rest
  }

  /** The first part of the split is the first word. */
  lemma SplitOnceFirst(s: string)
    ensures SplitOnce(s) != [] ==> SplitOnce(s)[0] == FirstWord(s)
  {
  }

  lemma SuffixOfSuffix(s: string, t: string, u: string)
    requires |t| <= |s| && s[|s| - |t|..] == t
    requires |u| <= |t| && t[|t| - |u|..] == u
    ensures EndsWith(s, u)
  {
    assert s[|s| - |u|..] == t[|t| - |u|..];
  }

  // ---------------------------------------------------------------------------
  // The set-of-characters tests `len(set(s)) == 1` and `len(set(s)) > 1`
  // ---------------------------------------------------------------------------

  /** `len(set(s)) == 1`: `s` is one character repeated. */
  predicate OneDistinct(s: string) {
    |s| > 0 && forall k :: 0 <= k < |s| ==> s[k] == s[0]
  }

  /** `len(set(s)) > 1`: `s` is non-empty and not one character repeated. */
  predicate ManyDistinct(s: string) {
    |s| > 0 && !OneDistinct(s)
  }

  /** `ManyDistinct` holds exactly when two positions hold different characters. */
  lemma ManyDistinctMeaning(s: string)
    ensures ManyDistinct(s) <==> exists i, j :: 0 <= i < |s| && 0 <= j < |s| && s[i] != s[j]
  {
    if exists i, j :: 0 <= i < |s| && 0 <= j < |s| && s[i] != s[j] {
      var i, j :| 0 <= i < |s| && 0 <= j < |s| && s[i] != s[j];
      assert s[i] != s[0] || s[j] != s[0];
    }
  }

  /** `set(t) == {'#'}`. */
  predicate AllHashes(t: string) {
    |t| > 0 && forall k :: 0 <= k < |t| ==> t[k] == '#'
  }

  // ---------------------------------------------------------------------------
  // QFileInfo name parts (with '/' as the directory separator)
  // ---------------------------------------------------------------------------

  /** `QFileInfo(p).fileName()`: the text after the last '/' (see `FileNameShape`). */
  function FileName(p: string): string
    decreases |p|
  {
    if p == [] || p[|p| - 1] == '/' then []
    else FileName(p[..|p| - 1]) + [p[|p| - 1]]
  }

  /** The file name ends the path, holds no '/' and follows a '/' unless it is the
      whole path. */
  lemma {:induction false} FileNameShape(p: string)
    ensures |FileName(p)| <= |p| && p[|p| - |FileName(p)|..] == FileName(p)
    ensures '/' !in FileName(p)
    ensures |FileName(p)| < |p| ==> p[|p| - |FileName(p)| - 1] == '/'
    decreases |p|
  {
    if !(p == [] || p[|p| - 1] == '/') {
      var q := p[..|p| - 1];
      FileNameShape(q);
      assert p[|p| - |FileName(p)|..] == q[|q| - |FileName(q)|..] + [p[|p| - 1]];
    }
  }

  /** Index of the first occurrence of `c` in `s`. */
  function FirstIndex(s: string, c: char): (k: nat)
    requires c in s
    ensures k < |s| && s[k] == c
    decreases |s|
  {
    if s[0] == c then 0
    else
      assert c in s[1..] by {
        var j :| 0 <= j < |s| && s[j] == c;
        assert s[1..][j - 1] == c;
      }
      FirstIndex(s[1..], c) + 1
  }

  /** No `c` comes before its first occurrence. */
  lemma {:induction false} FirstIndexShape(s: string, c: char)
    requires c in s
    ensures c !in s[..FirstIndex(s, c)]
    decreases |s|
  {
    if s[0] != c {
      assert c in s[1..] by {
        var j :| 0 <= j < |s| && s[j] == c;
        assert s[1..][j - 1] == c;
      }
      FirstIndexShape(s[1..], c);
      var k := FirstIndex(s[1..], c);
      assert s[..k + 1] == [s[0]] + s[1..][..k];
    }
  }

  /** The text after the first occurrence of `c`, or "" when `c` does not occur. */
  function AfterFirst(s: string, c: char): string {
    if c in s then s[FirstIndex(s, c) + 1..] else []
  }

  /** The text after the last occurrence of `c`, or "" when `c` does not occur
      (see `AfterLastShape`). */
  function AfterLast(s: string, c: char): string
    decreases |s|
  {
    if s == [] || s[|s| - 1] == c || c !in s then []
    else AfterLast(s[..|s| - 1], c) + [s[|s| - 1]]
  }

  /** The text after the last `c` ends `s`, holds no `c` and follows a `c`. */
  lemma {:induction false} AfterLastShape(s: string, c: char)
    ensures |AfterLast(s, c)| <= |s| && s[|s| - |AfterLast(s, c)|..] == AfterLast(s, c)
    ensures c !in AfterLast(s, c)
    ensures c in s ==> |AfterLast(s, c)| < |s| && s[|s| - |AfterLast(s, c)| - 1] == c
    ensures c !in s ==> AfterLast(s, c) == []
    decreases |s|
  {
    if !(s == [] || s[|s| - 1] == c || c !in s) {
      var q := s[..|s| - 1];
      assert c in q by {
        var k :| 0 <= k < |s| && s[k] == c;
        assert q[k] == c;
      }
      AfterLastShape(q, c);
      assert s[|s| - |AfterLast(s, c)|..] == q[|q| - |AfterLast(q, c)|..] + [s[|s| - 1]];
    }
  }

  /** `QFileInfo(p).completeSuffix()`: everything after the first '.' of the file name. */
  function CompleteSuffix(p: string): string {
    AfterFirst(FileName(p), '.')
  }

  /** `QFileInfo(p).suffix()`: everything after the last '.' of the file name. */
  function LastSuffix(p: string): string {
    AfterLast(FileName(p), '.')
  }

  /** A path without '/' is its own file name. */
  lemma {:induction false} FileNameNoSlash(p: string)
    requires '/' !in p
    ensures FileName(p) == p
    decreases |p|
  {
    if p != [] {
      var q := p[..|p| - 1];
      assert '/' !in q;
      FileNameNoSlash(q);
      assert p == q + [p[|p| - 1]];
    }
  }

  /** After the last `c` of `s + [c] + t` comes `t` when `t` holds no `c`. */
  lemma {:induction false} AfterLastOfSplit(s: string, c: char, t: string)
    requires c !in t
    ensures AfterLast(s + [c] + t, c) == t
    decreases |t|
  {
    var u := s + [c] + t;
    assert u[|s|] == c;
    if t != [] {
      var t' := t[..|t| - 1];
      assert c !in t';
      assert u[..|u| - 1] == s + [c] + t';
      assert u[|u| - 1] == t[|t| - 1];
      AfterLastOfSplit(s, c, t');
      assert t == t' + [t[|t| - 1]];
    }
  }

  /** The complete suffix is the file name after its first dot. */
  lemma CompleteSuffixShape(p: string)
    ensures CompleteSuffix(p) != [] ==>
      exists b :: '.' !in b && FileName(p) == b + "." + CompleteSuffix(p)
  {
    var f := FileName(p);
    if '.' in f {
      var k := FirstIndex(f, '.');
      FirstIndexShape(f, '.');
      assert f == f[..k] + "." + f[k + 1..];
    }
  }

  /** The text after the last `c` ends the text after the first `c`, and the two
      agree when the latter holds no further `c`. */
  lemma {:induction false} AfterLastEndsAfterFirst(s: string, c: char)
    ensures EndsWith(AfterFirst(s, c), AfterLast(s, c))
    ensures c !in AfterFirst(s, c) ==> AfterLast(s, c) == AfterFirst(s, c)
  {
    AfterLastShape(s, c);
    if c in s {
      var k := FirstIndex(s, c);
      FirstIndexShape(s, c);
      var ls := AfterLast(s, c);
      var m := |s| - |ls| - 1;
      assert s[m] == c;
      assert m >= k;
      var cs := s[k + 1..];
      assert cs[|cs| - |ls|..] == ls;
      if m != k {
        assert cs[m - k - 1] == c;
      }
    }
  }

  /** The last suffix of a path ends its complete suffix, and they coincide when the
      file name has one dot. */
  lemma SuffixParts(p: string)
    ensures EndsWith(CompleteSuffix(p), LastSuffix(p))
    ensures '.' !in CompleteSuffix(p) ==> LastSuffix(p) == CompleteSuffix(p)
  {
    AfterLastEndsAfterFirst(FileName(p), '.');
  }
}
