/** The Markdown heading outliner `parse_markdown` of core/parsers/markdown.py (and its
    identical twin `_parse_markdown` of core/parser.py).  The file text is split on
    '\n'; one pass over the lines, which tracks ``` fences, records a title
    `(line, level)` for every ATX heading (`# ...`) and every Setext heading (a
    line underlined by `===` or `---`).  The text is then cut into one fragment per
    title, and every title is attached under the nearest earlier title of a
    strictly smaller level, or under the parsed item itself. */
module Markdown {
  import opened Strs
  import opened Store
  import opened Outline

  /** A recorded heading: the line it starts on and its level (0 for `#`). */
  datatype Title = Title(line: int, level: nat)

  // ---------------------------------------------------------------------------
  // Classifying one line
  // ---------------------------------------------------------------------------

  /** The Setext level `line` gives the line before it (see `UnderlineMeaning`). */
  function UnderlineLevel(previous: string, line: string): Option<nat> {
    if previous == [] || StartsWith(previous, " ") || !OneDistinct(line) then None
    else if StartsWith(line, "===") then Some(0)
    else if StartsWith(line, "---") then Some(1)
    else None
  }

  /** A Setext underline is a line of '=' only (level 0) or of '-' only (level 1),
      at least three long, under a non-empty line that does not start with a space. */
  lemma UnderlineMeaning(previous: string, line: string)
    ensures UnderlineLevel(previous, line).Some? ==> OneDistinct(line) && |line| >= 3
    ensures UnderlineLevel(previous, line) == Some(0) <==>
      previous != [] && previous[0] != ' ' && OneDistinct(line) && StartsWith(line, "===")
    ensures UnderlineLevel(previous, line) == Some(1) <==>
      previous != [] && previous[0] != ' ' && OneDistinct(line) && StartsWith(line, "---")
    ensures UnderlineLevel(previous, line) in {None, Some(0), Some(1)}
  {
  }

  /** The ATX level of `line` (see `AtxMeaning`): the source takes the first word of
      `line.split(maxsplit=1)`, which is `FirstWord` (see `AtxAgrees`); unlike the
      source, a line of whitespace only is simply not a heading. */
  function AtxLevel(line: string): Option<nat> {
    if !ManyDistinct(line) then None
    else
      var word := FirstWord(line);
      if AllHashes(word) then Some(|word| - 1) else None
  }

  /** `n` hash characters. */
  function Hashes(n: nat): (r: string)
    ensures |r| == n && forall k :: 0 <= k < n ==> r[k] == '#'
  {
    if n == 0 then [] else Hashes(n - 1) + "#"
  }

  /** A line is a heading of level `l` exactly when it has two different
      characters and, after its leading whitespace, starts with `l + 1` '#'
      followed by whitespace or by the end of the line; a line of whitespace only
      is never a heading. */
  lemma AtxMeaning(line: string)
    ensures AtxLevel(line).Some? ==> ManyDistinct(line)
    ensures AtxLevel(line).Some? ==>
      var t := SkipSpace(line);
      var n := AtxLevel(line).value + 1;
      StartsWith(t, Hashes(n)) && (|t| == n || IsSpace(t[n]))
    ensures forall n: nat {:trigger Hashes(n)} ::
      var t := SkipSpace(line);
      n > 0 && ManyDistinct(line) && StartsWith(t, Hashes(n)) && (|t| == n || IsSpace(t[n])) ==>
        AtxLevel(line) == Some(n - 1)
    ensures (forall k :: 0 <= k < |line| ==> IsSpace(line[k])) ==> AtxLevel(line) == None
  {
    var t := SkipSpace(line);
    SkipSpaceShape(line);
    TakeTokenShape(t);
    if AtxLevel(line).Some? {
      var w := FirstWord(line);
      assert Hashes(|w|) == w;
    }
    forall n: nat | n > 0 && ManyDistinct(line) && StartsWith(t, Hashes(n)) && (|t| == n || IsSpace(t[n]))
      ensures AtxLevel(line) == Some(n - 1)
    {
      AtxFromHashes(line, n);
    }
    if forall k :: 0 <= k < |line| ==> IsSpace(line[k]) {
      SkipAllSpace(line);
    }
  }

  /** One instance of the converse half of `AtxMeaning`. */
  lemma AtxFromHashes(line: string, n: nat)
    requires n > 0 && ManyDistinct(line)
    requires var t := SkipSpace(line); StartsWith(t, Hashes(n)) && (|t| == n || IsSpace(t[n]))
    ensures AtxLevel(line) == Some(n - 1)
  {
    var t := SkipSpace(line);
    assert t[..n] == Hashes(n);
    TakeTokenUpTo(t, n);
    assert FirstWord(line) == Hashes(n);
  }

  /** The outcome of the heading test as the source writes it. */
  datatype AtxOutcome = NotHeading | Heading(level: nat) | IndexError

  /** `line.split(maxsplit=1)[0]` as written at core/parsers/markdown.py:47-50. */
  function AtxAsWritten(line: string): AtxOutcome {
    if !ManyDistinct(line) then NotHeading
    else
      var parts := SplitOnce(line);
      if parts == [] then IndexError
      else if AllHashes(parts[0]) then Heading(|parts[0]| - 1)
      else NotHeading
  }

  /** The written test fails exactly on a line of whitespace only that holds two
      different characters: it splits into no word, so there is no first word. */
  lemma AtxAsWrittenFailsExactly(line: string)
    ensures AtxAsWritten(line) == IndexError <==>
      ManyDistinct(line) && forall k :: 0 <= k < |line| ==> IsSpace(line[k])
  {
    SplitOnceShape(line);
  }

  /** Wherever the written test does not fail, the corrected test agrees with it. */
  lemma AtxAgrees(line: string)
    ensures AtxAsWritten(line) != IndexError ==>
      (AtxLevel(line).Some? <==> AtxAsWritten(line).Heading?) &&
      (AtxLevel(line).Some? ==> AtxAsWritten(line).level == AtxLevel(line).value)
  {
    SplitOnceFirst(line);
    SplitOnceShape(line);
    AtxMeaning(line);
  }

  /** The line " \t" (a space and a tab) makes the written test fail; the corrected
      test says it is no heading. */
  lemma AtxAsWrittenFails()
    ensures AtxAsWritten(" \t") == IndexError
    ensures AtxLevel(" \t") == None
  {
    assert " \t"[0] != " \t"[1];
    AtxAsWrittenFailsExactly(" \t");
    AtxMeaning(" \t");
  }

  /** `# A` is a heading of level 0. */
  lemma AtxOneHash()
    ensures AtxLevel("# A") == Some(0)
  {
    assert "# A"[0] != "# A"[1];
    assert SkipSpace("# A") == "# A";
    assert TakeToken("# A") == "#" by {
      assert TakeToken(" A") == [];
    }
  }

  /** Leading whitespace is skipped: `  ### A` is a heading of level 2. */
  lemma AtxIndented()
    ensures AtxLevel("  ### A") == Some(2)
  {
    assert "  ### A"[0] != "  ### A"[2];
    assert SkipSpace("  ### A") == "### A" by {
      assert SkipSpace(" ### A") == "### A";
    }
    assert TakeToken("### A") == "###" by {
      assert TakeToken(" A") == [];
      assert TakeToken("# A") == "#";
      assert TakeToken("## A") == "##";
    }
  }

  /** `#A` is no heading: its first word is not made of '#' only. */
  lemma AtxNeedsSpace()
    ensures AtxLevel("#A") == None
  {
    assert SkipSpace("#A") == "#A";
    assert TakeToken("A") == "A" by {
      assert TakeToken("") == "";
    }
    assert TakeToken("#A") == "#A";
    assert FirstWord("#A")[1] == 'A';
  }

  /** `###` is no heading: it holds one distinct character. */
  lemma AtxNeedsTwoCharacters()
    ensures AtxLevel("###") == None
  {
    assert OneDistinct("###");

  }

  // ---------------------------------------------------------------------------
  // The title scan, as a fold over the lines
  // ---------------------------------------------------------------------------

  /** `titles`, `in_code_block` and `previous_line` of the scan loop. */
  datatype ScanState = ScanState(titles: seq<Title>, inCode: bool, previous: string)

  /** The titles line `k` (text `line`) adds when it is outside a fence: a Setext
      title on the line before, then an ATX title on line `k`. */
  function Found(previous: string, k: nat, line: string): seq<Title> {
    (match UnderlineLevel(previous, line) case Some(l) => [Title(k - 1, l)] case None => [])
    + (match AtxLevel(line) case Some(l) => [Title(k, l)] case None => [])
  }

  /** One iteration of the scan loop for line `k`. */
  function Step(s: ScanState, k: nat, line: string): ScanState {
    var inCode := if StartsWith(line, "```") then !s.inCode else s.inCode;
    if inCode then ScanState(s.titles, true, line)
    else ScanState(s.titles + Found(s.previous, k, line), false, line)
  }

  /** The loop state after the first `n` lines. */
  function ScanPrefix(lines: seq<string>, n: nat): ScanState
    requires n <= |lines|
    decreases n
  {
    if n == 0 then ScanState([], false, "")
    else Step(ScanPrefix(lines, n - 1), n - 1, lines[n - 1])
  }

  /** The titles of a document: they lie within it, in document order (see
      `ScanShape`). */
  function Titles(lines: seq<string>): (ts: seq<Title>)
    ensures Within(ts, 0, |lines|) && Sorted(ts)
  {
    ScanShape(lines, |lines|);
    ScanPrefix(lines, |lines|).titles
  }

  /** The scan loop of core/parsers/markdown.py:32-51. */
  method ScanTitles(lines: seq<string>) returns (titles: seq<Title>)
    ensures titles == Titles(lines)
  {
    titles := [];
    var previous := "";
    var inCode := false;
    var n := 0;
    while n < |lines|
      invariant n <= |lines|
      invariant ScanPrefix(lines, n) == ScanState(titles, inCode, previous)
    {
      var line := lines[n];
      ghost var before := ScanState(titles, inCode, previous);
      if StartsWith(line, "```") {
        inCode := !inCode;
      }
      if !inCode {
        var under := UnderlineLevel(previous, line);
        ghost var u: seq<Title> := [];
        if under.Some? {
          titles := titles + [Title(n - 1, under.value)];
          u := [Title(n - 1, under.value)];
        }
        var atx := AtxLevel(line);
        ghost var a: seq<Title> := [];
        if atx.Some? {
          titles := titles + [Title(n, atx.value)];
          a := [Title(n, atx.value)];
        }
        assert titles == before.titles + u + a;
        assert Found(previous, n, line) == u + a;
        assert before.titles + u + a == before.titles + (u + a);
      }
      assert Step(before, n, line) == ScanState(titles, inCode, line);
      previous := line;
      n := n + 1;
    }
  }

  // ---------------------------------------------------------------------------
  // What the scan finds
  // ---------------------------------------------------------------------------

  /** How many of the first `n` lines start with ```. */
  function FenceCount(lines: seq<string>, n: nat): nat
    requires n <= |lines|
    decreases n
  {
    if n == 0 then 0
    else FenceCount(lines, n - 1) + if StartsWith(lines[n - 1], "```") then 1 else 0
  }

  /** Line `k` lies in a fenced block: an odd number of fence lines up to and
      including it (an opening fence line is inside, a closing one is not). */
  predicate InCode(lines: seq<string>, k: nat)
    requires k < |lines|
  {
    FenceCount(lines, k + 1) % 2 == 1
  }

  /** Line `j` is an ATX heading of level `l` outside any fence. */
  predicate AtxTitleAt(lines: seq<string>, j: int, l: nat) {
    0 <= j < |lines| && !InCode(lines, j) && AtxLevel(lines[j]) == Some(l)
  }

  /** Line `j` is underlined by line `j + 1`, which lies outside any fence. */
  predicate SetextTitleAt(lines: seq<string>, j: int, l: nat) {
    0 <= j && j + 1 < |lines| && !InCode(lines, j + 1) && UnderlineLevel(lines[j], lines[j + 1]) == Some(l)
  }

  /** What one line adds: at most a title on the line before it, then one on it. */
  lemma FoundShape(previous: string, k: nat, line: string)
    requires k == 0 ==> previous == ""
    ensures Within(Found(previous, k, line), if k == 0 then 0 else k - 1, k + 1)
    ensures Sorted(Found(previous, k, line))
  {
    UnderlineMeaning(previous, line);
    var a: seq<Title> := match UnderlineLevel(previous, line) case Some(l) => [Title(k - 1, l)] case None => [];
    var b: seq<Title> := match AtxLevel(line) case Some(l) => [Title(k, l)] case None => [];
    assert Found(previous, k, line) == a + b;
    if UnderlineLevel(previous, line).Some? {
      assert k > 0;
    }
  }

  /** A title is among those line `k` adds exactly by one of the two rules. */
  lemma FoundMember(previous: string, k: nat, line: string, j: int, l: nat)
    ensures Title(j, l) in Found(previous, k, line) <==>
      (j == k && AtxLevel(line) == Some(l)) || (j == k - 1 && UnderlineLevel(previous, line) == Some(l))
  {
  }

  /** Title lines never decrease along the list. */
  predicate Sorted(ts: seq<Title>) {
    forall i, j :: 0 <= i < j < |ts| ==> ts[i].line <= ts[j].line
  }

  /** Every title line lies in `[lo, hi)`. */
  predicate Within(ts: seq<Title>, lo: int, hi: int) {
    forall i :: 0 <= i < |ts| ==> lo <= ts[i].line < hi
  }

  lemma SortedAppend(a: seq<Title>, b: seq<Title>, lo: int, m: int, hi: int)
    requires Sorted(a) && Sorted(b)
    requires Within(a, lo, m + 1) && Within(b, m, hi)
    requires lo <= m < hi
    ensures Sorted(a + b) && Within(a + b, lo, hi)
  {
    forall i, j | 0 <= i < j < |a + b| ensures (a + b)[i].line <= (a + b)[j].line {
      if j < |a| {
      } else if i >= |a| {
        assert (a + b)[i] == b[i - |a|] && (a + b)[j] == b[j - |a|];
      } else {
        assert (a + b)[i] == a[i] && (a + b)[j] == b[j - |a|];
      }
    }
    forall i | 0 <= i < |a + b| ensures lo <= (a + b)[i].line < hi {
      if i >= |a| {
        assert (a + b)[i] == b[i - |a|];
      }
    }
  }

  /** The fence parity flips exactly at a fence line. */
  lemma FenceStep(lines: seq<string>, k: nat)
    requires k < |lines|
    ensures FenceCount(lines, k + 1) == FenceCount(lines, k) + if StartsWith(lines[k], "```") then 1 else 0
    ensures (FenceCount(lines, k + 1) % 2 == 1) ==
      if StartsWith(lines[k], "```") then FenceCount(lines, k) % 2 != 1 else FenceCount(lines, k) % 2 == 1
  {
    var c := FenceCount(lines, k);
    if StartsWith(lines[k], "```") {
      assert (c + 1) % 2 == 1 <==> c % 2 == 0;
    }
  }

  /** The loop state is the fence parity and the last line read; its titles lie
      in the lines read, in non-decreasing order. */
  lemma {:induction false} ScanShape(lines: seq<string>, n: nat)
    requires n <= |lines|
    ensures ScanPrefix(lines, n).inCode == (FenceCount(lines, n) % 2 == 1)
    ensures ScanPrefix(lines, n).previous == if n == 0 then "" else lines[n - 1]
    ensures Within(ScanPrefix(lines, n).titles, 0, n)
    ensures Sorted(ScanPrefix(lines, n).titles)
    decreases n
  {
    if n > 0 {
      ScanShape(lines, n - 1);
      var s := ScanPrefix(lines, n - 1);
      var line := lines[n - 1];
      FenceStep(lines, n - 1);
      assert ScanPrefix(lines, n) == Step(s, n - 1, line);
      var inCode := if StartsWith(line, "```") then !s.inCode else s.inCode;
      if !inCode {
        var f := Found(s.previous, n - 1, line);
        FoundShape(s.previous, n - 1, line);
        SortedAppend(s.titles, f, 0, if n >= 2 then n - 2 else 0, n);
        assert ScanPrefix(lines, n).titles == s.titles + f;
      }
    }
  }

  /** Title `(j, l)` is among those of the first `n` lines exactly when one of the
      two title rules holds within them. */
  predicate TitleWithin(lines: seq<string>, n: nat, j: int, l: nat)
    requires n <= |lines|
  {
    Title(j, l) in ScanPrefix(lines, n).titles <==>
      (j < n && AtxTitleAt(lines, j, l)) || (j + 1 < n && SetextTitleAt(lines, j, l))
  }

  /** The titles among the first `n` lines. */
  lemma {:induction false} PrefixTitles(lines: seq<string>, n: nat, j: int, l: nat)
    requires n <= |lines|
    ensures TitleWithin(lines, n, j, l)
    decreases n
  {
    if n > 0 {
      PrefixTitles(lines, n - 1, j, l);
      PrefixTitlesNext(lines, n, j, l);
    }
  }

  /** The statement of `PrefixTitles` carries over from `n - 1` lines to `n`. */
  lemma PrefixTitlesNext(lines: seq<string>, n: nat, j: int, l: nat)
    requires 0 < n <= |lines| && TitleWithin(lines, n - 1, j, l)
    ensures TitleWithin(lines, n, j, l)
  {
    TitlesAtLastLine(lines, n, j, l);
    PrefixTitlesStep(lines, n, j, l);
  }

  /** Line `n - 1` adds exactly the titles it completes, and only outside a fence. */
  lemma PrefixTitlesStep(lines: seq<string>, n: nat, j: int, l: nat)
    requires 0 < n <= |lines|
    ensures Title(j, l) in ScanPrefix(lines, n).titles <==>
      Title(j, l) in ScanPrefix(lines, n - 1).titles ||
      (j == n - 1 && !InCode(lines, n - 1) && AtxLevel(lines[n - 1]) == Some(l)) ||
      (j == n - 2 && n > 1 && !InCode(lines, n - 1) && UnderlineLevel(lines[n - 2], lines[n - 1]) == Some(l))
  {
    var k := n - 1;
    var s := ScanPrefix(lines, k);
    var t := ScanPrefix(lines, n);
    ScanShape(lines, k);
    ScanShape(lines, n);
    assert t == Step(s, k, lines[k]);
    if t.inCode {
      assert t.titles == s.titles;
    } else {
      var f := Found(s.previous, k, lines[k]);
      assert t.titles == s.titles + f;
      FoundMember(s.previous, k, lines[k], j, l);
      UnderlineMeaning(s.previous, lines[k]);
      assert Title(j, l) in t.titles <==> Title(j, l) in s.titles || Title(j, l) in f;
    }
  }

  /** What line `n - 1` contributes to the two title rules. */
  lemma TitlesAtLastLine(lines: seq<string>, n: nat, j: int, l: nat)
    requires 0 < n <= |lines|
    ensures (j < n && AtxTitleAt(lines, j, l)) <==>
      (j < n - 1 && AtxTitleAt(lines, j, l)) ||
      (j == n - 1 && !InCode(lines, n - 1) && AtxLevel(lines[n - 1]) == Some(l))
    ensures (j + 1 < n && SetextTitleAt(lines, j, l)) <==>
      (j + 1 < n - 1 && SetextTitleAt(lines, j, l)) ||
      (j == n - 2 && n > 1 && !InCode(lines, n - 1) && UnderlineLevel(lines[n - 2], lines[n - 1]) == Some(l))
  {
  }

  /** A title is recorded exactly for an ATX heading outside fences and for a line
      underlined by a Setext line outside fences. */
  lemma TitlesIff(lines: seq<string>, j: int, l: nat)
    ensures Title(j, l) in Titles(lines) <==> AtxTitleAt(lines, j, l) || SetextTitleAt(lines, j, l)
  {
    PrefixTitles(lines, |lines|, j, l);
  }

  /** No line from an opening ``` line up to (not including) the closing ``` line
      is ever a title. */
  lemma FencedLinesNoTitle(lines: seq<string>, k: nat, l: nat)
    requires k < |lines| && InCode(lines, k)
    ensures Title(k, l) !in Titles(lines)
  {
    TitlesIff(lines, k, l);
    if k + 1 < |lines| {
      FenceStep(lines, k + 1);
      UnderlineMeaning(lines[k], lines[k + 1]);
      if StartsWith(lines[k + 1], "```") {
        assert lines[k + 1][0] == '`';
      }
    }
  }

  /** The closing fence line itself can be underlined into a title. */
  lemma ClosingFenceUnderlined()
    ensures Titles(["```", "x", "```", "==="]) == [Title(2, 0)]
  {
    var lines := ["```", "x", "```", "==="];
    assert StartsWith(lines[0], "```") && StartsWith(lines[2], "```");
    assert lines[1][0] != '`' && lines[3][0] != '`';
    assert OneDistinct(lines[3]) && StartsWith(lines[3], "===");
    assert !StartsWith(lines[2], " ") by { assert lines[2][0] != ' '; }
    assert UnderlineLevel(lines[2], lines[3]) == Some(0);
    assert AtxLevel(lines[3]) == None;
    assert ScanPrefix(lines, 1) == ScanState([], true, "```");
    assert ScanPrefix(lines, 2) == ScanState([], true, "x");
    assert ScanPrefix(lines, 3) == ScanState([], false, "```");
    assert ScanPrefix(lines, 4) == ScanState([Title(2, 0)], false, "===");
  }

  // ---------------------------------------------------------------------------
  // Cutting the text into fragments
  // ---------------------------------------------------------------------------

  /** The text the parsed item keeps (core/parsers/markdown.py:54-62): the whole
      file when there is no title, a bare `@others` when the first title is on
      line 0, else the lines before the first title. */
  function RootText(lines: seq<string>, titles: seq<Title>): string
    requires Within(titles, 0, |lines|)
  {
    if titles == [] then Join(lines, "\n")
    else if titles[0].line == 0 then "@others"
    else Join(lines[..titles[0].line], "\n")
  }

  /** Title `i` is followed by a title of a deeper level. */
  predicate HasChild(titles: seq<Title>, i: nat)
    requires i < |titles|
  {
    i + 1 < |titles| && titles[i + 1].level > titles[i].level
  }

  /** The lines of title `i`: from its line up to the next title's line, or to the
      end of the file for the last title. */
  function Body(lines: seq<string>, titles: seq<Title>, i: nat): seq<string>
    requires Within(titles, 0, |lines|) && Sorted(titles) && i < |titles|
  {
    lines[titles[i].line..if i + 1 == |titles| then |lines| else titles[i + 1].line]
  }

  /** The fragment of title `i`: its lines, with an `@others` line and an empty
      line appended when a deeper title follows. */
  function Doc(lines: seq<string>, titles: seq<Title>, i: nat): seq<string>
    requires Within(titles, 0, |lines|) && Sorted(titles) && i < |titles|
  {
    Body(lines, titles, i) + if HasChild(titles, i) then ["@others", ""] else []
  }

  /** The bodies of titles `from` onwards, one after the other. */
  function Bodies(lines: seq<string>, titles: seq<Title>, from: nat): seq<string>
    requires Within(titles, 0, |lines|) && Sorted(titles) && from <= |titles|
    decreases |titles| - from
  {
    if from == |titles| then [] else Body(lines, titles, from) + Bodies(lines, titles, from + 1)
  }

  lemma {:induction false} BodiesCover(lines: seq<string>, titles: seq<Title>, from: nat)
    requires Within(titles, 0, |lines|) && Sorted(titles) && from < |titles|
    ensures Bodies(lines, titles, from) == lines[titles[from].line..]
    decreases |titles| - from
  {
    if from + 1 < |titles| {
      BodiesCover(lines, titles, from + 1);
      var a, b := titles[from].line, titles[from + 1].line;
      assert lines[a..b] + lines[b..] == lines[a..];
    }
  }

  /** The text before the first title and the bodies of the titles, in order,
      are the lines of the file, each exactly once. */
  lemma Partition(lines: seq<string>, titles: seq<Title>)
    requires Within(titles, 0, |lines|) && Sorted(titles) && titles != []
    ensures lines[..titles[0].line] + Bodies(lines, titles, 0) == lines
  {
    BodiesCover(lines, titles, 0);
    assert lines[..titles[0].line] + lines[titles[0].line..] == lines;
  }

  /** A file without titles is kept whole by the parsed item. */
  lemma RootTextPlain(content: string)
    requires Titles(Split(content, '\n')) == []
    ensures RootText(Split(content, '\n'), []) == content
  {
    JoinSplit(content, '\n');
  }

  /** A fragment starts with its title's line; it is empty exactly when the next
      title lies on the same line and is not deeper. */
  lemma DocShape(lines: seq<string>, titles: seq<Title>, i: nat)
    requires Within(titles, 0, |lines|) && Sorted(titles) && i < |titles|
    ensures Body(lines, titles, i) != [] ==> Doc(lines, titles, i)[0] == lines[titles[i].line]
    ensures Doc(lines, titles, i) == [] <==>
      i + 1 < |titles| && titles[i + 1].line == titles[i].line && titles[i + 1].level <= titles[i].level
  {
  }

  /** An ATX heading underlined by `===` is recorded twice on the same line at the
      same level, so the first of the two fragments is empty. */
  lemma DuplicateTitle()
    ensures Titles(["# A", "==="]) == [Title(0, 0), Title(0, 0)]
    ensures Doc(["# A", "==="], [Title(0, 0), Title(0, 0)], 0) == []
  {
    var lines := ["# A", "==="];
    assert lines[0][0] != '`' && lines[1][0] != '`';
    AtxOneHash();
    assert !StartsWith(lines[0], " ") by { assert lines[0][0] != ' '; }
    assert OneDistinct(lines[1]) && StartsWith(lines[1], "===");
    assert UnderlineLevel(lines[0], lines[1]) == Some(0);
    assert AtxLevel(lines[1]) == None;
    assert ScanPrefix(lines, 1) == ScanState([Title(0, 0)], false, "# A");
    assert ScanPrefix(lines, 2) == ScanState([Title(0, 0), Title(0, 0)], false, "===");
  }

  // ---------------------------------------------------------------------------
  // The item name of a fragment
  // ---------------------------------------------------------------------------

  /** The name of the item made from a fragment whose first line is `first`
      (core/parsers/markdown.py:84-86): a line starting with '#' loses its first
      word and the whitespace after it, and a line holding nothing more gives the
      empty name (see `HeadingNameShape`). */
  function HeadingName(first: string): string {
    if StartsWith(first, "#") then
      var parts := SplitOnce(first);
      if |parts| == 2 then parts[1] else ""
    else first
  }

  /** `title.split(maxsplit=1)[1]` as written at core/parsers/markdown.py:85-86;
      None stands for the IndexError. */
  function HeadingNameAsWritten(first: string): Option<string> {
    if StartsWith(first, "#") then
      var parts := SplitOnce(first);
      if |parts| >= 2 then Some(parts[1]) else None
    else Some(first)
  }

  /** The name of a heading line is a proper suffix of it that does not start with
      whitespace; it is empty exactly when only whitespace follows the first word. */
  lemma HeadingNameShape(first: string)
    ensures !StartsWith(first, "#") ==> HeadingName(first) == first
    ensures StartsWith(first, "#") ==>
      var r := HeadingName(first);
      EndsWith(first, r) && |r| < |first| && (r != [] ==> !IsSpace(r[0])) &&
      (r == [] <==> forall k :: |TakeToken(first)| <= k < |first| ==> IsSpace(first[k]))
  {
    if StartsWith(first, "#") {
      assert first[0] == '#';
      SplitOnceRest(first);
      RestAfterToken(first);
    }
  }

  /** For a line starting with a non-space character, the split has a second part
      exactly when something other than whitespace follows the first word. */
  lemma RestAfterToken(s: string)
    requires s != [] && !IsSpace(s[0])
    ensures SkipSpace(s) == s
    ensures |SplitOnce(s)| == 2 <==> exists k :: |TakeToken(s)| <= k < |s| && !IsSpace(s[k])
  {
    TakeTokenShape(s);
    var after := s[|TakeToken(s)|..];
    SkipSpaceShape(after);
    var rest := SkipSpace(after);
    if rest != [] {
      var k := |s| - |rest|;
      assert s[k] == rest[0];
    } else {
      forall k | |TakeToken(s)| <= k < |s| ensures IsSpace(s[k]) {
        assert s[k] == after[k - |TakeToken(s)|];
      }
    }
  }

  /** The written name test fails exactly on a line of one word that starts with
      '#'; everywhere else it agrees with the corrected one. */
  lemma HeadingNameAgrees(first: string)
    ensures HeadingNameAsWritten(first) == None <==>
      StartsWith(first, "#") && forall k :: |TakeToken(first)| <= k < |first| ==> IsSpace(first[k])
    ensures HeadingNameAsWritten(first).Some? ==> HeadingNameAsWritten(first).value == HeadingName(first)
  {
    if StartsWith(first, "#") {
      assert first[0] == '#';
      RestAfterToken(first);
      SplitOnceShape(first);
    }
  }

  /** The heading `# ` (a hash and a space) makes the written name test fail; the
      corrected one gives the empty name. */
  lemma HeadingNameAsWrittenFails()
    ensures AtxLevel("# ") == Some(0)
    ensures HeadingNameAsWritten("# ") == None
    ensures HeadingName("# ") == ""
  {
    assert "# "[0] != "# "[1];
    assert SkipSpace("# ") == "# ";
    assert TakeToken("# ") == "#" by {
      assert TakeToken(" ") == [];
    }
    HeadingNameAgrees("# ");
    assert "# "[1] == ' ';
  }

  /** `## Intro` names its item `Intro`. */
  lemma HeadingNameExample()
    ensures HeadingName("## Intro") == "Intro"
  {
    assert SkipSpace("## Intro") == "## Intro";
    assert TakeToken("## Intro") == "##" by {
      assert TakeToken(" Intro") == [];
      assert TakeToken("# Intro") == "#";
    }
    assert "## Intro"[2..] == " Intro";
    assert SkipSpace(" Intro") == "Intro";
  }

  // ---------------------------------------------------------------------------
  // Parents
  // ---------------------------------------------------------------------------

  /** The nearest title before `j` whose level is below `level`, or -1 for the
      parsed item when there is none. */
  function ParentBefore(titles: seq<Title>, j: nat, level: nat): (p: int)
    requires j <= |titles|
    ensures -1 <= p < j
    ensures p >= 0 ==> titles[p].level < level
    ensures forall k :: p < k < j ==> titles[k].level >= level
    decreases j
  {
    if j == 0 then -1
    else if titles[j - 1].level < level then j - 1
    else ParentBefore(titles, j - 1, level)
  }

  /** The parent of title `i`: the nearest earlier title of a strictly smaller
      level, or -1 for the parsed item. */
  function ParentIndex(titles: seq<Title>, i: nat): int
    requires i < |titles|
  {
    ParentBefore(titles, i, titles[i].level)
  }

  /** The nested `parent` of core/parsers/markdown.py:65-70: a backward search. */
  method FindParent(titles: seq<Title>, i: nat) returns (p: int)
    requires i < |titles|
    ensures p == ParentIndex(titles, i)
  {
    var j := i;
    while j > 0 && titles[j - 1].level >= titles[i].level
      invariant 0 <= j <= i
      invariant ParentBefore(titles, j, titles[i].level) == ParentIndex(titles, i)
      decreases j
    {
      j := j - 1;
    }
    p := j - 1;
  }

  /** Title levels only grow from a title down to its parent's next sibling: every
      title between a title and its parent hangs below that parent. */
  lemma NestedParents(titles: seq<Title>, i: nat, k: nat)
    requires i < |titles| && ParentIndex(titles, i) < k < i
    ensures ParentIndex(titles, i) <= ParentIndex(titles, k)
  {
  }

  // ---------------------------------------------------------------------------
  // The parse
  // ---------------------------------------------------------------------------

  /** A new outline item: its name, its code and the index of its parent title
      (-1 for the parsed item). */
  datatype Item = Item(name: string, code: Code, parent: int)

  /** The items of `items[from..]` whose parent is `p`, in order, each holding
      the items below it: what the `addChild` calls build. */
  function Kids(items: seq<Item>, p: int, from: nat): seq<Node>
    requires from <= |items|
    decreases |items| - from
  {
    if from == |items| then []
    else
      var rest := Kids(items, p, from + 1);
      if items[from].parent == p then
        [Node(items[from].name, "", items[from].code, Kids(items, from, from + 1))] + rest
      else rest
  }

  /** Item `i` made from fragment `i`: a fresh code holding the fragment, the
      fragment's heading name and the parent title. */
  ghost predicate Placed(lines: seq<string>, titles: seq<Title>, items: seq<Item>, i: nat,
                         code: Code, before: map<Code, string>, after: map<Code, string>)
    requires Within(titles, 0, |lines|) && Sorted(titles) && i < |items| <= |titles|
  {
    var doc := Doc(lines, titles, i);
    doc != [] && items[i].name == HeadingName(doc[0]) && items[i].parent == ParentIndex(titles, i) &&
    items[i].code !in before && items[i].code != code &&
    items[i].code in after && after[items[i].code] == Join(doc, "\n")
  }

  /** What a parse of the lines `lines` leaves: the parsed item's text under
      `code`, one placed item per title until a fragment is empty, and no text
      lost. */
  ghost predicate Parsed(lines: seq<string>, code: Code, items: seq<Item>, crashed: bool,
                         before: map<Code, string>, after: map<Code, string>)
  {
    var titles := Titles(lines);
    |items| <= |titles| && (crashed <==> |items| < |titles|) &&
    (crashed ==> Doc(lines, titles, |items|) == []) &&
    code in after && after[code] == RootText(lines, titles) &&
    (forall i :: 0 <= i < |items| ==> Placed(lines, titles, items, i, code, before, after)) &&
    (forall i, j :: 0 <= i < j < |items| ==> items[i].code != items[j].code) &&
    (forall k :: k in before && k != code ==> k in after && after[k] == before[k]) &&
    (forall k :: k in after && k !in before && k != code ==>
       (exists i :: 0 <= i < |items| && items[i].code == k) || (crashed && after[k] == ""))
  }

  /** The state of the fragment loop after `|items|` titles. */
  ghost predicate Progress(lines: seq<string>, titles: seq<Title>, items: seq<Item>, code: Code,
                           before: map<Code, string>, after: map<Code, string>)
    requires Within(titles, 0, |lines|) && Sorted(titles)
  {
    |items| <= |titles| &&
    code in after && after[code] == RootText(lines, titles) &&
    (forall i :: 0 <= i < |items| ==> Placed(lines, titles, items, i, code, before, after)) &&
    (forall i, j :: 0 <= i < j < |items| ==> items[i].code != items[j].code) &&
    (forall k :: k in before && k != code ==> k in after && after[k] == before[k]) &&
    (forall k :: k in after && k !in before && k != code ==> exists i :: 0 <= i < |items| && items[i].code == k)
  }

  lemma ProgressStart(lines: seq<string>, titles: seq<Title>, code: Code, before: map<Code, string>)
    requires Within(titles, 0, |lines|) && Sorted(titles)
    ensures Progress(lines, titles, [], code, before, before[code := RootText(lines, titles)])
  {
  }

  /** Placing the next fragment under a code no text is stored under keeps the loop state. */
  lemma ProgressStep(lines: seq<string>, titles: seq<Title>, items: seq<Item>, code: Code,
                     before: map<Code, string>, mid: map<Code, string>, c: Code)
    requires Within(titles, 0, |lines|) && Sorted(titles)
    requires Progress(lines, titles, items, code, before, mid) && |items| < |titles|
    requires c !in mid && Doc(lines, titles, |items|) != []
    ensures var doc := Doc(lines, titles, |items|);
      Progress(lines, titles, items + [Item(HeadingName(doc[0]), c, ParentIndex(titles, |items|))],
               code, before, mid[c := Join(doc, "\n")])
  {
    var doc := Doc(lines, titles, |items|);
    var items' := items + [Item(HeadingName(doc[0]), c, ParentIndex(titles, |items|))];
    var after := mid[c := Join(doc, "\n")];
    forall i | 0 <= i < |items'| ensures Placed(lines, titles, items', i, code, before, after) {
      if i < |items| {
        assert Placed(lines, titles, items, i, code, before, mid);
      }
    }
    forall k | k in after && k !in before && k != code
      ensures exists i :: 0 <= i < |items'| && items'[i].code == k
    {
      if k != c {
        var i :| 0 <= i < |items| && items[i].code == k;
        assert items'[i].code == k;
      } else {
        assert items'[|items|].code == k;
      }
    }
    forall i, j | 0 <= i < j < |items'| ensures items'[i].code != items'[j].code {
      if j == |items| {
        assert Placed(lines, titles, items, i, code, before, mid);
      }
    }
  }

  /** The loop ends with every title placed. */
  lemma ProgressDone(lines: seq<string>, items: seq<Item>, code: Code,
                     before: map<Code, string>, after: map<Code, string>)
    requires Progress(lines, Titles(lines), items, code, before, after) && |items| == |Titles(lines)|
    ensures Parsed(lines, code, items, false, before, after)
  {
  }

  /** The loop stops at an empty fragment, whose fresh code holds the empty text. */
  lemma ProgressCrash(lines: seq<string>, items: seq<Item>, code: Code,
                      before: map<Code, string>, mid: map<Code, string>, c: Code)
    requires Progress(lines, Titles(lines), items, code, before, mid) && |items| < |Titles(lines)|
    requires Doc(lines, Titles(lines), |items|) == [] && c !in mid
    ensures Parsed(lines, code, items, true, before, mid[c := ""])
  {
    var titles := Titles(lines);
    var after := mid[c := ""];
    forall i | 0 <= i < |items| ensures Placed(lines, titles, items, i, code, before, after) {
      assert Placed(lines, titles, items, i, code, before, mid);
    }
  }

  /** The fragment of title `index`, cut as core/parsers/markdown.py:75-82 does. */
  method CutFragment(lines: seq<string>, titles: seq<Title>, index: nat) returns (doc: seq<string>)
    requires Within(titles, 0, |lines|) && Sorted(titles) && index < |titles|
    ensures doc == Doc(lines, titles, index)
  {
    var line := titles[index].line;
    if index == |titles| - 1 {
      doc := lines[line..];
    } else {
      doc := lines[line..titles[index + 1].line];
      if titles[index + 1].level > titles[index].level {
        doc := doc + ["@others", ""];
      }
    }
  }

  /** One turn of the fragment loop: the fragment of title `|items|` gets a fresh
      code and becomes the next item, or, when it is empty, the pass stops. */
  method ParseTitle(lines: seq<string>, titles: seq<Title>, items: seq<Item>, code: Code,
                    ghost before: map<Code, string>, store: DataDict)
    returns (items': seq<Item>, stop: bool)
    modifies store
    requires titles == Titles(lines) && |items| < |titles|
    requires Progress(lines, titles, items, code, before, store.texts)
    ensures store.unsaved == old(store.unsaved) && store.macros == old(store.macros)
    ensures stop ==> items' == items && Parsed(lines, code, items, true, before, store.texts)
    ensures !stop ==> |items'| == |items| + 1 && Progress(lines, titles, items', code, before, store.texts)
  {
    ghost var mid := store.texts;
    var c := store.NewNum();
    var doc := CutFragment(lines, titles, |items|);
    store.Set(c, Join(doc, "\n"));
    assert store.texts == mid[c := Join(doc, "\n")];
    if doc == [] {
      ProgressCrash(lines, items, code, before, mid, c);
      return items, true;
    }
    ProgressStep(lines, titles, items, code, before, mid, c);
    var name := HeadingName(doc[0]);
    var p := FindParent(titles, |items|);
    items' := items + [Item(name, c, p)];
    stop := false;
  }

  /** `parse_markdown`: `content` is the file's text, None when it cannot be
      opened, and `missing` the error message stored then.  The new items hang
      below the parsed item as `Kids(items, -1, 0)`; `crashed` stands for the
      IndexError of an empty fragment, after which the pass stops. */
  method ParseMarkdown(content: Option<string>, missing: string, code: Code, store: DataDict)
    returns (items: seq<Item>, crashed: bool)
    modifies store
    ensures content.None? ==> items == [] && !crashed && store.texts == old(store.texts)[code := missing]
    ensures content.Some? ==> Parsed(Split(content.value, '\n'), code, items, crashed, old(store.texts), store.texts)
    ensures store.unsaved == old(store.unsaved) && store.macros == old(store.macros)
  {
    if content.None? {
      store.Set(code, missing);
      return [], false;
    }
    var lines := Split(content.value, '\n');
    var titles := ScanTitles(lines);
    ghost var before := store.texts;
    if titles == [] {
      store.Set(code, Join(lines, "\n"));
    } else if titles[0].line == 0 {
      store.Set(code, "@others");
    } else {
      store.Set(code, Join(lines[..titles[0].line], "\n"));
    }
    ProgressStart(lines, titles, code, before);
    items := [];
    crashed := false;
    var index := 0;
    while index < |titles|
      invariant index <= |titles| && |items| == index
      invariant store.unsaved == old(store.unsaved) && store.macros == old(store.macros)
      invariant Progress(lines, titles, items, code, before, store.texts)
    {
      var stop;
      items, stop := ParseTitle(lines, titles, items, code, before, store);
      if stop {
        crashed := true;
        return;
      }
      index := index + 1;
    }
    ProgressDone(lines, items, code, before, store.texts);
  }
}
