/** Text extraction and cleaning (services/extractor.py): the file-type dispatch, the
    page and paragraph joins over what the document libraries return, and `clean_text`. */
module Extractor {
  import opened Wrappers
  import opened Text

  // ---------------------------------------------------------------------------
  // clean_text, step by step

  /** `text.replace('\r\n', '\n').replace('\r', '\n')`: no carriage return is left, and a
      text without one keeps its line endings. */
  function NormalizeLineEndings(s: string): (r: string)
    ensures '\r' !in r
    ensures '\r' !in s ==> r == s
  {
    var once := Replace(s, "\r\n", "\n");
    ReplaceRemovesChar(once, '\r', "\n");
    assert '\r' !in s ==> once == s && Replace(once, "\r", "\n") == s by {
      if '\r' !in s {
        NotContainsHead(s, "\r\n");
        ReplaceAbsent(s, "\r\n", "\n");
        NotContainsHead(s, "\r");
        ReplaceAbsent(s, "\r", "\n");
      }
    }
    Replace(once, "\r", "\n")
  }

  /** For the text `t` that follows a `\n`: where a match of `\n\s*\n+` starting at that
      `\n` ends inside `t`. `\s*` takes the whole whitespace run and gives back
      characters until a `\n` follows, so the match ends just after the last `\n` of the
      leading whitespace run of `t`; 0 when that run holds no `\n` (no match). */
  function BlankRunEnd(t: string): (e: nat)
    ensures e <= |t|
    decreases |t|
  {
    if t == [] || !IsSpace(t[0]) then 0
    else
      var e := BlankRunEnd(t[1..]);
      if e > 0 then e + 1 else if t[0] == '\n' then 1 else 0
  }

  /** `re.sub(r'\n\s*\n+', '\n\n', s)`: scanning left to right, each match becomes `\n\n`.
      A match holds at least two characters, so the text gets no longer, and no three line
      breaks in a row are left. */
  function CollapseBlankLines(s: string): (r: string)
    ensures |r| <= |s|
    ensures NoTripleBreak(r)
    ensures s != [] && s[0] != '\n' ==> r != [] && r[0] == s[0]
    decreases |s|
  {
    if s == [] then []
    else if s[0] == '\n' && BlankRunEnd(s[1..]) > 0 then
      var rest := s[1 + BlankRunEnd(s[1..])..];
      BlankRunStops(s[1..]);
      NoTripleAfterPair(CollapseBlankLines(rest));
      "\n\n" + CollapseBlankLines(rest)
    else
      BlankRunStops(s[1..]);
      NoTripleAfterChar(s[0], CollapseBlankLines(s[1..]));
      [s[0]] + CollapseBlankLines(s[1..])
  }

  /** The run of `\n\s*\n+` takes every line break of the leading whitespace: what follows
      the match is not a line break, and no match starts at a line break followed by another. */
  lemma {:induction false} BlankRunStops(t: string)
    ensures BlankRunEnd(t) > 0 ==> BlankRunEnd(t) == |t| || t[BlankRunEnd(t)] != '\n'
    ensures BlankRunEnd(t) == 0 ==> t == [] || t[0] != '\n'
    decreases |t|
  {
    if t != [] && IsSpace(t[0]) {
      BlankRunStops(t[1..]);
    }
  }

  /** `\n\n` in front of a text that does not start with a line break adds no triple break. */
  lemma {:induction false} NoTripleAfterPair(r: string)
    requires NoTripleBreak(r) && (r == [] || r[0] != '\n')
    ensures NoTripleBreak("\n\n" + r)
  {
    var u := "\n\n" + r;
    forall i | 0 <= i < |u| - 2 ensures !(u[i] == '\n' && u[i + 1] == '\n' && u[i + 2] == '\n') {
      if i >= 2 {
        assert u[i] == r[i - 2] && u[i + 1] == r[i - 1] && u[i + 2] == r[i];
      } else {
        assert u[2] == r[0];
      }
    }
  }

  /** A character in front of a text adds no triple break, when a line break is not followed
      by another. */
  lemma {:induction false} NoTripleAfterChar(c: char, r: string)
    requires NoTripleBreak(r) && (c == '\n' ==> r == [] || r[0] != '\n')
    ensures NoTripleBreak([c] + r)
  {
    var u := [c] + r;
    forall i | 0 <= i < |u| - 2 ensures !(u[i] == '\n' && u[i + 1] == '\n' && u[i + 2] == '\n') {
      if i >= 1 {
        assert u[i] == r[i - 1] && u[i + 1] == r[i] && u[i + 2] == r[i + 1];
      } else {
        assert u[1] == r[0];
      }
    }
  }

  /** The class `[\x00-\x08\x0b-\x1f\x7f-\x9f]`: tab and newline are not in it. */
  predicate IsControl(c: char) {
    c <= '\U{8}' || ('\U{b}' <= c <= '\U{1f}') || ('\U{7f}' <= c <= '\U{9f}')
  }

  predicate NoControl(s: string) {
    forall i :: 0 <= i < |s| ==> !IsControl(s[i])
  }

  /** `re.sub(r'[\x00-\x08\x0b-\x1f\x7f-\x9f]', '', s)`. */
  function RemoveControls(s: string): (r: string)
    ensures NoControl(r)
    ensures forall i :: 0 <= i < |r| ==> r[i] in s
    decreases |s|
  {
    if s == [] then []
    else (if IsControl(s[0]) then [] else [s[0]]) + RemoveControls(s[1..])
  }

  predicate IsBlank(c: char) {
    c == ' ' || c == '\t'
  }

  /** Length of the leading run of spaces and tabs. */
  function BlankRun(s: string): (n: nat)
    ensures n <= |s|
    ensures n < |s| ==> !IsBlank(s[n])
  {
    if s == [] || !IsBlank(s[0]) then 0 else 1 + BlankRun(s[1..])
  }

  /** No tab, and no two spaces in a row. */
  predicate SpacesCollapsed(s: string) {
    && (forall i :: 0 <= i < |s| ==> s[i] != '\t')
    && (forall i :: 0 <= i < |s| - 1 ==> !(s[i] == ' ' && s[i + 1] == ' '))
  }

  /** `re.sub(r'[ \t]+', ' ', s)`: every run of spaces and tabs becomes one space. */
  function CollapseSpaces(s: string): (r: string)
    ensures SpacesCollapsed(r)
    ensures NoControl(s) ==> NoControl(r)
    ensures (r == []) == (s == [])
    ensures r != [] ==> (IsBlank(r[0]) <==> IsBlank(s[0]))
    decreases |s|
  {
    if s == [] then []
    else if IsBlank(s[0]) then
      var n := BlankRun(s);
      [' '] + CollapseSpaces(s[n..])
    else [s[0]] + CollapseSpaces(s[1..])
  }

  function StripEach(lines: seq<string>): (r: seq<string>)
    ensures |r| == |lines|
    ensures forall k :: 0 <= k < |lines| ==> r[k] == Strip(lines[k])
  {
    seq(|lines|, k requires 0 <= k < |lines| => Strip(lines[k]))
  }

  /** `'\n'.join([line.strip() for line in s.split('\n')])`: a single line is just stripped,
      and on text without control characters, tabs or double spaces every line comes out
      trimmed. */
  function StripLines(s: string): (r: string)
    ensures '\n' !in s ==> r == Strip(s)
    ensures NoControl(s) && SpacesCollapsed(s) ==> NoControl(r) && SpacesCollapsed(r) && LinesTrimmed(r)
  {
    var lines := Split(s, '\n');
    var stripped := StripEach(lines);
    assert '\n' !in s ==> stripped == [Strip(s)];
    assert NoControl(s) && SpacesCollapsed(s) ==>
        var j := Join(stripped, "\n"); NoControl(j) && SpacesCollapsed(j) && LinesTrimmed(j) by {
      if NoControl(s) && SpacesCollapsed(s) {
        SplitKeeps(s, '\n');
        forall k | 0 <= k < |stripped|
          ensures CleanLine(stripped[k])
        {
          StripKeeps(lines[k]);
          StripFacts(lines[k]);
        }
        JoinCleanLines(stripped);
      }
    }
    Join(stripped, "\n")
  }

  /** `clean_text(text)` for a `str` argument: `""` stays `""`; the result has no control
      character (so no `\r`), no tab and no double space, every line is trimmed and the whole
      text is stripped. */
  function CleanText(text: string): (r: string)
    ensures text == "" ==> r == ""
    ensures NoControl(r) && '\r' !in r
    ensures SpacesCollapsed(r) && LinesTrimmed(r) && Stripped(r)
  {
    if text == "" then ""
    else
      var j := StripLines(CollapseSpaces(RemoveControls(CollapseBlankLines(NormalizeLineEndings(text)))));
      var r := Strip(j);
      assert NoControl(r) && SpacesCollapsed(r) && LinesTrimmed(r) && Stripped(r) by {
        StripKeeps(j);
        StripFacts(j);
        StripKeepsLinesTrimmed(j);
      }
      assert '\r' !in r by {
        forall i | 0 <= i < |r| ensures r[i] != '\r' { assert !IsControl(r[i]); }
      }
      r
  }

  // ---------------------------------------------------------------------------
  // What clean_text guarantees

  /** Every line is stripped: a whitespace character other than the line break never
      begins or ends a line. */
  predicate LinesTrimmed(s: string) {
    forall i :: 0 <= i < |s| && s[i] != '\n' && IsSpace(s[i]) ==>
      0 < i < |s| - 1 && s[i - 1] != '\n' && s[i + 1] != '\n'
  }

  /** What a line holds once `CleanText` has stripped it. */
  predicate CleanLine(p: string) {
    NoControl(p) && SpacesCollapsed(p) && '\n' !in p && Stripped(p)
  }

  lemma {:induction false} SliceKeeps(s: string, a: nat, b: nat)
    requires a <= b <= |s|
    ensures NoControl(s) ==> NoControl(s[a..b])
    ensures SpacesCollapsed(s) ==> SpacesCollapsed(s[a..b])
    ensures '\n' !in s ==> '\n' !in s[a..b]
  {
    if '\n' !in s {
      forall i | 0 <= i < b - a
        ensures s[a..b][i] != '\n'
      {
        assert s[a..b][i] == s[a + i];
      }
    }
  }

  lemma {:induction false} SplitKeeps(s: string, c: char)
    requires NoControl(s) && SpacesCollapsed(s)
    ensures forall k :: 0 <= k < |Split(s, c)| ==> NoControl(Split(s, c)[k]) && SpacesCollapsed(Split(s, c)[k])
    decreases |s|
  {
    var i := IndexOf(s, c);
    if i < |s| {
      SliceKeeps(s, 0, i);
      SliceKeeps(s, i + 1, |s|);
      SplitKeeps(s[i + 1..], c);
      assert Split(s, c) == [s[..i]] + Split(s[i + 1..], c);
    }
  }

  lemma {:induction false} StripKeeps(s: string)
    ensures NoControl(s) ==> NoControl(Strip(s))
    ensures SpacesCollapsed(s) ==> SpacesCollapsed(Strip(s))
    ensures '\n' !in s ==> '\n' !in Strip(s)
  {
    StripFacts(s);
    var a := |s| - |TrimStart(s)|;
    SliceKeeps(s, a, a + |Strip(s)|);
  }

  /** Joining clean lines with `\n` gives a text whose lines are all trimmed. */
  lemma {:induction false} JoinCleanLines(parts: seq<string>)
    requires forall k :: 0 <= k < |parts| ==> CleanLine(parts[k])
    ensures var j := Join(parts, "\n"); NoControl(j) && SpacesCollapsed(j) && LinesTrimmed(j)
    decreases |parts|
  {
    if |parts| == 1 {
    } else if |parts| >= 2 {
      var x := parts[0];
      var rest := Join(parts[1..], "\n");
      JoinCleanLines(parts[1..]);
      var j := x + "\n" + rest;
      assert Join(parts, "\n") == j;
      forall i | 0 <= i < |j|
        ensures !IsControl(j[i]) && j[i] != '\t'
      {
        if i < |x| { assert j[i] == x[i]; }
        else if i > |x| { assert j[i] == rest[i - |x| - 1]; }
      }
      forall i | 0 <= i < |j| - 1
        ensures !(j[i] == ' ' && j[i + 1] == ' ')
      {
        if i < |x| - 1 { assert j[i] == x[i] && j[i + 1] == x[i + 1]; }
        else if i > |x| { assert j[i] == rest[i - |x| - 1] && j[i + 1] == rest[i - |x|]; }
      }
      forall i | 0 <= i < |j| && j[i] != '\n' && IsSpace(j[i])
        ensures 0 < i < |j| - 1 && j[i - 1] != '\n' && j[i + 1] != '\n'
      {
        if i < |x| {
          assert j[i] == x[i];
          assert 0 < i < |x| - 1;
          assert j[i - 1] == x[i - 1] && j[i + 1] == x[i + 1];
        } else {
          assert i > |x|;
          var k := i - |x| - 1;
          assert j[i] == rest[k];
          assert 0 < k < |rest| - 1;
          assert j[i - 1] == rest[k - 1] && j[i + 1] == rest[k + 1];
        }
      }
    }
  }

  /** Stripping the whole text keeps its lines trimmed. */
  lemma {:induction false} StripKeepsLinesTrimmed(s: string)
    requires LinesTrimmed(s)
    ensures LinesTrimmed(Strip(s))
  {
    StripFacts(s);
    var r := Strip(s);
    var a := |s| - |TrimStart(s)|;
    forall i | 0 <= i < |r| && r[i] != '\n' && IsSpace(r[i])
      ensures 0 < i < |r| - 1 && r[i - 1] != '\n' && r[i + 1] != '\n'
    {
      assert r[i] == s[a + i];
      assert s[a + i - 1] != '\n' && s[a + i + 1] != '\n';
      assert i != 0 && i != |r| - 1 by { assert Stripped(r); }
      assert r[i - 1] == s[a + i - 1] && r[i + 1] == s[a + i + 1];
    }
  }

  /** Text without a control character is left as it is. */
  lemma {:induction false} RemoveControlsKeepsClean(s: string)
    requires NoControl(s)
    ensures RemoveControls(s) == s
    decreases |s|
  {
    if s != [] {
      RemoveControlsKeepsClean(s[1..]);
    }
  }

  lemma {:induction false} NotContainsHead(s: string, p: string)
    requires p != [] && p[0] !in s
    ensures !Contains(s, p)
    decreases |s|
  {
    if s != [] {
      NotContainsHead(s[1..], p);
    }
  }

  /** A text that is already stripped is left as it is. */
  lemma {:induction false} StripKeepsStripped(s: string)
    requires Stripped(s)
    ensures Strip(s) == s
  {
    StripFacts(s);
    TrimStartFacts(s);
    TrimEndFacts(TrimStart(s));
    if s != [] {
      assert TrimStart(s) == s;
      assert TrimEnd(s) == s;
    }
  }

  /** No three line breaks in a row: at most one blank line between two lines. */
  predicate NoTripleBreak(s: string) {
    forall i :: 0 <= i < |s| - 2 ==> !(s[i] == '\n' && s[i + 1] == '\n' && s[i + 2] == '\n')
  }

  /** What `CleanText` leaves alone: a stripped text of trimmed lines with no control
      character, no tab, no double space and no two blank lines in a row. */
  predicate IsClean(s: string) {
    NoControl(s) && SpacesCollapsed(s) && LinesTrimmed(s) && Stripped(s) && NoTripleBreak(s)
  }

  /** Whitespace directly after a line break is another line break. */
  predicate BreakThenNoBlank(s: string) {
    forall i :: 0 <= i < |s| - 1 && s[i] == '\n' && IsSpace(s[i + 1]) ==> s[i + 1] == '\n'
  }

  lemma {:induction false} CollapseBlankLinesKeeps(s: string)
    requires BreakThenNoBlank(s) && NoTripleBreak(s)
    ensures CollapseBlankLines(s) == s
    decreases |s|
  {
    if s != [] {
      ShapeTail(s);
      var t := s[1..];
      if s[0] == '\n' && BlankRunEnd(t) > 0 {
        assert IsSpace(t[0]) && t[0] == '\n';
        assert |t| > 1 ==> !IsSpace(t[1]);
        BlankRunEndOne(t);
        assert s[2..] == t[1..];
        ShapeTail(t);
        CollapseBlankLinesKeeps(t[1..]);
        assert s == "\n\n" + s[2..];
      } else {
        CollapseBlankLinesKeeps(t);
        assert s == [s[0]] + t;
      }
    }
  }

  /** The shape `CollapseBlankLinesKeeps` asks for holds of every suffix. */
  lemma {:induction false} ShapeTail(s: string)
    requires s != [] && BreakThenNoBlank(s) && NoTripleBreak(s)
    ensures BreakThenNoBlank(s[1..]) && NoTripleBreak(s[1..])
  {
    var t := s[1..];
    forall i | 0 <= i < |t| - 1 && t[i] == '\n' && IsSpace(t[i + 1]) ensures t[i + 1] == '\n' {
      assert t[i] == s[i + 1] && t[i + 1] == s[i + 2];
    }
    forall i | 0 <= i < |t| - 2 ensures !(t[i] == '\n' && t[i + 1] == '\n' && t[i + 2] == '\n') {
      assert t[i] == s[i + 1] && t[i + 1] == s[i + 2] && t[i + 2] == s[i + 3];
    }
  }

  /** A line break followed by no whitespace ends the blank run right after itself. */
  lemma {:induction false} BlankRunEndOne(t: string)
    requires t != [] && t[0] == '\n' && (|t| > 1 ==> !IsSpace(t[1]))
    ensures BlankRunEnd(t) == 1
  {
    assert BlankRunEnd(t[1..]) == 0;
  }

  lemma {:induction false} CollapseSpacesKeeps(s: string)
    requires SpacesCollapsed(s)
    ensures CollapseSpaces(s) == s
    decreases |s|
  {
    if s != [] {
      assert SpacesCollapsed(s[1..]) by {
        forall i | 0 <= i < |s[1..]| - 1 ensures !(s[1..][i] == ' ' && s[1..][i + 1] == ' ') {
          assert s[1..][i] == s[i + 1] && s[1..][i + 1] == s[i + 2];
        }
      }
      CollapseSpacesKeeps(s[1..]);
      if IsBlank(s[0]) {
        assert s[0] == ' ';
        assert BlankRun(s[1..]) == 0;
        assert BlankRun(s) == 1;
      }
      assert s == [s[0]] + s[1..];
    }
  }

  /** The lines of a text with trimmed lines are themselves stripped. */
  lemma {:induction false} SplitTrimmedLines(s: string)
    requires LinesTrimmed(s)
    ensures forall k :: 0 <= k < |Split(s, '\n')| ==> Stripped(Split(s, '\n')[k])
    decreases |s|
  {
    var i := IndexOf(s, '\n');
    var p := s[..i];
    assert Stripped(p) by {
      if p != [] {
        assert p[0] == s[0] && p[|p| - 1] == s[i - 1];
        assert p[0] != '\n' && p[|p| - 1] != '\n';
      }
    }
    if i < |s| {
      var t := s[i + 1..];
      assert LinesTrimmed(t) by {
        forall j | 0 <= j < |t| && t[j] != '\n' && IsSpace(t[j])
          ensures 0 < j < |t| - 1 && t[j - 1] != '\n' && t[j + 1] != '\n'
        {
          assert t[j] == s[i + 1 + j];
          assert s[i + j] != '\n' && i + 1 + j < |s| - 1;
          assert t[j - 1] == s[i + j] && t[j + 1] == s[i + 2 + j];
        }
      }
      SplitTrimmedLines(t);
      assert Split(s, '\n') == [p] + Split(t, '\n');
    }
  }

  lemma {:induction false} StripLinesKeeps(s: string)
    requires LinesTrimmed(s)
    ensures StripLines(s) == s
  {
    var lines := Split(s, '\n');
    SplitTrimmedLines(s);
    forall k | 0 <= k < |lines| ensures Strip(lines[k]) == lines[k] {
      StripKeepsStripped(lines[k]);
    }
    assert StripEach(lines) == lines;
    JoinSplit(s, '\n');
  }

  // ---------------------------------------------------------------------------
  // The words survive cleaning

  /** Every stage of `clean_text` only rewrites whitespace runs, so a text without control
      characters keeps its `split()` words. */
  lemma {:induction false} CleanTextWords(text: string)
    requires NoControl(text)
    ensures Words(CleanText(text)) == Words(text)
  {
    if text != "" {
      assert '\r' !in text by {
        forall i | 0 <= i < |text| ensures text[i] != '\r' { assert !IsControl(text[i]); }
      }
      assert NormalizeLineEndings(text) == text;
      var c1 := CollapseBlankLines(text);
      CollapseBlankLinesWords(text);
      CollapseBlankLinesNoControl(text);
      RemoveControlsKeepsClean(c1);
      var c2 := CollapseSpaces(c1);
      CollapseSpacesWords(c1);
      var j := StripLines(c2);
      StripLinesWords(c2);
      WordsStrip(j);
    }
  }

  /** `clean_text("  Hello   World  \n\n\n  Test  ")` keeps the words `Hello`, `World` and
      `Test`, in that order. */
  lemma {:induction false} CleanTextExample(text: string)
    requires text == "  Hello   World  \n\n\n  Test  "
    ensures Words(CleanText(text)) == ["Hello", "World", "Test"]
  {
    ExamplePieces();
    ExampleWords();
    ExampleNoControl();
    CleanTextWords(text);
  }

  /** The example text, cut at the edges of its words. */
  function ExampleText(): string {
    "  " + ("Hello" + "   " + ("World" + "  \n\n\n  " + ("Test" + "  ")))
  }

  lemma ExamplePieces()
    ensures ExampleText() == "  Hello   World  \n\n\n  Test  "
  {
  }

  lemma ExampleNoControl()
    ensures NoControl(ExampleText())
  {
  }

  lemma ExampleWords()
    ensures Words(ExampleText()) == ["Hello", "World", "Test"]
  {
    WordsOneWord("Hello");
    WordsOneWord("World");
    WordsOneWord("Test");
    WordsThree("  ", "Hello", "   ", "World", "  \n\n\n  ", "Test", "  ");
  }

  /** Three words, with whitespace around and between them, are what `Words` finds. */
  lemma {:induction false} WordsThree(p0: string, w1: string, p1: string, w2: string, p2: string,
                                      w3: string, p3: string)
    requires AllSpace(p0) && AllSpace(p1) && AllSpace(p2) && AllSpace(p3)
    requires p1 != [] && p2 != [] && p3 != []
    requires Words(w1) == [w1] && Words(w2) == [w2] && Words(w3) == [w3]
    ensures Words(p0 + (w1 + p1 + (w2 + p2 + (w3 + p3)))) == [w1, w2, w3]
  {
    assert w3 + p3 + [] == w3 + p3;
    WordsSplitAt(w3, p3, []);
    WordsSplitAt(w2, p2, w3 + p3);
    WordsSplitAt(w1, p1, w2 + p2 + (w3 + p3));
    WordsSpacePrefix(p0, w1 + p1 + (w2 + p2 + (w3 + p3)));
  }

  /** `[ \t]+` to one space keeps the words and whether the text starts with whitespace. */
  lemma {:induction false} CollapseSpacesWords(s: string)
    ensures Words(CollapseSpaces(s)) == Words(s) && LeadSpace(CollapseSpaces(s)) == LeadSpace(s)
    decreases |s|
  {
    if s != [] {
      if IsBlank(s[0]) {
        var n := BlankRun(s);
        BlankRunSpace(s);
        CollapseSpacesWords(s[n..]);
        WordsSkipSpace(' ', CollapseSpaces(s[n..]));
        assert s == s[..n] + s[n..];
        WordsSpacePrefix(s[..n], s[n..]);
      } else {
        CollapseSpacesWords(s[1..]);
        WordsCons(s[0], CollapseSpaces(s[1..]), s[1..]);
        assert s == [s[0]] + s[1..];
      }
    }
  }

  lemma {:induction false} BlankRunSpace(s: string)
    ensures AllSpace(s[..BlankRun(s)])
    decreases |s|
  {
    if s != [] && IsBlank(s[0]) {
      BlankRunSpace(s[1..]);
      assert s[..BlankRun(s)] == [s[0]] + s[1..][..BlankRun(s[1..])];
    }
  }

  /** `\n\s*\n+` to `\n\n` keeps the words and whether the text starts with whitespace. */
  lemma {:induction false} CollapseBlankLinesWords(s: string)
    ensures Words(CollapseBlankLines(s)) == Words(s) && LeadSpace(CollapseBlankLines(s)) == LeadSpace(s)
    decreases |s|
  {
    if s != [] {
      var t := s[1..];
      if s[0] == '\n' && BlankRunEnd(t) > 0 {
        var rest := t[BlankRunEnd(t)..];
        CollapseBlankLinesWords(rest);
        MatchWords(s, CollapseBlankLines(rest));
      } else {
        CollapseBlankLinesWords(t);
        KeptCharWords(s, CollapseBlankLines(t));
      }
    }
  }

  /** A match replaced by `\n\n` in front of a text with the words of what followed it. */
  lemma {:induction false} MatchWords(s: string, r: string)
    requires s != [] && s[0] == '\n' && BlankRunEnd(s[1..]) > 0
    requires var rest := s[1 + BlankRunEnd(s[1..])..]; Words(r) == Words(rest)
    ensures Words("\n\n" + r) == Words(s) && LeadSpace("\n\n" + r) && LeadSpace(s)
  {
    var t := s[1..];
    var e := BlankRunEnd(t);
    var rest := t[e..];
    assert rest == s[1 + e..];
    BlankRunEndSpace(t);
    WordsSpacePrefix("\n\n", r);
    assert s == ("\n" + t[..e]) + rest;
    assert AllSpace("\n" + t[..e]) by {
      forall i | 0 <= i < 1 + e ensures IsSpace(("\n" + t[..e])[i]) {
        if i > 0 { assert ("\n" + t[..e])[i] == t[..e][i - 1]; }
      }
    }
    WordsSpacePrefix("\n" + t[..e], rest);
  }

  /** The first character kept in front of a text with the words and start of the rest. */
  lemma {:induction false} KeptCharWords(s: string, r: string)
    requires s != [] && Words(r) == Words(s[1..]) && LeadSpace(r) == LeadSpace(s[1..])
    ensures Words([s[0]] + r) == Words(s) && LeadSpace([s[0]] + r) == LeadSpace(s)
  {
    WordsCons(s[0], r, s[1..]);
    assert s == [s[0]] + s[1..];
  }

  lemma {:induction false} BlankRunEndSpace(t: string)
    ensures AllSpace(t[..BlankRunEnd(t)])
    decreases |t|
  {
    if t != [] && IsSpace(t[0]) {
      BlankRunEndSpace(t[1..]);
      var e := BlankRunEnd(t[1..]);
      if e > 0 {
        assert t[..e + 1] == [t[0]] + t[1..][..e];
      }
    }
  }

  /** `\n\s*\n+` to `\n\n` adds no control character. */
  lemma {:induction false} CollapseBlankLinesNoControl(s: string)
    requires NoControl(s)
    ensures NoControl(CollapseBlankLines(s))
    decreases |s|
  {
    if s != [] {
      var t := s[1..];
      var k := if s[0] == '\n' && BlankRunEnd(t) > 0 then 1 + BlankRunEnd(t) else 1;
      var head := if k > 1 then "\n\n" else [s[0]];
      var rest := s[k..];
      assert NoControl(rest) by {
        forall i | 0 <= i < |rest| ensures !IsControl(rest[i]) { assert rest[i] == s[k + i]; }
      }
      CollapseBlankLinesNoControl(rest);
      assert CollapseBlankLines(s) == head + CollapseBlankLines(rest);
      var r := CollapseBlankLines(rest);
      forall i | 0 <= i < |head + r| ensures !IsControl((head + r)[i]) {
        if i >= |head| { assert (head + r)[i] == r[i - |head|]; }
      }
    }
  }

  /** The per-line strip keeps the words: every line keeps its words and the lines are
      joined by `\n` again. */
  lemma {:induction false} StripLinesWords(s: string)
    ensures Words(StripLines(s)) == Words(s)
  {
    var lines := Split(s, '\n');
    var stripped := StripEach(lines);
    forall k | 0 <= k < |lines| ensures Words(stripped[k]) == Words(lines[k]) {
      WordsStrip(lines[k]);
    }
    assert AllSpace("\n");
    JoinSameWords(stripped, lines, "\n");
    JoinSplit(s, '\n');
    assert "\n" == ['\n'];
  }

  /** Clean text is a fixed point of `CleanText`. */
  lemma {:induction false} CleanTextKeepsClean(s: string)
    requires IsClean(s)
    ensures CleanText(s) == s
  {
    if s != "" {
      assert '\r' !in s by {
        forall i | 0 <= i < |s| ensures s[i] != '\r' { assert !IsControl(s[i]); }
      }
      assert BreakThenNoBlank(s);
      CollapseBlankLinesKeeps(s);
      RemoveControlsKeepsClean(s);
      CollapseSpacesKeeps(s);
      StripLinesKeeps(s);
      StripKeepsStripped(s);
    }
  }

  // ---------------------------------------------------------------------------
  // PDF and DOCX: joining what the libraries return

  /** A page's text survives when it is present and non-empty (`if page_text:`). */
  function KeptPage(page: Option<string>): seq<string> {
    if page.Some? && page.value != "" then [page.value] else []
  }

  /** The page texts `extract_text_from_pdf` collects, in page order. */
  function PdfParts(pages: seq<Option<string>>): seq<string>
    decreases |pages|
  {
    if pages == [] then [] else PdfParts(pages[..|pages| - 1]) + KeptPage(pages[|pages| - 1])
  }

  /** `extract_text_from_pdf` once pdfplumber has opened the file: the loop over the
      pages that appends every non-empty page text, then the `\n` join. */
  method ExtractPdfText(pages: seq<Option<string>>) returns (text: string)
    ensures text == Join(PdfParts(pages), "\n")
  {
    var parts: seq<string> := [];
    var i := 0;
    while i < |pages|
      invariant 0 <= i <= |pages|
      invariant parts == PdfParts(pages[..i])
    {
      var pageText := pages[i];
      if pageText.Some? && pageText.value != "" {
        parts := parts + [pageText.value];
      }
      assert pages[..i + 1][..i] == pages[..i];
      i := i + 1;
    }
    assert pages[..i] == pages;
    text := Join(parts, "\n");
  }

  /** Pages split anywhere give their parts in the same order. */
  lemma {:induction false} PdfPartsAppend(a: seq<Option<string>>, b: seq<Option<string>>)
    ensures PdfParts(a + b) == PdfParts(a) + PdfParts(b)
    decreases |b|
  {
    if b == [] {
      assert a + b == a;
    } else {
      var b' := b[..|b| - 1];
      assert (a + b)[..|a + b| - 1] == a + b';
      assert (a + b)[|a + b| - 1] == b[|b| - 1];
      PdfPartsAppend(a, b');
    }
  }

  /** Every collected part is the non-empty text of some page. */
  lemma {:induction false} PdfPartsFromPages(pages: seq<Option<string>>)
    ensures forall k :: 0 <= k < |PdfParts(pages)| ==>
      PdfParts(pages)[k] != "" && exists j :: 0 <= j < |pages| && pages[j] == Some(PdfParts(pages)[k])
    decreases |pages|
  {
    if pages != [] {
      var init := pages[..|pages| - 1];
      PdfPartsFromPages(init);
      forall k | 0 <= k < |PdfParts(pages)|
        ensures PdfParts(pages)[k] != "" && exists j :: 0 <= j < |pages| && pages[j] == Some(PdfParts(pages)[k])
      {
        if k < |PdfParts(init)| {
          var j :| 0 <= j < |init| && init[j] == Some(PdfParts(init)[k]);
          assert pages[j] == init[j];
        } else {
          assert pages[|pages| - 1] == Some(PdfParts(pages)[k]);
        }
      }
    }
  }

  /** The paragraphs `extract_text_from_docx` keeps (`if paragraph.text.strip()`), in order. */
  function DocxParts(paragraphs: seq<string>): seq<string>
    decreases |paragraphs|
  {
    if paragraphs == [] then []
    else (if Strip(paragraphs[0]) != "" then [paragraphs[0]] else []) + DocxParts(paragraphs[1..])
  }

  function DocxText(paragraphs: seq<string>): string {
    Join(DocxParts(paragraphs), "\n")
  }

  /** Paragraphs split anywhere give their kept paragraphs in the same order. */
  lemma {:induction false} DocxPartsAppend(a: seq<string>, b: seq<string>)
    ensures DocxParts(a + b) == DocxParts(a) + DocxParts(b)
    decreases |a|
  {
    if a == [] {
      assert a + b == b;
    } else {
      assert (a + b)[1..] == a[1..] + b;
      DocxPartsAppend(a[1..], b);
    }
  }

  /** A paragraph is kept exactly when it holds a non-whitespace character. */
  lemma {:induction false} DocxKeepsParagraph(p: string)
    ensures DocxParts([p]) == (if AllSpace(p) then [] else [p])
  {
    StripFacts(p);
    assert [p][1..] == [];
  }

  /** Every kept paragraph is one of the document's paragraphs and not blank. */
  lemma {:induction false} DocxPartsFromParagraphs(a: seq<string>)
    ensures forall k :: 0 <= k < |DocxParts(a)| ==> !AllSpace(DocxParts(a)[k]) && DocxParts(a)[k] in a
    decreases |a|
  {
    if a != [] {
      DocxPartsFromParagraphs(a[1..]);
      StripFacts(a[0]);
      assert forall k :: 0 <= k < |a[1..]| ==> a[1..][k] in a;
    }
  }

  // ---------------------------------------------------------------------------
  // Dispatch on the file name

  datatype Reader = PdfReader | DocxReader | ImageReader | TextReader

  predicate IsImagePath(lowered: string) {
    EndsWith(lowered, ".png") || EndsWith(lowered, ".jpg") || EndsWith(lowered, ".jpeg")
    || EndsWith(lowered, ".tiff") || EndsWith(lowered, ".bmp")
  }

  /** The reader `extract_text_from_file` picks from the lower-cased path. */
  function ReaderFor(path: string): (r: Reader)
    ensures r == PdfReader <==> EndsWith(Lower(path), ".pdf")
    ensures r == DocxReader <==> !EndsWith(Lower(path), ".pdf") && EndsWith(Lower(path), ".docx")
    ensures r == ImageReader <==> !EndsWith(Lower(path), ".pdf") && !EndsWith(Lower(path), ".docx") && IsImagePath(Lower(path))
    ensures r == TextReader <==> !EndsWith(Lower(path), ".pdf") && !EndsWith(Lower(path), ".docx") && !IsImagePath(Lower(path))
  {
    var p := Lower(path);
    if EndsWith(p, ".pdf") then PdfReader
    else if EndsWith(p, ".docx") then DocxReader
    else if IsImagePath(p) then ImageReader
    else TextReader
  }

  /** What the document libraries give back for the uploaded file; `None` where the library raises. */
  datatype LibraryResults = LibraryResults(
    pdfPages: Option<seq<Option<string>>>,  // pdfplumber: `page.extract_text()` per page
    docxParagraphs: Option<seq<string>>,    // python-docx: `paragraph.text` per paragraph
    ocrText: Option<string>,                // pytesseract on the opened image
    fileText: Option<string>)               // the file read as UTF-8 text

  datatype ExtractError = PdfError | DocxError | OcrError | TxtError | UnsupportedFileType

  /** `extract_text_from_file(path)`: the reader's result, or the error it raises. A file read
      as a fallback for an unknown suffix fails as an unsupported file type. */
  function ExtractText(path: string, lib: LibraryResults): (r: Result<string, ExtractError>)
    ensures r.Err? && r.error == UnsupportedFileType ==> ReaderFor(path) == TextReader && !EndsWith(Lower(path), ".txt")
    ensures ReaderFor(path) == PdfReader && lib.pdfPages.Some? ==> r == Ok(Join(PdfParts(lib.pdfPages.value), "\n"))
    ensures ReaderFor(path) == DocxReader && lib.docxParagraphs.Some? ==> r == Ok(DocxText(lib.docxParagraphs.value))
    ensures ReaderFor(path) == TextReader ==> (r.Ok? <==> lib.fileText.Some?)
  {
    match ReaderFor(path)
    case PdfReader =>
      if lib.pdfPages.Some? then Ok(Join(PdfParts(lib.pdfPages.value), "\n")) else Err(PdfError)
    case DocxReader =>
      if lib.docxParagraphs.Some? then Ok(DocxText(lib.docxParagraphs.value)) else Err(DocxError)
    case ImageReader =>
      if lib.ocrText.Some? then Ok(lib.ocrText.value) else Err(OcrError)
    case TextReader =>
      if lib.fileText.Some? then Ok(lib.fileText.value)
      else if EndsWith(Lower(path), ".txt") then Err(TxtError)
      else Err(UnsupportedFileType)
  }
}
