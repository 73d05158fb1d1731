/** Language detection and text preparation for speech (services/language_detector.py):
    the mapping of detected language codes, `preprocess_text`, the sentence splitter and
    greedy chunk packer of `split_text_into_chunks`, and `normalize_text_for_tts`. */
module LanguageDetector {
  import opened Wrappers
  import opened Text

  // ---------------------------------------------------------------------------
  // detect_language

  /** The codes `detect_language` can answer with. */
  predicate IsSupportedCode(code: string) {
    code == "ur" || code == "en" || code == "es" || code == "fr"
  }

  /** Groups a code reported by the detector into a supported language: Urdu, Arabic and
      Persian become Urdu, English, Spanish and French stay, anything else becomes English. */
  function MapDetected(code: string): (r: string)
    ensures IsSupportedCode(r)
    ensures r == "ur" <==> code == "ur" || code == "ar" || code == "fa"
    ensures (code == "en" || code == "es" || code == "fr") ==> r == code
    ensures !(code in {"ur", "ar", "fa", "en", "es", "fr"}) ==> r == "en"
  {
    if code == "ur" || code == "ar" || code == "fa" then "ur"
    else if code == "en" then "en"
    else if code == "es" then "es"
    else if code == "fr" then "fr"
    else "en"
  }

  /** `detect_language(text)`. The detector is an oracle: `None` stands for the
      LangDetectException it may raise. A text whose stripped length is below 3 never
      reaches it. */
  function DetectLanguage(text: string, detector: string -> Option<string>): (r: Option<string>)
    ensures |Strip(text)| < 3 ==> r == None
    ensures r.Some? ==> IsSupportedCode(r.value)
    ensures |Strip(text)| >= 3 && detector(text).None? ==> r == None
    ensures |Strip(text)| >= 3 && detector(text).Some? ==> r == Some(MapDetected(detector(text).value))
  {
    if text == "" || |Strip(text)| < 3 then None
    else
      match detector(text)
      case None => None
      case Some(code) => Some(MapDetected(code))
  }

  /** A short text gets the same answer whatever the detector would have said. */
  lemma {:induction false} ShortTextIgnoresDetector(text: string, d1: string -> Option<string>, d2: string -> Option<string>)
    requires |Strip(text)| < 3
    ensures DetectLanguage(text, d1) == DetectLanguage(text, d2) == None
  {
  }

  // ---------------------------------------------------------------------------
  // preprocess_text

  /** Python's Unicode classes `\w` and `\d`, which the model takes as given. */
  datatype CharClasses = CharClasses(isWord: char -> bool, isDigit: char -> bool)

  /** The Arabic, Arabic Supplement and Arabic Extended-A blocks. */
  predicate InArabicBlocks(c: char) {
    ('\U{600}' <= c <= '\U{6FF}') || ('\U{750}' <= c <= '\U{77F}') || ('\U{8A0}' <= c <= '\U{8FF}')
  }

  /** Survives the Urdu filter. */
  predicate IsUrduKeep(c: char, cls: CharClasses) {
    InArabicBlocks(c) || IsSpace(c) || cls.isDigit(c) || c in ".,!?;:-"
  }

  /** Survives the Latin-script filter. */
  predicate IsLatinKeep(c: char, cls: CharClasses) {
    cls.isWord(c) || IsSpace(c) || c in ".,!?;:-'\"()"
  }

  /** Urdu branch: every character outside the kept class is deleted. */
  function KeepUrdu(s: string, cls: CharClasses): (r: string)
    ensures forall i :: 0 <= i < |r| ==> IsUrduKeep(r[i], cls)
    ensures forall c :: c in s && IsUrduKeep(c, cls) ==> c in r
    decreases |s|
  {
    if s == [] then []
    else (if IsUrduKeep(s[0], cls) then [s[0]] else []) + KeepUrdu(s[1..], cls)
  }

  /** Latin branch: every character outside the kept class becomes a space. */
  function MaskLatin(s: string, cls: CharClasses): (r: string)
    ensures |r| == |s|
    ensures forall i :: 0 <= i < |s| ==> r[i] == if IsLatinKeep(s[i], cls) then s[i] else ' '
  {
    seq(|s|, i requires 0 <= i < |s| => if IsLatinKeep(s[i], cls) then s[i] else ' ')
  }

  /** Length of the leading whitespace run. */
  function SpaceRun(s: string): (n: nat)
    ensures n <= |s|
  {
    if s == [] || !IsSpace(s[0]) then 0 else 1 + SpaceRun(s[1..])
  }

  lemma {:induction false} SpaceRunFacts(s: string)
    ensures forall i :: 0 <= i < SpaceRun(s) ==> IsSpace(s[i])
    ensures SpaceRun(s) < |s| ==> !IsSpace(s[SpaceRun(s)])
    decreases |s|
  {
    if s != [] && IsSpace(s[0]) {
      SpaceRunFacts(s[1..]);
    }
  }

  /** All whitespace is a single space between non-whitespace characters or at an end. */
  predicate SingleSpaced(s: string) {
    forall i :: 0 <= i < |s| && IsSpace(s[i]) ==> s[i] == ' ' && (i + 1 < |s| ==> !IsSpace(s[i + 1]))
  }

  /** `re.sub(r'\s+', ' ', s)`. */
  function CollapseWhitespace(s: string): (r: string)
    ensures SingleSpaced(r)
    ensures (r == []) == (s == [])
    ensures s != [] ==> (IsSpace(r[0]) <==> IsSpace(s[0]))
    decreases |s|
  {
    if s == [] then []
    else if IsSpace(s[0]) then
      SpaceRunFacts(s);
      [' '] + CollapseWhitespace(s[SpaceRun(s)..])
    else [s[0]] + CollapseWhitespace(s[1..])
  }

  predicate IsPunct(c: char) {
    c in ".,!?;:"
  }

  /** Every punctuation mark is followed by a space, unless it ends the text. */
  predicate PunctSpaced(s: string) {
    forall i :: 0 <= i < |s| - 1 && IsPunct(s[i]) ==> s[i + 1] == ' '
  }

  /** `re.sub(r'\s*([.,!?;:])\s*', r'\1 ', s)`: scanning left to right, whitespace that runs
      into a punctuation mark, the mark, and whitespace after it become the mark and one space. */
  function SpacePunctuation(s: string): (r: string)
    decreases |s|
  {
    if s == [] then []
    else if MarkMatch(s) > 0 then [s[SpaceRun(s)], ' '] + SpacePunctuation(s[MarkMatch(s)..])
    else [s[0]] + SpacePunctuation(s[1..])
  }

  /** Length of the match of `\s*([.,!?;:])\s*` at the start of `s`, or 0 when there is none. */
  function MarkMatch(s: string): (n: nat)
    ensures n <= |s|
    ensures n > 0 ==> SpaceRun(s) < n && IsPunct(s[SpaceRun(s)])
  {
    var n := SpaceRun(s);
    if n < |s| && IsPunct(s[n]) then n + 1 + SpaceRun(s[n + 1..]) else 0
  }

  /** A property of characters that holds of the space and of every character of `s` holds of
      every character `CollapseWhitespace` returns. */
  lemma {:induction false} CollapseWhitespaceKeeps(s: string, keep: char -> bool)
    requires keep(' ') && forall i :: 0 <= i < |s| ==> keep(s[i])
    ensures forall i :: 0 <= i < |CollapseWhitespace(s)| ==> keep(CollapseWhitespace(s)[i])
    decreases |s|
  {
    if s != [] {
      var n := if IsSpace(s[0]) then SpaceRun(s) else 1;
      assert forall i :: 0 <= i < |s[n..]| ==> s[n..][i] == s[n + i];
      CollapseWhitespaceKeeps(s[n..], keep);
    }
  }

  /** The same for `SpacePunctuation`. */
  lemma {:induction false} SpacePunctuationKeeps(s: string, keep: char -> bool)
    requires keep(' ') && forall i :: 0 <= i < |s| ==> keep(s[i])
    ensures forall i :: 0 <= i < |SpacePunctuation(s)| ==> keep(SpacePunctuation(s)[i])
    decreases |s|
  {
    if s != [] {
      if MarkMatch(s) > 0 {
        var k := MarkMatch(s);
        assert forall i :: 0 <= i < |s[k..]| ==> s[k..][i] == s[k + i];
        SpacePunctuationKeeps(s[k..], keep);
      } else {
        assert forall i :: 0 <= i < |s[1..]| ==> s[1..][i] == s[1 + i];
        SpacePunctuationKeeps(s[1..], keep);
      }
    }
  }

  lemma {:induction false} SingleSpacedSlice(s: string, a: nat, b: nat)
    requires a <= b <= |s| && SingleSpaced(s)
    ensures SingleSpaced(s[a..b])
  {
    var t := s[a..b];
    forall i | 0 <= i < |t| && IsSpace(t[i])
      ensures t[i] == ' ' && (i + 1 < |t| ==> !IsSpace(t[i + 1]))
    {
      assert t[i] == s[a + i];
      if i + 1 < |t| { assert t[i + 1] == s[a + i + 1]; }
    }
  }

  lemma {:induction false} PunctSpacedSlice(s: string, a: nat, b: nat)
    requires a <= b <= |s| && PunctSpaced(s)
    ensures PunctSpaced(s[a..b])
  {
    var t := s[a..b];
    forall i | 0 <= i < |t| - 1 && IsPunct(t[i])
      ensures t[i + 1] == ' '
    {
      assert t[i] == s[a + i] && t[i + 1] == s[a + i + 1];
    }
  }

  /** On single-spaced text, `SpacePunctuation` keeps it single spaced and gives every mark a
      following space. */
  lemma {:induction false} SpacePunctuationSpacing(s: string)
    requires SingleSpaced(s)
    ensures SingleSpaced(SpacePunctuation(s)) && PunctSpaced(SpacePunctuation(s))
    ensures SpacePunctuation(s) != [] && IsSpace(SpacePunctuation(s)[0]) ==> IsSpace(s[0])
    decreases |s|
  {
    if s != [] {
      var k := if MarkMatch(s) > 0 then MarkMatch(s) else 1;
      SingleSpacedSlice(s, k, |s|);
      SpacePunctuationSpacing(s[k..]);
      if MarkMatch(s) > 0 {
        SpacingAtMark(s);
      } else {
        SpacingAtPlain(s);
      }
    }
  }

  /** The step of `SpacePunctuationSpacing` at a punctuation mark. */
  lemma {:induction false} SpacingAtMark(s: string)
    requires SingleSpaced(s) && MarkMatch(s) > 0
    requires SingleSpaced(SpacePunctuation(s[MarkMatch(s)..])) && PunctSpaced(SpacePunctuation(s[MarkMatch(s)..]))
    ensures SingleSpaced(SpacePunctuation(s)) && PunctSpaced(SpacePunctuation(s))
    ensures !IsSpace(SpacePunctuation(s)[0])
  {
    var n := SpaceRun(s);
    var k := MarkMatch(s);
    var t := s[k..];
    assert t != [] ==> !IsSpace(t[0]) by {
      SpaceRunFacts(s[n + 1..]);
      if t != [] { assert s[n + 1..][k - n - 1] == t[0]; }
    }
    SpacedAfterPrefix([s[n], ' '], SpacePunctuation(t));
  }

  /** The step of `SpacePunctuationSpacing` at any other character. */
  lemma {:induction false} SpacingAtPlain(s: string)
    requires SingleSpaced(s) && s != [] && MarkMatch(s) == 0
    requires SingleSpaced(SpacePunctuation(s[1..])) && PunctSpaced(SpacePunctuation(s[1..]))
    requires SpacePunctuation(s[1..]) != [] && IsSpace(SpacePunctuation(s[1..])[0]) ==> IsSpace(s[1])
    ensures SingleSpaced(SpacePunctuation(s)) && PunctSpaced(SpacePunctuation(s))
    ensures IsSpace(SpacePunctuation(s)[0]) ==> IsSpace(s[0])
  {
    var t := s[1..];
    SpaceRunFacts(s);
    assert !IsPunct(s[0]) by {
      if IsSpace(s[0]) { assert s[0] == ' '; }
    }
    SpacedAfterPrefix([s[0]], SpacePunctuation(t));
  }

  /** Gluing a short prefix to a well-spaced text. */
  lemma {:induction false} SpacedAfterPrefix(p: string, t: string)
    requires SingleSpaced(t) && PunctSpaced(t)
    requires |p| == 1 || (|p| == 2 && IsPunct(p[0]) && p[1] == ' ')
    requires |p| == 1 ==> !IsPunct(p[0]) && (IsSpace(p[0]) ==> p[0] == ' ' && (t != [] ==> !IsSpace(t[0])))
    requires |p| == 2 ==> t == [] || !IsSpace(t[0])
    ensures SingleSpaced(p + t) && PunctSpaced(p + t)
  {
    var r := p + t;
    forall i | 0 <= i < |r| && IsSpace(r[i])
      ensures r[i] == ' ' && (i + 1 < |r| ==> !IsSpace(r[i + 1]))
    {
      if i >= |p| {
        assert r[i] == t[i - |p|];
        if i + 1 < |r| { assert r[i + 1] == t[i + 1 - |p|]; }
      } else if i + 1 < |r| && i + 1 >= |p| {
        assert r[i + 1] == t[0];
      }
    }
    forall i | 0 <= i < |r| - 1 && IsPunct(r[i])
      ensures r[i + 1] == ' '
    {
      if i >= |p| {
        assert r[i] == t[i - |p|] && r[i + 1] == t[i + 1 - |p|];
      }
    }
  }

  /** `preprocess_text(text, language)` with Python's character classes `cls`: `""` stays
      `""`; the prepared text is stripped and single spaced, and every punctuation mark is
      followed by a space unless it ends the text. */
  function PreprocessText(text: string, language: string, cls: CharClasses): (r: string)
    ensures text == "" ==> r == ""
    ensures Stripped(r) && SingleSpaced(r) && PunctSpaced(r)
  {
    if text == "" then ""
    else
      var filtered := if language == "ur" then KeepUrdu(text, cls) else MaskLatin(text, cls);
      var p := SpacePunctuation(CollapseWhitespace(filtered));
      assert Stripped(Strip(p)) && SingleSpaced(Strip(p)) && PunctSpaced(Strip(p)) by {
        SpacePunctuationSpacing(CollapseWhitespace(filtered));
        StripFacts(p);
        var a := |p| - |TrimStart(p)|;
        SingleSpacedSlice(p, a, a + |Strip(p)|);
        PunctSpacedSlice(p, a, a + |Strip(p)|);
      }
      Strip(p)
  }

  /** Whitespace collapsing, punctuation spacing and stripping only keep characters of their
      input or insert spaces. */
  lemma {:induction false} SpacingKeeps(filtered: string, keep: char -> bool)
    requires keep(' ') && forall i :: 0 <= i < |filtered| ==> keep(filtered[i])
    ensures forall i :: 0 <= i < |Strip(SpacePunctuation(CollapseWhitespace(filtered)))| ==>
      keep(Strip(SpacePunctuation(CollapseWhitespace(filtered)))[i])
  {
    CollapseWhitespaceKeeps(filtered, keep);
    var c := CollapseWhitespace(filtered);
    SpacePunctuationKeeps(c, keep);
    var p := SpacePunctuation(c);
    StripFacts(p);
    var a := |p| - |TrimStart(p)|;
    var r := Strip(p);
    assert forall i :: 0 <= i < |r| ==> r[i] == p[a + i];
  }

  /** Every character of the prepared text passed the language's filter: in the Urdu branch an
      Arabic-script letter, whitespace, a digit or one of `.,!?;:-`. */
  lemma {:induction false} PreprocessTextKeeps(text: string, language: string, cls: CharClasses)
    ensures language == "ur" ==> forall i :: 0 <= i < |PreprocessText(text, language, cls)| ==>
      IsUrduKeep(PreprocessText(text, language, cls)[i], cls)
    ensures language != "ur" ==> forall i :: 0 <= i < |PreprocessText(text, language, cls)| ==>
      IsLatinKeep(PreprocessText(text, language, cls)[i], cls)
  {
    if text != "" {
      if language == "ur" {
        SpacingKeeps(KeepUrdu(text, cls), c => IsUrduKeep(c, cls));
      } else {
        SpacingKeeps(MaskLatin(text, cls), c => IsLatinKeep(c, cls));
      }
    }
  }

  // ---------------------------------------------------------------------------
  // split_text_into_chunks

  predicate IsSentenceEnd(c: char) {
    c == '.' || c == '!' || c == '?'
  }

  /** A split point of `(?<=[.!?])\s+`: whitespace right after a sentence end. */
  predicate IsBreak(s: string, i: nat)
    requires 1 <= i < |s|
  {
    IsSentenceEnd(s[i - 1]) && IsSpace(s[i])
  }

  /** The first split point at or after `from`, or `|s|` when there is none. */
  function NextBreak(s: string, from: nat): (i: nat)
    requires 1 <= from <= |s|
    ensures from <= i <= |s|
    ensures i < |s| ==> IsBreak(s, i)
    ensures forall j :: from <= j < i ==> !IsBreak(s, j)
    decreases |s| - from
  {
    if from == |s| then |s|
    else if IsBreak(s, from) then from
    else NextBreak(s, from + 1)
  }

  /** `re.split(r'(?<=[.!?])\s+', s)`: the pieces between whitespace runs that follow a
      sentence end. */
  function Sentences(s: string): (r: seq<string>)
    ensures |r| >= 1
    decreases |s|
  {
    if s == [] then [""]
    else
      var i := NextBreak(s, 1);
      if i == |s| then [s]
      else [s[..i]] + Sentences(s[i + SpaceRun(s[i..])..])
  }

  /** Only the last piece can be empty. */
  lemma {:induction false} SentencesNonEmpty(s: string)
    ensures forall k :: 0 <= k < |Sentences(s)| - 1 ==> Sentences(s)[k] != ""
    decreases |s|
  {
    if s != [] {
      var i := NextBreak(s, 1);
      if i < |s| {
        var rest := s[i + SpaceRun(s[i..])..];
        SentencesNonEmpty(rest);
        assert Sentences(s) == [s[..i]] + Sentences(rest);
      }
    }
  }

  /** The text `current_chunk` holds after the sentences of `g` were added one by one: a
      sentence added to an empty chunk replaces it, otherwise it follows one space. */
  function Accumulate(g: seq<string>): string
    decreases |g|
  {
    if g == [] then ""
    else
      var a := Accumulate(g[..|g| - 1]);
      if a != "" then a + " " + g[|g| - 1] else g[|g| - 1]
  }

  /** The sentence groups the greedy loop turns into chunks, starting from the open group
      `group`. A new group starts when the open one is non-empty and adding the sentence
      would take it past `maxSize`; an empty open group at the end is dropped. */
  function PackGroups(ss: seq<string>, maxSize: int, group: seq<string>): seq<seq<string>>
    decreases |ss|
  {
    if ss == [] then (if Accumulate(group) != "" then [group] else [])
    else if |Accumulate(group)| + |ss[0]| > maxSize && Accumulate(group) != "" then
      [group] + PackGroups(ss[1..], maxSize, [ss[0]])
    else PackGroups(ss[1..], maxSize, group + [ss[0]])
  }

  function ChunkTexts(groups: seq<seq<string>>): (r: seq<string>)
    ensures |r| == |groups|
    ensures forall k :: 0 <= k < |groups| ==> r[k] == Strip(Accumulate(groups[k]))
  {
    seq(|groups|, k requires 0 <= k < |groups| => Strip(Accumulate(groups[k])))
  }

  /** The chunks `split_text_into_chunks(text, maxSize)` returns. */
  function SplitChunks(text: string, maxSize: int): (r: seq<string>)
    ensures |text| <= maxSize ==> r == [text]
  {
    if |text| <= maxSize then [text]
    else ChunkTexts(PackGroups(Sentences(text), maxSize, []))
  }

  /** `split_text_into_chunks`: the loop over the sentences that closes the current chunk when
      the next sentence does not fit, or appends the sentence to it. */
  method SplitTextIntoChunks(text: string, maxChunkSize: int) returns (chunks: seq<string>)
    ensures chunks == SplitChunks(text, maxChunkSize)
  {
    if |text| <= maxChunkSize {
      return [text];
    }
    var sentences := Sentences(text);
    chunks := [];
    var current := "";
    ghost var group: seq<string> := [];
    var i := 0;
    while i < |sentences|
      invariant 0 <= i <= |sentences|
      invariant current == Accumulate(group)
      invariant chunks + ChunkTexts(PackGroups(sentences[i..], maxChunkSize, group))
             == ChunkTexts(PackGroups(sentences, maxChunkSize, []))
    {
      var sentence := sentences[i];
      PackStep(sentences, i, maxChunkSize, group);
      if |current| + |sentence| > maxChunkSize && current != "" {
        chunks := chunks + [Strip(current)];
        current := sentence;
        group := [sentence];
      } else {
        current := if current != "" then current + " " + sentence else sentence;
        group := group + [sentence];
      }
      i := i + 1;
    }
    PackEnd(sentences, maxChunkSize, group);
    if current != "" {
      chunks := chunks + [Strip(current)];
    }
  }

  /** The end of the chunking loop: the open group is a last chunk if it holds any text. */
  lemma {:induction false} PackEnd(ss: seq<string>, maxSize: int, group: seq<string>)
    ensures ChunkTexts(PackGroups(ss[|ss|..], maxSize, group))
      == if Accumulate(group) != "" then [Strip(Accumulate(group))] else []
  {
    assert ss[|ss|..] == [];
  }

  /** One sentence of the chunking loop: either the open group is closed and the sentence opens
      the next one, or the sentence joins the open group. */
  lemma {:induction false} PackStep(ss: seq<string>, i: nat, maxSize: int, group: seq<string>)
    requires i < |ss|
    ensures |Accumulate(group)| + |ss[i]| > maxSize && Accumulate(group) != "" ==>
      ChunkTexts(PackGroups(ss[i..], maxSize, group))
        == [Strip(Accumulate(group))] + ChunkTexts(PackGroups(ss[i + 1..], maxSize, [ss[i]]))
        && Accumulate([ss[i]]) == ss[i]
    ensures !(|Accumulate(group)| + |ss[i]| > maxSize && Accumulate(group) != "") ==>
      PackGroups(ss[i..], maxSize, group) == PackGroups(ss[i + 1..], maxSize, group + [ss[i]])
        && Accumulate(group + [ss[i]])
           == if Accumulate(group) != "" then Accumulate(group) + " " + ss[i] else ss[i]
  {
    assert ss[i..][1..] == ss[i + 1..];
    assert ss[i..][0] == ss[i];
    assert [ss[i]][..0] == [];
    assert (group + [ss[i]])[..|group|] == group;
    var rest := PackGroups(ss[i + 1..], maxSize, [ss[i]]);
    assert ChunkTexts([group] + rest) == [Strip(Accumulate(group))] + ChunkTexts(rest);
  }

  function Flatten(groups: seq<seq<string>>): seq<string>
    decreases |groups|
  {
    if groups == [] then [] else groups[0] + Flatten(groups[1..])
  }

  predicate AllEmpty(ss: seq<string>) {
    forall k :: 0 <= k < |ss| ==> ss[k] == ""
  }

  /** Within a group, every sentence after the first fitted the chunk it joined (or the chunk
      was still empty). */
  predicate Packed(g: seq<string>, maxSize: int) {
    forall j :: 0 < j < |g| ==> |Accumulate(g[..j])| + |g[j]| <= maxSize || Accumulate(g[..j]) == ""
  }

  lemma {:induction false} AccumulateEmpty(g: seq<string>)
    ensures Accumulate(g) == "" <==> AllEmpty(g)
    decreases |g|
  {
    if g != [] {
      var init := g[..|g| - 1];
      AccumulateEmpty(init);
      if AllEmpty(g) {
        assert AllEmpty(init) by {
          forall k | 0 <= k < |init| ensures init[k] == "" { assert init[k] == g[k]; }
        }
      }
      if Accumulate(g) == "" {
        forall k | 0 <= k < |g| ensures g[k] == "" {
          if k < |init| { assert g[k] == init[k]; }
        }
      }
    }
  }

  /** A group that starts with a non-empty sentence accumulates into its sentences joined by
      single spaces. */
  lemma {:induction false} AccumulateJoin(g: seq<string>)
    requires g != [] && g[0] != ""
    ensures Accumulate(g) == Join(g, " ")
    decreases |g|
  {
    if |g| == 1 {
      assert g[..0] == [];
    } else {
      var init := g[..|g| - 1];
      AccumulateJoin(init);
      AccumulateEmpty(init);
      assert init[0] == g[0];
      JoinAppend(init, g[|g| - 1], " ");
      assert init + [g[|g| - 1]] == g;
    }
  }

  lemma {:induction false} FlattenAppend(a: seq<seq<string>>, b: seq<seq<string>>)
    ensures Flatten(a + b) == Flatten(a) + Flatten(b)
    decreases |a|
  {
    if a == [] {
      assert a + b == b;
    } else {
      assert (a + b)[1..] == a[1..] + b;
      FlattenAppend(a[1..], b);
    }
  }

  /** The open group the loop ends with. */
  function FinalGroup(ss: seq<string>, maxSize: int, group: seq<string>): seq<string>
    decreases |ss|
  {
    if ss == [] then group
    else if |Accumulate(group)| + |ss[0]| > maxSize && Accumulate(group) != "" then
      FinalGroup(ss[1..], maxSize, [ss[0]])
    else FinalGroup(ss[1..], maxSize, group + [ss[0]])
  }

  /** What the loop drops at the end: the final open group when it accumulated nothing. */
  function Dropped(ss: seq<string>, maxSize: int, group: seq<string>): seq<string> {
    var g := FinalGroup(ss, maxSize, group);
    if Accumulate(g) == "" then g else []
  }

  /** The groups hold the open group and then the sentences, in order and each exactly once,
      followed only by what the loop drops, which is empty sentences. */
  lemma {:induction false} PackGroupsCover(ss: seq<string>, maxSize: int, group: seq<string>)
    ensures Flatten(PackGroups(ss, maxSize, group)) + Dropped(ss, maxSize, group) == group + ss
    ensures AllEmpty(Dropped(ss, maxSize, group))
    decreases |ss|
  {
    AccumulateEmpty(FinalGroup(ss, maxSize, group));
    if ss == [] {
      if Accumulate(group) != "" {
        assert Flatten([group]) == group + Flatten([]);
      }
    } else if |Accumulate(group)| + |ss[0]| > maxSize && Accumulate(group) != "" {
      var rest := PackGroups(ss[1..], maxSize, [ss[0]]);
      PackGroupsCover(ss[1..], maxSize, [ss[0]]);
      assert [ss[0]] + ss[1..] == ss;
      assert Flatten([group] + rest) == group + Flatten(rest);
    } else {
      PackGroupsCover(ss[1..], maxSize, group + [ss[0]]);
      assert group + [ss[0]] + ss[1..] == group + ss;
    }
  }

  /** The shape of the groups: each accumulates into a non-empty chunk, each is packed, a group
      ends only where its chunk plus the next sentence exceeds `maxSize`, and the first group
      extends the open one. */
  lemma {:induction false} PackGroupsShape(ss: seq<string>, maxSize: int, group: seq<string>)
    requires Packed(group, maxSize)
    ensures Shaped(PackGroups(ss, maxSize, group), maxSize, group)
    decreases |ss|
  {
    if ss == [] {
      if Accumulate(group) != "" {
        assert group[..|group|] == group;
      }
    } else if |Accumulate(group)| + |ss[0]| > maxSize && Accumulate(group) != "" {
      assert Packed([ss[0]], maxSize);
      PackGroupsShape(ss[1..], maxSize, [ss[0]]);
      ShapedCut(group, ss[0], PackGroups(ss[1..], maxSize, [ss[0]]), maxSize);
    } else {
      PackedExtend(group, ss[0], maxSize);
      PackGroupsShape(ss[1..], maxSize, group + [ss[0]]);
      ShapedShorter(PackGroups(ss[1..], maxSize, group + [ss[0]]), maxSize, group, ss[0]);
    }
  }

  /** What `PackGroups` promises about its groups, given the group it starts from: each is a
      non-empty packed group with some text, a group was closed only because the next sentence
      did not fit, and the first group extends the starting one. */
  predicate Shaped(gs: seq<seq<string>>, maxSize: int, group: seq<string>) {
    && (forall k :: 0 <= k < |gs| ==> Accumulate(gs[k]) != "" && gs[k] != [] && Packed(gs[k], maxSize))
    && (forall k :: 0 <= k < |gs| - 1 ==> |Accumulate(gs[k])| + |gs[k + 1][0]| > maxSize)
    && (gs != [] ==> |gs[0]| >= |group| && gs[0][..|group|] == group)
  }

  /** Closing `group` in front of the groups that start from the next sentence. */
  lemma {:induction false} ShapedCut(group: seq<string>, s: string, rest: seq<seq<string>>, maxSize: int)
    requires Packed(group, maxSize) && Accumulate(group) != "" && |Accumulate(group)| + |s| > maxSize
    requires Shaped(rest, maxSize, [s])
    ensures Shaped([group] + rest, maxSize, group)
  {
    var gs := [group] + rest;
    assert gs[0] == group;
    assert forall k :: 0 < k < |gs| ==> gs[k] == rest[k - 1];
    if rest != [] {
      assert rest[0][..1] == [s];
      assert rest[0][0] == s;
    }
    assert group[..|group|] == group;
    assert group != [] by { AccumulateEmpty(group); }
    forall k | 0 <= k < |gs| - 1
      ensures |Accumulate(gs[k])| + |gs[k + 1][0]| > maxSize
    {
      if k > 0 { assert gs[k] == rest[k - 1] && gs[k + 1] == rest[k]; }
    }
    forall k | 0 <= k < |gs|
      ensures Accumulate(gs[k]) != "" && gs[k] != [] && Packed(gs[k], maxSize)
    {
      if k > 0 { assert gs[k] == rest[k - 1]; }
    }
  }

  /** A sentence that fits keeps the group packed. */
  lemma {:induction false} PackedExtend(group: seq<string>, s: string, maxSize: int)
    requires Packed(group, maxSize)
    requires |Accumulate(group)| + |s| <= maxSize || Accumulate(group) == ""
    ensures Packed(group + [s], maxSize)
  {
    var g' := group + [s];
    forall j | 0 < j < |g'|
      ensures |Accumulate(g'[..j])| + |g'[j]| <= maxSize || Accumulate(g'[..j]) == ""
    {
      if j < |group| {
        assert g'[..j] == group[..j] && g'[j] == group[j];
      } else {
        assert g'[..j] == group;
      }
    }
  }

  /** Groups that extend `group + [s]` extend `group`. */
  lemma {:induction false} ShapedShorter(gs: seq<seq<string>>, maxSize: int, group: seq<string>, s: string)
    requires Shaped(gs, maxSize, group + [s])
    ensures Shaped(gs, maxSize, group)
  {
    if gs != [] {
      assert gs[0][..|group| + 1][..|group|] == (group + [s])[..|group|] == group;
    }
  }

  /** No group starts with an empty sentence when only the last sentence can be empty. */
  lemma {:induction false} PackGroupsLead(ss: seq<string>, maxSize: int, group: seq<string>)
    requires forall k :: 0 <= k < |ss| - 1 ==> ss[k] != ""
    requires group == [] || group[0] != "" || (|group| == 1 && ss == [])
    ensures forall k :: 0 <= k < |PackGroups(ss, maxSize, group)| ==>
      PackGroups(ss, maxSize, group)[k] != [] && PackGroups(ss, maxSize, group)[k][0] != ""
    decreases |ss|
  {
    var gs := PackGroups(ss, maxSize, group);
    if ss == [] {
      if group != [] && group[0] == "" {
        assert AllEmpty(group);
        AccumulateEmpty(group);
      }
    } else if |Accumulate(group)| + |ss[0]| > maxSize && Accumulate(group) != "" {
      PackGroupsLead(ss[1..], maxSize, [ss[0]]);
      var rest := PackGroups(ss[1..], maxSize, [ss[0]]);
      assert gs == [group] + rest;
      assert group != [] by { AccumulateEmpty(group); }
      assert group[0] != "";
      forall k | 0 <= k < |gs| ensures gs[k] != [] && gs[k][0] != "" {
        if k > 0 {
          assert gs[k] == rest[k - 1];
        } else {
          assert gs[k] == group;
        }
      }
    } else {
      var g' := group + [ss[0]];
      if group == [] {
        assert g' == [ss[0]];
      } else {
        assert g'[0] == group[0];
      }
      PackGroupsLead(ss[1..], maxSize, g');
    }
  }

  /** Every sentence of a group is one of the open group or of the input. */
  lemma {:induction false} PackGroupsMembers(ss: seq<string>, maxSize: int, group: seq<string>)
    ensures forall k, j :: 0 <= k < |PackGroups(ss, maxSize, group)| && 0 <= j < |PackGroups(ss, maxSize, group)[k]| ==>
      PackGroups(ss, maxSize, group)[k][j] in group + ss
    decreases |ss|
  {
    var gs := PackGroups(ss, maxSize, group);
    if ss != [] {
      assert [ss[0]] + ss[1..] == ss;
      if |Accumulate(group)| + |ss[0]| > maxSize && Accumulate(group) != "" {
        PackGroupsMembers(ss[1..], maxSize, [ss[0]]);
        var rest := PackGroups(ss[1..], maxSize, [ss[0]]);
        assert gs == [group] + rest;
        forall k, j | 0 <= k < |gs| && 0 <= j < |gs[k]| ensures gs[k][j] in group + ss {
          if k > 0 {
            assert gs[k] == rest[k - 1];
          }
        }
      } else {
        PackGroupsMembers(ss[1..], maxSize, group + [ss[0]]);
        assert group + [ss[0]] + ss[1..] == group + ss;
      }
    }
  }

  /** The sentence groups behind the chunks of a text longer than `maxSize`. */
  function ChunkGroups(text: string, maxSize: int): seq<seq<string>> {
    PackGroups(Sentences(text), maxSize, [])
  }

  /** Chunks never split a sentence and keep sentence order: each chunk is one group of
      consecutive sentences joined by single spaces and stripped, and the groups are the
      sentences in order, except for an empty last piece. */
  lemma {:induction false} ChunksFollowSentences(text: string, maxSize: int)
    requires |text| > maxSize
    ensures var gs := ChunkGroups(text, maxSize); var chunks := SplitChunks(text, maxSize);
      && |chunks| == |gs|
      && (forall k :: 0 <= k < |gs| ==> gs[k] != [] && chunks[k] == Strip(Join(gs[k], " ")))
      && Flatten(gs) + Dropped(Sentences(text), maxSize, []) == Sentences(text)
      && AllEmpty(Dropped(Sentences(text), maxSize, []))
  {
    var ss := Sentences(text);
    var gs := ChunkGroups(text, maxSize);
    SentencesNonEmpty(text);
    PackGroupsLead(ss, maxSize, []);
    PackGroupsCover(ss, maxSize, []);
    assert [] + ss == ss;
    forall k | 0 <= k < |gs| ensures Accumulate(gs[k]) == Join(gs[k], " ") {
      AccumulateJoin(gs[k]);
    }
  }

  /** A new chunk starts only when the current one is non-empty and the next sentence would take
      it past `maxSize`; within a chunk every added sentence fitted. */
  lemma {:induction false} ChunkBoundaries(text: string, maxSize: int)
    requires |text| > maxSize
    ensures var gs := ChunkGroups(text, maxSize);
      && (forall k :: 0 <= k < |gs| ==> gs[k] != [])
      && (forall k :: 0 <= k < |gs| - 1 ==> |Join(gs[k], " ")| + |gs[k + 1][0]| > maxSize)
      && (forall k, j :: 0 <= k < |gs| && 0 < j < |gs[k]| ==> |Join(gs[k][..j], " ")| + |gs[k][j]| <= maxSize)
  {
    var ss := Sentences(text);
    var gs := ChunkGroups(text, maxSize);
    SentencesNonEmpty(text);
    PackGroupsLead(ss, maxSize, []);
    PackGroupsShape(ss, maxSize, []);
    forall k | 0 <= k < |gs| ensures Accumulate(gs[k]) == Join(gs[k], " ") {
      AccumulateJoin(gs[k]);
    }
    forall k, j | 0 <= k < |gs| && 0 < j < |gs[k]|
      ensures |Join(gs[k][..j], " ")| + |gs[k][j]| <= maxSize
    {
      var p := gs[k][..j];
      assert p[0] == gs[k][0];
      AccumulateJoin(p);
      AccumulateEmpty(p);
    }
  }

  /** A chunk of two or more sentences is at most `maxSize + 1` long (the joining space is not
      counted), and a sentence longer than `maxSize` is a chunk on its own. */
  lemma {:induction false} ChunkSizes(text: string, maxSize: int)
    requires |text| > maxSize
    ensures var gs := ChunkGroups(text, maxSize); var chunks := SplitChunks(text, maxSize);
      && (forall k :: 0 <= k < |gs| && |gs[k]| >= 2 ==> |chunks[k]| <= maxSize + 1)
      && (forall k, j :: 0 <= k < |gs| && 0 <= j < |gs[k]| && |gs[k][j]| > maxSize ==> gs[k] == [gs[k][j]])
  {
    var ss := Sentences(text);
    var gs := ChunkGroups(text, maxSize);
    SentencesNonEmpty(text);
    PackGroupsLead(ss, maxSize, []);
    PackGroupsShape(ss, maxSize, []);
    forall k | 0 <= k < |gs| && |gs[k]| >= 2
      ensures |Strip(Accumulate(gs[k]))| <= maxSize + 1
    {
      var g := gs[k];
      var init := g[..|g| - 1];
      assert init[0] == g[0];
      AccumulateEmpty(init);
      assert Accumulate(g) == Accumulate(init) + " " + g[|g| - 1];
    }
    forall k, j | 0 <= k < |gs| && 0 <= j < |gs[k]| && |gs[k][j]| > maxSize
      ensures gs[k] == [gs[k][j]]
    {
      var g := gs[k];
      forall i | 0 < i < |g| ensures Accumulate(g[..i]) != "" {
        assert g[..i][0] == g[0];
        AccumulateEmpty(g[..i]);
      }
      assert Accumulate(g[..1]) == g[0] by { assert g[..1][..0] == []; }
      if j > 0 {
        assert false;
      }
      if |g| >= 2 {
        assert false;
      }
    }
  }

  // ---------------------------------------------------------------------------
  // normalize_text_for_tts

  /** The abbreviation table, in dictionary order. */
  const Abbreviations: seq<(string, string)> := [
    ("Mr.", "Mister"), ("Mrs.", "Misses"), ("Dr.", "Doctor"),
    ("etc.", "etcetera"), ("e.g.", "for example"), ("i.e.", "that is")]

  /** The table's replacements applied one after the other; when every pattern holds a dot,
      a text without a dot is left as it is. */
  function ExpandAbbreviations(text: string, table: seq<(string, string)>): (r: string)
    requires forall k :: 0 <= k < |table| ==> table[k].0 != []
    ensures (forall k :: 0 <= k < |table| ==> '.' in table[k].0) && '.' !in text ==> r == text
    decreases |table|
  {
    if table == [] then text
    else
      var pat := table[0].0;
      assert '.' in pat && '.' !in text ==> Replace(text, pat, table[0].1) == text by {
        if '.' in pat && '.' !in text {
          var k :| 0 <= k < |pat| && pat[k] == '.';
          NotContainsChar(text, pat, k);
          ReplaceAbsent(text, pat, table[0].1);
        }
      }
      ExpandAbbreviations(Replace(text, pat, table[0].1), table[1..])
  }

  /** A character of a URL as the pattern accepts it: `a-z`, the range `$`..`_` (which holds
      the digits, the capitals and the listed symbols) and `!`. */
  predicate IsUrlChar(c: char) {
    ('a' <= c <= 'z') || ('$' <= c <= '_') || c == '!'
  }

  function UrlRun(s: string): (n: nat)
    ensures n <= |s|
  {
    if s == [] || !IsUrlChar(s[0]) then 0 else 1 + UrlRun(s[1..])
  }

  /** Length of the URL match of `http[s]?://...+` at the start of `s`, or 0. */
  function UrlMatch(s: string): (n: nat)
    ensures n <= |s|
    ensures n > 0 ==> StartsWith(s, "http")
  {
    if StartsWith(s, "https://") && UrlRun(s[8..]) > 0 then 8 + UrlRun(s[8..])
    else if StartsWith(s, "http://") && UrlRun(s[7..]) > 0 then 7 + UrlRun(s[7..])
    else 0
  }

  /** Removes every URL, scanning left to right: the text gets no longer, and a text without
      `http` is left as it is. */
  function RemoveUrls(s: string): (r: string)
    ensures |r| <= |s|
    ensures !Contains(s, "http") ==> r == s
    decreases |s|
  {
    if s == [] then []
    else if UrlMatch(s) > 0 then RemoveUrls(s[UrlMatch(s)..])
    else
      assert s == [s[0]] + s[1..];
      [s[0]] + RemoveUrls(s[1..])
  }

  /** A word `\S+@\S+` matches: an `@` with at least one character on each side. */
  predicate HasInnerAt(w: string) {
    |w| >= 3 && '@' in w[1..|w| - 1]
  }

  /** `re.sub(r'\S+@\S+', '', s)`: every whitespace-delimited word with an inner `@` goes, so
      the text gets no longer, and a text without `@` is left as it is. */
  function RemoveEmails(s: string): (r: string)
    ensures |r| <= |s|
    ensures '@' !in s ==> r == s
    decreases |s|
  {
    if s == [] then []
    else if IsSpace(s[0]) then
      assert '@' !in s ==> '@' !in s[1..] && s == [s[0]] + s[1..] by {
        if '@' !in s { NotInSlice('@', s, 1, |s|); SplitAt(s, 1); }
      }
      [s[0]] + RemoveEmails(s[1..])
    else
      var n := WordLength(s);
      assert '@' !in s ==> !HasInnerAt(s[..n]) && '@' !in s[n..] && s == s[..n] + s[n..] by {
        if '@' !in s {
          NotInSlice('@', s, 0, n);
          if n >= 3 {
            NotInSlice('@', s[..n], 1, n - 1);
          }
          NotInSlice('@', s, n, |s|);
          SplitAt(s, n);
        }
      }
      (if HasInnerAt(s[..n]) then [] else s[..n]) + RemoveEmails(s[n..])
  }

  /** What `normalize_text_for_tts` returns: a stripped text, which for a text with no
      abbreviation dot, no `http` and no `@` is the text with its outer whitespace removed. */
  function NormalizedForTts(text: string): (r: string)
    ensures Stripped(r)
    ensures '.' !in text && '@' !in text && !Contains(text, "http") ==> r == Strip(text)
  {
    var t := RemoveEmails(RemoveUrls(ExpandAbbreviations(text, Abbreviations)));
    StripFacts(t);
    AbbreviationsHaveDots();
    Strip(t)
  }

  /** `normalize_text_for_tts(text, language)`: the loop over the abbreviation table, then the
      URL and e-mail removal and the strip. The language is not used. */
  method NormalizeForTts(text: string, language: string) returns (r: string)
    ensures r == NormalizedForTts(text)
  {
    var t := text;
    var i := 0;
    while i < |Abbreviations|
      invariant 0 <= i <= |Abbreviations|
      invariant ExpandAbbreviations(t, Abbreviations[i..]) == ExpandAbbreviations(text, Abbreviations)
    {
      assert Abbreviations[i..][1..] == Abbreviations[i + 1..];
      t := Replace(t, Abbreviations[i].0, Abbreviations[i].1);
      i := i + 1;
    }
    r := Strip(RemoveEmails(RemoveUrls(t)));
  }

  lemma {:induction false} NotContainsChar(s: string, p: string, k: nat)
    requires k < |p| && p[k] !in s
    ensures !Contains(s, p)
    decreases |s|
  {
    if s != [] {
      NotContainsChar(s[1..], p, k);
    }
  }

  /** Every abbreviation in the table contains a dot. */
  lemma {:induction false} AbbreviationsHaveDots()
    ensures forall k :: 0 <= k < |Abbreviations| ==> Abbreviations[k].0 != [] && '.' in Abbreviations[k].0
  {
    var t := Abbreviations;
    assert t[0].0[2] == '.' && t[1].0[3] == '.' && t[2].0[2] == '.';
    assert t[3].0[3] == '.' && t[4].0[1] == '.' && t[5].0[1] == '.';
  }
}
