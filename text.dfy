/** Python `str` operations used throughout the pipeline, on Dafny strings
    (sequences of Unicode scalar values). */
module Text {

  /** Python's `str.isspace()`; it is also what the regular-expression class `\s`
      matches in a `str` pattern. */
  predicate IsSpace(c: char) {
    c == ' ' || ('\t' <= c <= '\r') || ('\U{1c}' <= c <= '\U{1f}') || c == '\U{85}' || c == '\U{a0}'
    || c == '\U{1680}' || ('\U{2000}' <= c <= '\U{200a}') || c == '\U{2028}' || c == '\U{2029}'
    || c == '\U{202f}' || c == '\U{205f}' || c == '\U{3000}'
  }

  predicate AllSpace(s: string) {
    forall i :: 0 <= i < |s| ==> IsSpace(s[i])
  }

  /** No whitespace at either end: what `str.strip()` leaves. */
  predicate Stripped(s: string) {
    s == [] || (!IsSpace(s[0]) && !IsSpace(s[|s| - 1]))
  }

  // ---------------------------------------------------------------------------
  // Case

  /** `str.lower()` on one character, restricted to the ASCII letters. */
  function LowerChar(c: char): char {
    if 'A' <= c <= 'Z' then (c as int + 32) as char else c
  }

  function Lower(s: string): (r: string)
    ensures |r| == |s|
    ensures forall i :: 0 <= i < |s| ==> r[i] == LowerChar(s[i])
  {
    seq(|s|, i requires 0 <= i < |s| => LowerChar(s[i]))
  }

  lemma {:induction false} LowerAppend(a: string, b: string)
    ensures Lower(a + b) == Lower(a) + Lower(b)
  {
    assert forall i :: 0 <= i < |a + b| ==> Lower(a + b)[i] == (Lower(a) + Lower(b))[i];
  }

  lemma {:induction false} LowerIdempotent(s: string)
    ensures Lower(Lower(s)) == Lower(s)
  {
    assert forall i :: 0 <= i < |s| ==> Lower(Lower(s))[i] == Lower(s)[i];
  }

  /** Lower-casing never turns whitespace into something else, nor anything into whitespace. */
  lemma {:induction false} LowerKeepsSpace(s: string)
    ensures forall i :: 0 <= i < |s| ==> (IsSpace(Lower(s)[i]) <==> IsSpace(s[i]))
    ensures AllSpace(s) ==> Lower(s) == s
  {
  }

  // ---------------------------------------------------------------------------
  // Stripping

  /** `str.lstrip()`: drops the longest all-whitespace prefix. */
  function TrimStart(s: string): (r: string)
    ensures |r| <= |s|
    decreases |s|
  {
    if s != [] && IsSpace(s[0]) then TrimStart(s[1..]) else s
  }

  /** `TrimStart` drops exactly the whitespace prefix: a suffix remains that starts with a
      non-space, and everything before it is whitespace. */
  lemma {:induction false} TrimStartFacts(s: string)
    ensures TrimStart(s) == s[|s| - |TrimStart(s)|..]
    ensures AllSpace(s[..|s| - |TrimStart(s)|])
    ensures TrimStart(s) != [] ==> !IsSpace(TrimStart(s)[0])
    decreases |s|
  {
    if s != [] && IsSpace(s[0]) {
      TrimStartFacts(s[1..]);
      var r := TrimStart(s);
      assert s[..|s| - |r|] == [s[0]] + s[1..][..|s| - 1 - |r|];
    }
  }

  /** `str.rstrip()`: drops the longest all-whitespace suffix. */
  function TrimEnd(s: string): (r: string)
    ensures |r| <= |s|
    decreases |s|
  {
    if s != [] && IsSpace(s[|s| - 1]) then TrimEnd(s[..|s| - 1]) else s
  }

  /** `TrimEnd` drops exactly the whitespace suffix. */
  lemma {:induction false} TrimEndFacts(s: string)
    ensures TrimEnd(s) == s[..|TrimEnd(s)|]
    ensures AllSpace(s[|TrimEnd(s)|..])
    ensures TrimEnd(s) != [] ==> !IsSpace(TrimEnd(s)[|TrimEnd(s)| - 1])
    decreases |s|
  {
    if s != [] && IsSpace(s[|s| - 1]) {
      TrimEndFacts(s[..|s| - 1]);
      var r := TrimEnd(s);
      assert s[|r|..] == s[..|s| - 1][|r|..] + [s[|s| - 1]];
    }
  }

  /** `str.strip()`. */
  function Strip(s: string): (r: string)
    ensures |r| <= |s|
  {
    TrimEnd(TrimStart(s))
  }

  /** `Strip` gives the slice of `s` between its leading and its trailing whitespace; it is
      empty exactly when `s` is all whitespace. */
  lemma {:induction false} StripFacts(s: string)
    ensures Stripped(Strip(s))
    ensures |s| - |TrimStart(s)| + |Strip(s)| <= |s|
    ensures Strip(s) == s[|s| - |TrimStart(s)|..|s| - |TrimStart(s)| + |Strip(s)|]
    ensures AllSpace(s[..|s| - |TrimStart(s)|])
    ensures AllSpace(s[|s| - |TrimStart(s)| + |Strip(s)|..])
    ensures Strip(s) == [] <==> AllSpace(s)
  {
    StripSlice(s);
    var a := |s| - |TrimStart(s)|;
    if Strip(s) != [] {
      assert Strip(s)[0] == s[a];
    } else {
      AllSpaceJoin(s, a);
    }
  }

  /** Where `Strip(s)` sits in `s`, and that its ends are not whitespace. */
  lemma {:induction false} StripSlice(s: string)
    ensures |s| - |TrimStart(s)| + |Strip(s)| <= |s|
    ensures Strip(s) == s[|s| - |TrimStart(s)|..|s| - |TrimStart(s)| + |Strip(s)|]
    ensures AllSpace(s[..|s| - |TrimStart(s)|])
    ensures AllSpace(s[|s| - |TrimStart(s)| + |Strip(s)|..])
    ensures Strip(s) != [] ==> !IsSpace(Strip(s)[0]) && !IsSpace(Strip(s)[|Strip(s)| - 1])
  {
    var t := TrimStart(s);
    var r := TrimEnd(t);
    TrimStartFacts(s);
    TrimEndFacts(t);
    SliceOfSlice(s, |s| - |t|, |r|);
    if r != [] {
      assert r[0] == t[0];
    }
  }

  /** A string made of two all-whitespace pieces is all whitespace. */
  lemma {:induction false} AllSpaceJoin(s: string, a: nat)
    requires a <= |s| && AllSpace(s[..a]) && AllSpace(s[a..])
    ensures AllSpace(s)
  {
    forall i | 0 <= i < |s|
      ensures IsSpace(s[i])
    {
      if i < a {
        assert s[i] == s[..a][i];
      } else {
        assert s[i] == s[a..][i - a];
      }
    }
  }

  lemma {:induction false} SliceOfSlice<T>(s: seq<T>, a: nat, m: nat)
    requires a + m <= |s|
    ensures s[a..][..m] == s[a..a + m]
    ensures s[a..][m..] == s[a + m..]
  {
  }

  lemma {:induction false} StripAllSpaceSuffix(s: string, w: string)
    requires AllSpace(w)
    ensures TrimEnd(s + w) == TrimEnd(s)
    decreases |w|
  {
    if w != [] {
      assert (s + w)[..|s + w| - 1] == s + w[..|w| - 1];
      StripAllSpaceSuffix(s, w[..|w| - 1]);
    } else {
      assert s + w == s;
    }
  }

  lemma {:induction false} TrimStartAllSpacePrefix(w: string, s: string)
    requires AllSpace(w)
    ensures TrimStart(w + s) == TrimStart(s)
    decreases |w|
  {
    if w != [] {
      assert (w + s)[1..] == w[1..] + s;
      TrimStartAllSpacePrefix(w[1..], s);
    } else {
      assert w + s == s;
    }
  }

  // ---------------------------------------------------------------------------
  // Searching

  predicate StartsWith(s: string, p: string) {
    |p| <= |s| && s[..|p|] == p
  }

  /** `s.endswith(p)`. */
  predicate EndsWith(s: string, p: string) {
    |p| <= |s| && s[|s| - |p|..] == p
  }

  /** A suffix of a suffix is a suffix. */
  lemma {:induction false} EndsWithTrans(s: string, p: string, q: string)
    requires EndsWith(s, p) && EndsWith(p, q)
    ensures EndsWith(s, q)
  {
    assert s[|s| - |q|..] == s[|s| - |p|..][|p| - |q|..];
  }

  /** `p in s` for strings. */
  predicate Contains(s: string, p: string)
    decreases |s|
  {
    StartsWith(s, p) || (s != [] && Contains(s[1..], p))
  }

  /** Index of the first `c` in `s`, or `|s|` when there is none. */
  function IndexOf(s: string, c: char): (i: nat)
    ensures i <= |s|
    ensures i < |s| ==> s[i] == c
    ensures forall j :: 0 <= j < i ==> s[j] != c
  {
    if s == [] || s[0] == c then 0 else 1 + IndexOf(s[1..], c)
  }

  /** Index of the last `c` in `s` (`str.rfind`), or -1 when there is none. */
  function LastIndexOf(s: string, c: char): (i: int)
    ensures -1 <= i < |s|
    ensures 0 <= i ==> s[i] == c
    ensures forall j :: i < j < |s| ==> s[j] != c
    decreases |s|
  {
    if s == [] then -1
    else if s[|s| - 1] == c then |s| - 1
    else LastIndexOf(s[..|s| - 1], c)
  }

  // ---------------------------------------------------------------------------
  // Joining and splitting

  /** `sep.join(parts)`. */
  function Join(parts: seq<string>, sep: string): string
    decreases |parts|
  {
    if |parts| == 0 then ""
    else if |parts| == 1 then parts[0]
    else parts[0] + sep + Join(parts[1..], sep)
  }

  lemma {:induction false} JoinAppend(parts: seq<string>, x: string, sep: string)
    requires parts != []
    ensures Join(parts + [x], sep) == Join(parts, sep) + sep + x
    decreases |parts|
  {
    if |parts| == 1 {
      assert parts + [x] == [parts[0], x];
      assert [parts[0], x][1..] == [x];
    } else {
      assert (parts + [x])[1..] == parts[1..] + [x];
      JoinAppend(parts[1..], x, sep);
    }
  }

  /** `s.split(c)` for a one-character separator: at least one piece, none holding `c`. */
  function Split(s: string, c: char): (r: seq<string>)
    ensures |r| >= 1
    ensures forall k :: 0 <= k < |r| ==> c !in r[k]
    decreases |s|
  {
    var i := IndexOf(s, c);
    if i == |s| then [s] else [s[..i]] + Split(s[i + 1..], c)
  }

  /** Splitting on a character and joining back with it gives the text back. */
  lemma {:induction false} JoinSplit(s: string, c: char)
    ensures Join(Split(s, c), [c]) == s
    decreases |s|
  {
    var i := IndexOf(s, c);
    if i < |s| {
      var rest := Split(s[i + 1..], c);
      JoinSplit(s[i + 1..], c);
      var parts := [s[..i]] + rest;
      assert Split(s, c) == parts;
      assert |parts| >= 2 && parts[0] == s[..i] && parts[1..] == rest;
      assert Join(parts, [c]) == s[..i] + [c] + Join(rest, [c]);
      assert s == s[..i] + [c] + s[i + 1..];
    }
  }

  /** Length of the longest prefix of `s` without whitespace. */
  function WordLength(s: string): (n: nat)
    ensures n <= |s|
  {
    if s == [] || IsSpace(s[0]) then 0 else 1 + WordLength(s[1..])
  }

  lemma {:induction false} WordLengthFacts(s: string)
    ensures var n := WordLength(s);
      && (forall i :: 0 <= i < n ==> !IsSpace(s[i]))
      && (n < |s| ==> IsSpace(s[n]))
    decreases |s|
  {
    if s != [] && !IsSpace(s[0]) {
      WordLengthFacts(s[1..]);
    }
  }

  /** `s.split()` with no argument: the maximal runs of non-whitespace, in order. */
  function Words(s: string): (r: seq<string>)
    decreases |s|
  {
    if s == [] then []
    else if IsSpace(s[0]) then Words(s[1..])
    else
      var n := WordLength(s);
      [s[..n]] + Words(s[n..])
  }

  lemma {:induction false} WordsSkipSpace(c: char, s: string)
    requires IsSpace(c)
    ensures Words([c] + s) == Words(s)
  {
    assert ([c] + s)[1..] == s;
  }

  lemma {:induction false} WordLengthAppend(a: string, b: string)
    requires WordLength(a) < |a| || (b != [] && IsSpace(b[0]))
    ensures WordLength(a + b) == WordLength(a)
    decreases |a|
  {
    if a == [] {
      assert a + b == b;
    } else {
      assert (a + b)[0] == a[0];
      if !IsSpace(a[0]) {
        assert (a + b)[1..] == a[1..] + b;
        WordLengthAppend(a[1..], b);
      }
    }
  }

  /** Whitespace in front changes no word. */
  lemma {:induction false} WordsSpacePrefix(w: string, s: string)
    requires AllSpace(w)
    ensures Words(w + s) == Words(s)
    decreases |w|
  {
    if w == [] {
      assert w + s == s;
    } else {
      assert w + s == [w[0]] + (w[1..] + s);
      WordsSkipSpace(w[0], w[1..] + s);
      WordsSpacePrefix(w[1..], s);
    }
  }

  /** A string that starts with a word yields that word first. */
  lemma {:induction false} WordsAtWord(s: string)
    requires s != [] && !IsSpace(s[0])
    ensures Words(s) == [s[..WordLength(s)]] + Words(s[WordLength(s)..])
  {
  }

  /** A non-empty string without whitespace is one word. */
  lemma {:induction false} WordsOneWord(w: string)
    requires w != [] && forall i :: 0 <= i < |w| ==> !IsSpace(w[i])
    ensures Words(w) == [w]
  {
    WordLengthWhole(w);
    assert w[..|w|] == w;
    assert w[|w|..] == [];
  }

  lemma {:induction false} WordLengthWhole(w: string)
    requires forall i :: 0 <= i < |w| ==> !IsSpace(w[i])
    ensures WordLength(w) == |w|
    decreases |w|
  {
    if w != [] {
      assert forall i :: 0 <= i < |w[1..]| ==> w[1..][i] == w[i + 1];
      WordLengthWhole(w[1..]);
    }
  }

  /** A non-empty whitespace run separates words: what is on either side is split independently. */
  lemma {:induction false} WordsSplitAt(a: string, w: string, b: string)
    requires w != [] && AllSpace(w)
    ensures Words(a + w + b) == Words(a) + Words(b)
    decreases |a|
  {
    if a == [] {
      assert a + w + b == w + b;
      WordsSpacePrefix(w, b);
    } else if IsSpace(a[0]) {
      WordsSplitAt(a[1..], w, b);
      WordsSplitAtSpace(a, w, b);
    } else {
      var n := WordLength(a);
      WordsSplitAt(a[n..], w, b);
      WordsBeforeSpace(a, w, b);
      WordsAtWord(a);
      AppendAssoc([a[..n]], Words(a[n..]), Words(b));
    }
  }

  /** The step of `WordsSplitAt` past a leading space of `a`. */
  lemma {:induction false} WordsSplitAtSpace(a: string, w: string, b: string)
    requires a != [] && IsSpace(a[0])
    requires Words(a[1..] + w + b) == Words(a[1..]) + Words(b)
    ensures Words(a + w + b) == Words(a) + Words(b)
  {
    ConsAppend(a, w, b);
    WordsSkipSpace(a[0], a[1..] + w + b);
    WordsSkipSpace(a[0], a[1..]);
  }

  /** The first word of `a + w + b` when `a` starts with a word and `w` with a space. */
  lemma {:induction false} WordsBeforeSpace(a: string, w: string, b: string)
    requires a != [] && !IsSpace(a[0]) && w != [] && IsSpace(w[0])
    ensures Words(a + w + b) == [a[..WordLength(a)]] + Words(a[WordLength(a)..] + w + b)
  {
    var n := WordLength(a);
    assert a + w + b == a + (w + b);
    assert a[n..] + (w + b) == a[n..] + w + b;
    assert IsSpace((w + b)[0]);
    WordsWordPrefix(a, w + b);
  }



  /** A word at the front of `a`, ended by the space that starts `c`, is the first word of `a + c`. */
  lemma {:induction false} WordsWordPrefix(a: string, c: string)
    requires a != [] && !IsSpace(a[0]) && c != [] && IsSpace(c[0])
    ensures Words(a + c) == [a[..WordLength(a)]] + Words(a[WordLength(a)..] + c)
  {
    var s := a + c;
    var n := WordLength(a);
    WordLengthAppend(a, c);
    SliceAppend(a, c, n);
    assert s[0] == a[0];
  }

  lemma {:induction false} AppendAssoc<T>(x: seq<T>, y: seq<T>, z: seq<T>)
    ensures x + (y + z) == (x + y) + z
  {
  }

  lemma {:induction false} ConsAppend<T>(a: seq<T>, w: seq<T>, b: seq<T>)
    requires a != []
    ensures a == [a[0]] + a[1..]
    ensures a + w + b == [a[0]] + (a[1..] + w + b)
  {
  }

  lemma {:induction false} SplitAt<T>(s: seq<T>, n: nat)
    requires n <= |s|
    ensures s == s[..n] + s[n..]
    ensures n == 1 ==> s == [s[0]] + s[1..]
  {
  }

  lemma {:induction false} NotInSlice<T>(x: T, s: seq<T>, i: nat, j: nat)
    requires x !in s && i <= j <= |s|
    ensures x !in s[i..j]
  {
  }

  /** Cutting `a + c` inside `a`. */
  lemma {:induction false} SliceAppend<T>(a: seq<T>, c: seq<T>, n: nat)
    requires n <= |a|
    ensures (a + c)[..n] == a[..n]
    ensures (a + c)[n..] == a[n..] + c
  {
  }



  lemma {:induction false} WordsTrimStart(s: string)
    ensures Words(TrimStart(s)) == Words(s)
    decreases |s|
  {
    if s != [] && IsSpace(s[0]) {
      assert s == [s[0]] + s[1..];
      WordsSkipSpace(s[0], s[1..]);
      WordsTrimStart(s[1..]);
    }
  }

  /** Leading and trailing whitespace do not change the words. */
  lemma {:induction false} WordsStrip(s: string)
    ensures Words(Strip(s)) == Words(s)
  {
    var t := TrimStart(s);
    WordsTrimStart(s);
    var r := TrimEnd(t);
    TrimEndFacts(t);
    var tail := t[|r|..];
    assert t == r + tail;
    if tail != [] {
      WordsSplitAt(r, tail, "");
      assert r + tail + "" == t;
      assert Words("") == [];
    }
  }

  /** Empty or starting with whitespace: whether a character put in front starts a word of
      its own. */
  predicate LeadSpace(s: string) {
    s == [] || IsSpace(s[0])
  }

  /** The words after a non-space character is put in front: a word of its own before
      whitespace, otherwise the first word grown by it. */
  lemma {:induction false} WordsConsWord(c: char, s: string)
    requires !IsSpace(c)
    ensures LeadSpace(s) ==> Words([c] + s) == [[c]] + Words(s)
    ensures !LeadSpace(s) ==> Words(s) != [] && Words([c] + s) == [[c] + Words(s)[0]] + Words(s)[1..]
  {
    var u := [c] + s;
    assert u[1..] == s;
    if LeadSpace(s) {
      assert WordLength(s) == 0;
      assert WordLength(u) == 1;
      assert u[..1] == [c];
    } else {
      var n := WordLength(s);
      assert WordLength(u) == 1 + n;
      assert u[..1 + n] == [c] + s[..n];
      assert u[1 + n..] == s[n..];
    }
  }

  /** Texts with the same words and the same kind of start keep the same words when one
      character is put in front of both. */
  lemma {:induction false} WordsCons(c: char, s: string, t: string)
    requires Words(s) == Words(t) && LeadSpace(s) == LeadSpace(t)
    ensures Words([c] + s) == Words([c] + t)
  {
    if IsSpace(c) {
      WordsSkipSpace(c, s);
      WordsSkipSpace(c, t);
    } else {
      WordsConsWord(c, s);
      WordsConsWord(c, t);
    }
  }

  /** Joining with whitespace pieces that have the same words gives the same words. */
  lemma {:induction false} JoinSameWords(ps: seq<string>, qs: seq<string>, sep: string)
    requires sep != [] && AllSpace(sep) && |ps| == |qs|
    requires forall k :: 0 <= k < |ps| ==> Words(ps[k]) == Words(qs[k])
    ensures Words(Join(ps, sep)) == Words(Join(qs, sep))
    decreases |ps|
  {
    if |ps| >= 2 {
      JoinSameWords(ps[1..], qs[1..], sep);
      WordsSplitAt(ps[0], sep, Join(ps[1..], sep));
      WordsSplitAt(qs[0], sep, Join(qs[1..], sep));
      assert Words(ps[0]) == Words(qs[0]);
    } else if |ps| == 1 {
      assert Words(ps[0]) == Words(qs[0]);
    }
  }

  // ---------------------------------------------------------------------------
  // Replacement

  /** `s.replace(pat, rep)`: every non-overlapping occurrence, scanning left to right. */
  function Replace(s: string, pat: string, rep: string): string
    requires pat != []
    decreases |s|
  {
    if |s| < |pat| then s
    else if s[..|pat|] == pat then rep + Replace(s[|pat|..], pat, rep)
    else [s[0]] + Replace(s[1..], pat, rep)
  }

  /** Replacing every occurrence of one character by text without it leaves none behind. */
  lemma {:induction false} ReplaceRemovesChar(s: string, c: char, rep: string)
    requires c !in rep
    ensures c !in Replace(s, [c], rep)
    decreases |s|
  {
    if |s| >= 1 {
      ReplaceRemovesChar(s[1..], c, rep);
      if s[..1] != [c] {
        assert s[0] != c;
      }
    }
  }

  /** A text in which the pattern does not occur is returned unchanged. */
  lemma {:induction false} ReplaceAbsent(s: string, pat: string, rep: string)
    requires pat != [] && !Contains(s, pat)
    ensures Replace(s, pat, rep) == s
    decreases |s|
  {
    if |s| >= |pat| {
      assert !StartsWith(s, pat);
      ReplaceAbsent(s[1..], pat, rep);
      assert s == [s[0]] + s[1..];
    }
  }
}
