/** The pure part of the on-disk audio cache of services/tts_service.py: how a text becomes a
    cache key, how cache files are named, and the age order the cleanup evicts by. */
module AudioCache {
  import opened Wrappers
  import opened Text

  type Bytes = seq<bv8>

  /** One file of the cache directory: its contents and its modification time. */
  datatype CacheFile = CacheFile(data: Bytes, mtime: int)

  // ---------------------------------------------------------------------------
  // Cache keys

  /** The text `_get_cache_key` hashes: lower-cased, stripped, whitespace runs made one space. */
  function Normalized(text: string): string {
    Join(Words(Strip(Lower(text))), " ")
  }

  /** `_get_cache_key(text)`: the MD5 hex digest of the normalised text. The digest is a
      parameter; the key depends on the text alone, not on the engine or the language. */
  function CacheKey(md5: string -> string, text: string): (r: string)
    ensures r == md5(Join(Words(Lower(text)), " "))
  {
    NormalizedWords(text);
    md5(Normalized(text))
  }

  /** The normalised text is the lower-cased text's words joined by single spaces. */
  lemma {:induction false} NormalizedWords(text: string)
    ensures Normalized(text) == Join(Words(Lower(text)), " ")
  {
    WordsStrip(Lower(text));
  }

  /** Texts with the same words once lower-cased share a key. */
  lemma {:induction false} SameWordsSameKey(md5: string -> string, a: string, b: string)
    requires Words(Lower(a)) == Words(Lower(b))
    ensures CacheKey(md5, a) == CacheKey(md5, b)
  {
    NormalizedWords(a);
    NormalizedWords(b);
  }

  /** ASCII case does not change the key. */
  lemma {:induction false} KeyIgnoresCase(md5: string -> string, text: string)
    ensures CacheKey(md5, Lower(text)) == CacheKey(md5, text)
  {
    LowerIdempotent(text);
  }

  /** Whitespace around the text does not change the key. */
  lemma {:induction false} KeyIgnoresOuterSpace(md5: string -> string, w1: string, text: string, w2: string)
    requires AllSpace(w1) && AllSpace(w2)
    ensures CacheKey(md5, w1 + text + w2) == CacheKey(md5, text)
  {
    LowerAppend(w1 + text, w2);
    LowerAppend(w1, text);
    LowerKeepsSpace(w1);
    LowerKeepsSpace(w2);
    var t := Lower(text);
    assert Lower(w1 + text + w2) == w1 + t + w2;
    assert w1 + t + w2 == w1 + (t + w2);
    WordsSpacePrefix(w1, t + w2);
    WordsSpaceSuffix(t, w2);
    SameWordsSameKey(md5, w1 + text + w2, text);
  }

  lemma {:induction false} WordsSpaceSuffix(s: string, w: string)
    requires AllSpace(w)
    ensures Words(s + w) == Words(s)
  {
    if w != [] {
      WordsSplitAt(s, w, "");
      assert s + w + "" == s + w;
      assert Words("") == [];
    } else {
      assert s + w == s;
    }
  }

  /** Any run of whitespace inside the text counts as one space. */
  lemma {:induction false} KeyCollapsesSpaceRun(md5: string -> string, a: string, w: string, b: string)
    requires w != [] && AllSpace(w)
    ensures CacheKey(md5, a + w + b) == CacheKey(md5, a + " " + b)
  {
    LowerAppend(a + w, b);
    LowerAppend(a, w);
    LowerAppend(a + " ", b);
    LowerAppend(a, " ");
    LowerKeepsSpace(w);
    assert Lower(" ") == " ";
    WordsSplitAt(Lower(a), w, Lower(b));
    WordsSplitAt(Lower(a), " ", Lower(b));
    SameWordsSameKey(md5, a + w + b, a + " " + b);
  }

  // ---------------------------------------------------------------------------
  // Cache files

  /** `{key}.wav`. */
  function FileName(key: string): string {
    key + ".wav"
  }

  /** The files `glob("*.wav")` lists. */
  function WavNames(files: map<string, CacheFile>): set<string> {
    set n | n in files && EndsWith(n, ".wav")
  }

  /** `Path(name).stem` of a `.wav` name: the name without its last suffix, except that a
      name that is only `.wav` has no suffix. */
  function Stem(name: string): (r: string)
    requires EndsWith(name, ".wav")
    ensures name == ".wav" ==> r == name
    ensures name != ".wav" ==> r + ".wav" == name
  {
    if |name| == 4 then name else name[..|name| - 4]
  }

  /** The stem of a cache file is its key again. */
  lemma {:induction false} StemFileName(key: string)
    requires key != ""
    ensures EndsWith(FileName(key), ".wav") && Stem(FileName(key)) == key
  {
    assert FileName(key)[..|key|] == key;
  }

  /** The stems of the listed `.wav` names. */
  function Stems(names: seq<string>): (r: set<string>)
    requires forall i :: 0 <= i < |names| ==> EndsWith(names[i], ".wav")
    ensures forall i :: 0 <= i < |names| ==> Stem(names[i]) in r
    ensures forall k :: k in r ==> exists i :: 0 <= i < |names| && Stem(names[i]) == k
  {
    set i | 0 <= i < |names| :: Stem(names[i])
  }

  lemma {:induction false} StemsAppend(names: seq<string>, f: string)
    requires forall i :: 0 <= i < |names| ==> EndsWith(names[i], ".wav")
    requires EndsWith(f, ".wav")
    ensures Stems(names + [f]) == Stems(names) + {Stem(f)}
  {
    var t := names + [f];
    assert forall i :: 0 <= i < |t| ==> EndsWith(t[i], ".wav") by {
      forall i | 0 <= i < |t| ensures EndsWith(t[i], ".wav") {
        if i < |names| { assert t[i] == names[i]; } else { assert t[i] == f; }
      }
    }
    forall k | k in Stems(t) ensures k in Stems(names) + {Stem(f)} {
      var i :| 0 <= i < |t| && Stem(t[i]) == k;
      if i < |names| {
        assert t[i] == names[i];
        assert Stem(names[i]) in Stems(names);
      } else {
        assert t[i] == f;
      }
    }
    forall k | k in Stems(names) + {Stem(f)} ensures k in Stems(t) {
      if k in Stems(names) {
        var i :| 0 <= i < |names| && Stem(names[i]) == k;
        assert t[i] == names[i];
      } else {
        assert t[|names|] == f;
      }
    }
  }

  // ---------------------------------------------------------------------------
  // Ordering by age

  predicate Distinct<T(==)>(s: seq<T>) {
    forall i, j :: 0 <= i < j < |s| ==> s[i] != s[j]
  }

  function Elems<T(==)>(s: seq<T>): set<T> {
    set x | x in s
  }

  /** Names that are all in the directory. */
  predicate Listed(names: seq<string>, files: map<string, CacheFile>) {
    forall i :: 0 <= i < |names| ==> names[i] in files
  }

  /** Oldest first. */
  predicate ByAge(names: seq<string>, files: map<string, CacheFile>)
    requires Listed(names, files)
  {
    forall i, j :: 0 <= i < j < |names| ==> files[names[i]].mtime <= files[names[j]].mtime
  }

  /** Put `n` before the first name that is not older than it. */
  function Insert(n: string, names: seq<string>, files: map<string, CacheFile>): (r: seq<string>)
    requires n in files && Listed(names, files)
    ensures Listed(r, files)
    decreases |names|
  {
    if names == [] || files[n].mtime <= files[names[0]].mtime then [n] + names
    else [names[0]] + Insert(n, names[1..], files)
  }

  /** `cache_files.sort(key=lambda x: x.stat().st_mtime)`, as an insertion sort. */
  function SortByAge(names: seq<string>, files: map<string, CacheFile>): (r: seq<string>)
    requires Listed(names, files)
    ensures Listed(r, files)
    decreases |names|
  {
    if names == [] then [] else Insert(names[0], SortByAge(names[1..], files), files)
  }

  /** No name of `names` is older than `m`. */
  predicate NotBefore(names: seq<string>, files: map<string, CacheFile>, m: int)
    requires Listed(names, files)
  {
    forall k :: 0 <= k < |names| ==> m <= files[names[k]].mtime
  }

  lemma {:induction false} InsertNotBefore(n: string, names: seq<string>, files: map<string, CacheFile>, m: int)
    requires n in files && Listed(names, files)
    requires NotBefore(names, files, m) && m <= files[n].mtime
    ensures NotBefore(Insert(n, names, files), files, m)
    decreases |names|
  {
    if names != [] && files[n].mtime > files[names[0]].mtime {
      InsertNotBefore(n, names[1..], files, m);
    }
  }

  lemma {:induction false} ByAgeCons(x: string, names: seq<string>, files: map<string, CacheFile>)
    requires x in files && Listed(names, files)
    requires ByAge(names, files) && NotBefore(names, files, files[x].mtime)
    ensures ByAge([x] + names, files)
  {
    var r := [x] + names;
    forall i, j | 0 <= i < j < |r| ensures files[r[i]].mtime <= files[r[j]].mtime {
      assert r[j] == names[j - 1];
      if i > 0 { assert r[i] == names[i - 1]; }
    }
  }

  lemma {:induction false} InsertPermutes(n: string, names: seq<string>, files: map<string, CacheFile>)
    requires n in files && Listed(names, files)
    ensures multiset(Insert(n, names, files)) == multiset(names) + multiset{n}
    decreases |names|
  {
    if names != [] && files[n].mtime > files[names[0]].mtime {
      InsertPermutes(n, names[1..], files);
      assert names == [names[0]] + names[1..];
    }
  }

  lemma {:induction false} ByAgeTail(names: seq<string>, files: map<string, CacheFile>)
    requires names != [] && Listed(names, files) && ByAge(names, files)
    ensures ByAge(names[1..], files) && NotBefore(names[1..], files, files[names[0]].mtime)
  {
    var tail := names[1..];
    forall i, j | 0 <= i < j < |tail| ensures files[tail[i]].mtime <= files[tail[j]].mtime {
      assert tail[i] == names[i + 1] && tail[j] == names[j + 1];
    }
    forall k | 0 <= k < |tail| ensures files[names[0]].mtime <= files[tail[k]].mtime {
      assert tail[k] == names[k + 1];
    }
  }

  lemma {:induction false} InsertSorted(n: string, names: seq<string>, files: map<string, CacheFile>)
    requires n in files && Listed(names, files) && ByAge(names, files)
    ensures ByAge(Insert(n, names, files), files)
    decreases |names|
  {
    if names == [] || files[n].mtime <= files[names[0]].mtime {
      assert NotBefore(names, files, files[n].mtime) by {
        forall k | 0 <= k < |names| ensures files[n].mtime <= files[names[k]].mtime {
          if k > 0 { assert files[names[0]].mtime <= files[names[k]].mtime; }
        }
      }
      ByAgeCons(n, names, files);
    } else {
      var tail := names[1..];
      ByAgeTail(names, files);
      InsertSorted(n, tail, files);
      InsertNotBefore(n, tail, files, files[names[0]].mtime);
      ByAgeCons(names[0], Insert(n, tail, files), files);
    }
  }

  /** The sort orders the names oldest first and keeps every one of them. */
  lemma {:induction false} SortByAgeFacts(names: seq<string>, files: map<string, CacheFile>)
    requires Listed(names, files)
    ensures ByAge(SortByAge(names, files), files)
    ensures multiset(SortByAge(names, files)) == multiset(names)
    decreases |names|
  {
    if names != [] {
      SortByAgeFacts(names[1..], files);
      InsertSorted(names[0], SortByAge(names[1..], files), files);
      InsertPermutes(names[0], SortByAge(names[1..], files), files);
      assert names == [names[0]] + names[1..];
    }
  }

  /** A rearrangement of distinct names is distinct and has the same elements. */
  lemma {:induction false} PermutationDistinct(a: seq<string>, b: seq<string>)
    requires multiset(a) == multiset(b) && Distinct(a)
    ensures Distinct(b) && Elems(b) == Elems(a)
  {
    forall i, j | 0 <= i < j < |b| ensures b[i] != b[j] {
      DistinctCount(a, b[i]);
      if b[i] == b[j] {
        CountTwo(b, i, j);
        assert false;
      }
    }
    assert forall x :: x in a <==> x in multiset(a);
    assert forall x :: x in b <==> x in multiset(b);
  }

  lemma {:induction false} CountTwo(b: seq<string>, i: nat, j: nat)
    requires i < j < |b| && b[i] == b[j]
    ensures multiset(b)[b[i]] >= 2
  {
    assert b == b[..i] + [b[i]] + b[i + 1..j] + [b[j]] + b[j + 1..];
  }

  /** Each element occurs at most once in a distinct sequence. */
  lemma {:induction false} DistinctCount(a: seq<string>, x: string)
    requires Distinct(a)
    ensures multiset(a)[x] <= 1
    decreases |a|
  {
    if a != [] {
      assert a == [a[0]] + a[1..];
      DistinctCount(a[1..], x);
      if a[0] == x {
        assert x !in a[1..];
      }
    }
  }

  /** A distinct sequence has as many elements as its set. */
  lemma {:induction false} DistinctCard<T>(s: seq<T>)
    requires Distinct(s)
    ensures |Elems(s)| == |s|
    decreases |s|
  {
    if s != [] {
      var t := s[1..];
      DistinctCard(t);
      assert Elems(s) == Elems(t) + {s[0]} by {
        assert forall x :: x in s <==> x == s[0] || x in t;
      }
      assert s[0] !in Elems(t);
    }
  }

  // ---------------------------------------------------------------------------
  // The cache state and its operations

  /** The class-level index `_audio_cache` (key to True), the files of the cache directory,
      and the last snapshot of the index written to `cache_index.pkl`, if any. */
  datatype CacheState = CacheState(index: map<string, bool>, files: map<string, CacheFile>, saved: Option<map<string, bool>>)

  /** `_get_from_cache(key)`: the bytes of `{key}.wav` when the key is indexed and the file
      exists, `None` otherwise. */
  function Lookup(c: CacheState, key: string): (r: Option<Bytes>)
    ensures r.Some? <==> key in c.index && FileName(key) in c.files
    ensures r.Some? ==> r.value == c.files[FileName(key)].data
  {
    if key in c.index && FileName(key) in c.files then Some(c.files[FileName(key)].data) else None
  }

  /** The callers test `if cached_audio:`, so an empty cached file counts as a miss. */
  predicate Hit(r: Option<Bytes>) {
    r.Some? && r.value != []
  }

  /** The result of `_cleanup_cache` on `c0`, having evicted the files `ev` (oldest first).
      Only more than 200 `.wav` files trigger it; it then deletes the 50 oldest, pops their
      stems from the index and saves the index. Files are counted, not index entries. */
  ghost predicate CleanedUp(c0: CacheState, ev: seq<string>, c1: CacheState) {
    var wav := WavNames(c0.files);
    if |wav| <= 200 then ev == [] && c1 == c0
    else
      && |ev| == 50 && Distinct(ev) && (forall i :: 0 <= i < |ev| ==> ev[i] in wav)
      && c1 == CacheState(c0.index - Stems(ev), c0.files - Elems(ev), Some(c0.index - Stems(ev)))
      && (forall i, n :: 0 <= i < |ev| && n in WavNames(c1.files) ==> c0.files[ev[i]].mtime <= c0.files[n].mtime)
  }

  /** The state right after `_save_to_cache(key, audio)` has written `{key}.wav` (stamped
      `now`) and indexed the key, before any cleanup: the index is saved when its size is a
      multiple of 10. */
  function Written(c0: CacheState, key: string, audio: Bytes, now: int): (c: CacheState)
    ensures forall k :: k in c.index <==> k in c0.index || k == key
    ensures c.index[key]
    ensures forall n :: n in c.files <==> n in c0.files || n == FileName(key)
    ensures c.files[FileName(key)] == CacheFile(audio, now)
    ensures forall n :: n in c0.files && n != FileName(key) ==> c.files[n] == c0.files[n]
  {
    var index1 := c0.index[key := true];
    CacheState(index1, c0.files[FileName(key) := CacheFile(audio, now)],
               if |index1| % 10 == 0 then Some(index1) else c0.saved)
  }

  /** The result of `_save_to_cache(key, audio)` on `c0` at time `now`. A failed write is
      absorbed and changes nothing. Otherwise the file is written and the key indexed, and
      cleanup runs when the index then holds more than 200 keys. */
  ghost predicate SavedTo(c0: CacheState, key: string, audio: Bytes, now: int, writable: bool, c1: CacheState) {
    if !writable then c1 == c0
    else if |Written(c0, key, audio, now).index| <= 200 then c1 == Written(c0, key, audio, now)
    else exists ev :: CleanedUp(Written(c0, key, audio, now), ev, c1)
  }

  /** A save evicts nothing when the index stays within 200 keys (no cleanup runs) or the
      directory then holds at most 200 `.wav` files (the cleanup deletes nothing). */
  predicate SaveEvictsNothing(c0: CacheState, key: string, audio: Bytes, now: int) {
    |Written(c0, key, audio, now).index| <= 200 || |WavNames(Written(c0, key, audio, now).files)| <= 200
  }

  /** A successful save that evicts nothing ends in the written state. */
  lemma {:induction false} SavedWithoutEviction(c0: CacheState, key: string, audio: Bytes, now: int, c1: CacheState)
    requires SavedTo(c0, key, audio, now, true, c1) && SaveEvictsNothing(c0, key, audio, now)
    ensures c1 == Written(c0, key, audio, now)
  {
    var w := Written(c0, key, audio, now);
    if |w.index| > 200 {
      var ev :| CleanedUp(w, ev, c1);
    }
  }

  /** Round trip: once saved without an eviction, the key looks up exactly the bytes written. */
  lemma {:induction false} SaveThenLookup(c0: CacheState, key: string, audio: Bytes, now: int, c1: CacheState)
    requires SavedTo(c0, key, audio, now, true, c1) && SaveEvictsNothing(c0, key, audio, now)
    ensures Lookup(c1, key) == Some(audio)
    ensures key in c1.index && c1.index[key]
  {
    SavedWithoutEviction(c0, key, audio, now, c1);
  }

  /** A save without an eviction leaves every other key's lookup as it was. */
  lemma {:induction false} SaveKeepsOthers(c0: CacheState, key: string, audio: Bytes, now: int, writable: bool, c1: CacheState, other: string)
    requires SavedTo(c0, key, audio, now, writable, c1) && SaveEvictsNothing(c0, key, audio, now)
    requires other != key
    ensures Lookup(c1, other) == Lookup(c0, other)
  {
    if writable {
      SavedWithoutEviction(c0, key, audio, now, c1);
      FileNameInjective(other, key);
    }
  }

  lemma {:induction false} FileNameInjective(a: string, b: string)
    ensures FileName(a) == FileName(b) ==> a == b
  {
    assert a == FileName(a)[..|a|];
    assert b == FileName(b)[..|b|];
  }

  /** A save without an eviction writes the index out exactly when its size after insertion
      is a multiple of 10. */
  lemma {:induction false} SavePersistsIndex(c0: CacheState, key: string, audio: Bytes, now: int, c1: CacheState)
    requires SavedTo(c0, key, audio, now, true, c1) && SaveEvictsNothing(c0, key, audio, now)
    ensures c1.saved == if |c1.index| % 10 == 0 then Some(c1.index) else c0.saved
  {
    SavedWithoutEviction(c0, key, audio, now, c1);
  }

  /** The only `.wav` name other than `{key}.wav` whose stem is `key` is the bare `.wav`. */
  lemma {:induction false} StemIs(n: string, key: string)
    requires EndsWith(n, ".wav") && Stem(n) == key
    ensures n == FileName(key) || (n == ".wav" && key == ".wav")
  {
  }

  /** A save whose index exceeds 200 keys runs the cleanup: 50 files go when the directory
      then holds more than 200 `.wav` files, none otherwise; a cleanup that deletes files saves
      the index; the keys of deleted files miss; every other key (whose file was not deleted
      and which is no deleted file's stem) looks up as before; and when every other file is
      older than the save, the new file survives and its key looks up the bytes written,
      except for the key `.wav`, which is the stem of the file `.wav`. */
  lemma {:induction false} SaveWithCleanup(c0: CacheState, key: string, audio: Bytes, now: int, c1: CacheState) returns (ev: seq<string>)
    requires SavedTo(c0, key, audio, now, true, c1) && |Written(c0, key, audio, now).index| > 200
    ensures CleanedUp(Written(c0, key, audio, now), ev, c1)
    ensures |ev| == if |WavNames(Written(c0, key, audio, now).files)| > 200 then 50 else 0
    ensures forall i :: 0 <= i < |ev| ==> EndsWith(ev[i], ".wav")
    ensures c1.saved == if ev != [] || |c1.index| % 10 == 0 then Some(c1.index) else c0.saved
    ensures forall other :: FileName(other) in ev ==> Lookup(c1, other) == None
    ensures forall other :: other != key && FileName(other) !in ev && other !in Stems(ev) ==> Lookup(c1, other) == Lookup(c0, other)
    ensures key in Stems(ev) ==> FileName(key) in ev || key == ".wav"
    ensures (forall n :: n in c0.files && n != FileName(key) ==> c0.files[n].mtime < now) ==>
              FileName(key) !in ev && (key != ".wav" ==> Lookup(c1, key) == Some(audio))
  {
    var w := Written(c0, key, audio, now);
    ev :| CleanedUp(w, ev, c1);
    if |WavNames(w.files)| > 200 {
      CleanupEvicts(c0, key, audio, now, ev, c1);
    } else {
      CleanupDeletesNothing(c0, key, audio, now, ev, c1);
    }
  }

  /** The cleanup branch that deletes 50 files. */
  lemma {:induction false} CleanupEvicts(c0: CacheState, key: string, audio: Bytes, now: int, ev: seq<string>, c1: CacheState)
    requires CleanedUp(Written(c0, key, audio, now), ev, c1) && |WavNames(Written(c0, key, audio, now).files)| > 200
    ensures |ev| == 50
    ensures forall i :: 0 <= i < |ev| ==> EndsWith(ev[i], ".wav")
    ensures c1.saved == Some(c1.index)
    ensures forall other :: FileName(other) in ev ==> Lookup(c1, other) == None
    ensures forall other :: other != key && FileName(other) !in ev && other !in Stems(ev) ==> Lookup(c1, other) == Lookup(c0, other)
    ensures key in Stems(ev) ==> FileName(key) in ev || key == ".wav"
    ensures (forall n :: n in c0.files && n != FileName(key) ==> c0.files[n].mtime < now) ==>
              FileName(key) !in ev && (key != ".wav" ==> Lookup(c1, key) == Some(audio))
  {
    CleanupMisses(c0, key, audio, now, ev, c1);
    CleanupKeepsOthers(c0, key, audio, now, ev, c1);
    if forall n :: n in c0.files && n != FileName(key) ==> c0.files[n].mtime < now {
      NewestSurvives(c0, key, audio, now, ev, c1);
      if key != ".wav" {
        KeptKeyLooksUp(c0, key, audio, now, ev, c1);
      }
    }
  }

  /** The key saved looks up the bytes written when the cleanup kept its file and did not pop
      it as the stem of the file `.wav`. */
  lemma {:induction false} KeptKeyLooksUp(c0: CacheState, key: string, audio: Bytes, now: int, ev: seq<string>, c1: CacheState)
    requires CleanedUp(Written(c0, key, audio, now), ev, c1) && |WavNames(Written(c0, key, audio, now).files)| > 200
    requires FileName(key) !in ev && key != ".wav"
    ensures Lookup(c1, key) == Some(audio)
  {
    var w := Written(c0, key, audio, now);
    CleanupMisses(c0, key, audio, now, ev, c1);
    assert c1.index == w.index - Stems(ev) && c1.files == w.files - Elems(ev);
  }

  /** A save whose cleanup found at most 200 `.wav` files ends in the written state. */
  lemma {:induction false} CleanupDeletesNothing(c0: CacheState, key: string, audio: Bytes, now: int, ev: seq<string>, c1: CacheState)
    requires CleanedUp(Written(c0, key, audio, now), ev, c1) && |WavNames(Written(c0, key, audio, now).files)| <= 200
    ensures ev == [] && c1 == Written(c0, key, audio, now)
    ensures Lookup(c1, key) == Some(audio)
    ensures forall other :: other != key ==> Lookup(c1, other) == Lookup(c0, other)
  {
    forall other | other != key ensures Lookup(c1, other) == Lookup(c0, other) {
      FileNameInjective(other, key);
    }
  }

  /** After a save whose cleanup deleted files, the keys of deleted files miss, and the key
      saved was popped only with its own file or as the stem of the file `.wav`. */
  lemma {:induction false} CleanupMisses(c0: CacheState, key: string, audio: Bytes, now: int, ev: seq<string>, c1: CacheState)
    requires CleanedUp(Written(c0, key, audio, now), ev, c1) && |WavNames(Written(c0, key, audio, now).files)| > 200
    ensures forall i :: 0 <= i < |ev| ==> EndsWith(ev[i], ".wav")
    ensures forall other :: FileName(other) in ev ==> Lookup(c1, other) == None
    ensures key in Stems(ev) ==> FileName(key) in ev || key == ".wav"
  {
    var w := Written(c0, key, audio, now);
    assert c1.files == w.files - Elems(ev);
    if key in Stems(ev) {
      var i :| 0 <= i < |ev| && Stem(ev[i]) == key;
      StemIs(ev[i], key);
    }
  }

  /** After a save whose cleanup deleted files, every other key whose file was kept and which
      is no deleted file's stem looks up as before the save. */
  lemma {:induction false} CleanupKeepsOthers(c0: CacheState, key: string, audio: Bytes, now: int, ev: seq<string>, c1: CacheState)
    requires CleanedUp(Written(c0, key, audio, now), ev, c1) && |WavNames(Written(c0, key, audio, now).files)| > 200
    ensures forall i :: 0 <= i < |ev| ==> EndsWith(ev[i], ".wav")
    ensures forall other :: other != key && FileName(other) !in ev && other !in Stems(ev) ==> Lookup(c1, other) == Lookup(c0, other)
  {
    var w := Written(c0, key, audio, now);
    assert c1.files == w.files - Elems(ev) && c1.index == w.index - Stems(ev);
    forall other | other != key && FileName(other) !in ev && other !in Stems(ev)
      ensures Lookup(c1, other) == Lookup(c0, other)
    {
      var f := FileName(other);
      assert f != FileName(key) by { FileNameInjective(other, key); }
      assert f in c1.files <==> f in c0.files;
      assert other in c1.index <==> other in c0.index;
    }
  }

  /** When every other file is older than the one just written, a cleanup evicts the oldest
      50 of more than 200, which cannot include the newest file. */
  lemma {:induction false} NewestSurvives(c0: CacheState, key: string, audio: Bytes, now: int, ev: seq<string>, c1: CacheState)
    requires CleanedUp(Written(c0, key, audio, now), ev, c1) && |WavNames(Written(c0, key, audio, now).files)| > 200
    requires forall n :: n in c0.files && n != FileName(key) ==> c0.files[n].mtime < now
    ensures FileName(key) !in ev
  {
    var w := Written(c0, key, audio, now);
    CleanupCount(w, ev, c1);
    var rest := WavNames(c1.files);
    assert |rest| > 0;
    var n :| n in rest;
    if n != FileName(key) {
      assert w.files[n].mtime < now;
      forall i | 0 <= i < |ev| ensures ev[i] != FileName(key) {
        assert w.files[ev[i]].mtime <= w.files[n].mtime;
      }
    }
  }

  /** A cleanup of more than 200 `.wav` files leaves exactly 50 fewer. */
  lemma {:induction false} CleanupCount(c0: CacheState, ev: seq<string>, c1: CacheState)
    requires CleanedUp(c0, ev, c1) && |WavNames(c0.files)| > 200
    ensures |WavNames(c1.files)| == |WavNames(c0.files)| - 50
  {
    var wav := WavNames(c0.files);
    var e := Elems(ev);
    DistinctCard(ev);
    assert e <= wav;
    assert WavNames(c1.files) == wav - e;
    assert |wav - e| == |wav| - |e| by { SetDifferenceCard(wav, e); }
  }

  lemma {:induction false} SetDifferenceCard<T>(a: set<T>, b: set<T>)
    requires b <= a
    ensures |a - b| == |a| - |b|
  {
    assert a == (a - b) + b;
    assert (a - b) * b == {};
  }

  /** Cleanup leaves every file it does not delete, and every index entry whose key is no
      deleted file's stem, unchanged. */
  lemma {:induction false} CleanupKeepsRest(c0: CacheState, ev: seq<string>, c1: CacheState, n: string, k: string)
    requires CleanedUp(c0, ev, c1)
    ensures n in c0.files && n !in ev ==> n in c1.files && c1.files[n] == c0.files[n]
    ensures k in c0.index && (forall i :: 0 <= i < |ev| ==> Stem(ev[i]) != k) ==> k in c1.index
  {
    if |WavNames(c0.files)| > 200 {
      assert forall i :: 0 <= i < |ev| ==> EndsWith(ev[i], ".wav");
    }
  }
}
