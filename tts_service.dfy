/** The live `TTSService` of services/tts_service.py: the class-level audio cache, the
    load-once Coqui model, the cache-first Coqui and gTTS paths with their gTTS fallback, the
    pyttsx3 and ElevenLabs paths, and the `generate_speech` dispatch. The speech engines are
    oracles that either return audio bytes or raise (`None`). */
module TtsService {
  import opened Wrappers
  import opened Text
  import opened AudioCache
  import opened TtsTables

  /** A loaded Coqui model object. */
  datatype ModelHandle = ModelHandle(name: string)

  /** The foreign engines. Each synthesis oracle returns the encoded audio, or `None` for an
      exception. `gttsRetry` is what gTTS answers when a request asks it a second time, so a
      retry may succeed where the first attempt failed. */
  datatype Engines = Engines(
    loadCoqui: Option<ModelHandle>,
    coquiSynth: (ModelHandle, string) -> Option<Bytes>,
    gtts: (string, string) -> Option<Bytes>,
    gttsRetry: (string, string) -> Option<Bytes>,
    voices: seq<Voice>,
    pyttsx3: (string, Option<string>, int, real) -> Option<Bytes>,
    elevenLabsInstalled: bool,
    apiKey: Option<string>,
    elevenLabs: (string, string, string) -> Option<Bytes>)

  /** What one request sees of the machine: the time stamp of files written now and whether
      the cache directory accepts writes. */
  datatype Env = Env(now: int, cacheWritable: bool)

  /** A call into a foreign engine, as recorded in the service's trace. */
  datatype Call =
    | LoadCoquiModel
    | CoquiSynthesis(text: string)
    | GttsSynthesis(text: string, lang: string)
    | Pyttsx3Synthesis(text: string, voiceId: Option<string>, rate: int, volume: real)
    | ElevenLabsSynthesis(text: string, voice: string, model: string)

  datatype TtsError = GttsError | Pyttsx3Error | ElevenLabsNotInstalled | ElevenLabsMissingKey | ElevenLabsError

  /** Everything the service can change. */
  datatype ServiceState = ServiceState(
    outputFolder: string,
    cacheDir: string,
    cache: CacheState,
    coquiModel: Option<ModelHandle>,
    coquiLoaded: bool,
    outputs: map<string, Bytes>,
    calls: seq<Call>)

  /** `Path(a) / b`. */
  function JoinPath(dir: string, name: string): (r: string)
    ensures EndsWith(r, name)
  {
    if dir == "" then name
    else if EndsWith(dir, "/") then dir + name
    else dir + "/" + name
  }

  /** Where `save_with_gtts` would get its audio from on a cache miss, and what it answers. */
  function GttsAnswer(eng: Engines, text: string, lang: string, outputPath: string): Result<string, TtsError> {
    if eng.gtts(text, GttsLang(lang)).Some? then Ok(outputPath) else Err(GttsError)
  }

  /** The model `_load_coqui_fast_model` hands out in state `s`: the cached one once loaded,
      otherwise the outcome of loading. */
  function ModelFor(s: ServiceState, eng: Engines): Option<ModelHandle> {
    if s.coquiLoaded && s.coquiModel.Some? then s.coquiModel else eng.loadCoqui
  }

  /** The load it makes: none when a model is cached. */
  function LoadCalls(s: ServiceState): seq<Call> {
    if s.coquiLoaded && s.coquiModel.Some? then [] else [LoadCoquiModel]
  }

  /** The Coqui audio for `text`, `None` when there is no model or synthesis raises. */
  function CoquiAudio(s: ServiceState, eng: Engines, text: string): Option<Bytes> {
    if ModelFor(s, eng).Some? then eng.coquiSynth(ModelFor(s, eng).value, text) else None
  }

  /** The synthesis call made when a model was available. */
  function CoquiTried(s: ServiceState, eng: Engines, text: string): seq<Call> {
    if ModelFor(s, eng).Some? then [CoquiSynthesis(text)] else []
  }

  /** The engines as a second gTTS request within the same request sees them. */
  function Retried(eng: Engines): Engines {
    eng.(gtts := eng.gttsRetry)
  }

  /** The gTTS calls of the Coqui fallback. Without a model the fallback at line 1234 runs
      inside the outer `try`, so a gTTS error is caught there and gTTS is asked once more. */
  function FallBackCalls(noModel: bool, eng: Engines, text: string, lang: string): seq<Call> {
    var g := GttsSynthesis(text, GttsLang(lang));
    if noModel && eng.gtts(text, GttsLang(lang)).None? then [g, g] else [g]
  }

  /** The audio the Coqui fallback ends with: the first gTTS answer, or, without a model and
      after a first failure, the retry's. */
  function FallBackAudio(noModel: bool, eng: Engines, text: string, lang: string): (a: Option<Bytes>)
    ensures eng.gtts(text, GttsLang(lang)).Some? ==> a == eng.gtts(text, GttsLang(lang))
    ensures eng.gtts(text, GttsLang(lang)).None? ==> a == if noModel then eng.gttsRetry(text, GttsLang(lang)) else None
  {
    var first := eng.gtts(text, GttsLang(lang));
    if first.None? && noModel then Retried(eng).gtts(text, GttsLang(lang)) else first
  }

  /** What the Coqui fallback answers. */
  function FallBackAnswer(noModel: bool, eng: Engines, text: string, lang: string, outputPath: string): (r: Result<string, TtsError>)
    ensures r.Ok? <==> FallBackAudio(noModel, eng, text, lang).Some?
    ensures r.Ok? ==> r.value == outputPath
    ensures r.Err? ==> r.error == GttsError
  {
    if FallBackAudio(noModel, eng, text, lang).Some? then Ok(outputPath) else Err(GttsError)
  }

  /** The calls each engine may make: Coqui falls back to gTTS. */
  predicate CallOf(e: Engine, c: Call) {
    match e
    case Coqui => c.LoadCoquiModel? || c.CoquiSynthesis? || c.GttsSynthesis?
    case Gtts => c.GttsSynthesis?
    case Pyttsx3 => c.Pyttsx3Synthesis?
    case ElevenLabs => c.ElevenLabsSynthesis?
  }

  /** `after` is `before` followed only by calls the engine `e` may make. */
  predicate CallsBy(e: Engine, before: seq<Call>, after: seq<Call>) {
    && |before| <= |after| && after[..|before|] == before
    && forall i :: |before| <= i < |after| ==> CallOf(e, after[i])
  }

  lemma {:induction false} CallsByNone(e: Engine, calls: seq<Call>)
    ensures CallsBy(e, calls, calls)
  {
  }

  lemma {:induction false} CallsByAppend(e: Engine, before: seq<Call>, added: seq<Call>)
    requires forall i :: 0 <= i < |added| ==> CallOf(e, added[i])
    ensures CallsBy(e, before, before + added)
  {
    var after := before + added;
    assert after[..|before|] == before;
    forall i | |before| <= i < |after| ensures CallOf(e, after[i]) {
      assert after[i] == added[i - |before|];
    }
  }

  lemma {:induction false} CallsByTrans(e: Engine, a: seq<Call>, b: seq<Call>, c: seq<Call>)
    requires CallsBy(e, a, b) && CallsBy(e, b, c)
    ensures CallsBy(e, a, c)
  {
    assert c[..|b|][..|a|] == c[..|a|];
    forall i | |a| <= i < |c| ensures CallOf(e, c[i]) {
      if i < |b| { assert c[i] == c[..|b|][i]; }
    }
  }

  /** What gTTS may do, Coqui may do: it falls back to gTTS. */
  lemma {:induction false} CallsByFallBack(a: seq<Call>, b: seq<Call>)
    requires CallsBy(Gtts, a, b)
    ensures CallsBy(Coqui, a, b)
  {
  }

  // ---------------------------------------------------------------------------
  // The outcome of each handler, from the state before the call to the state after

  /** `save_with_gtts(text, output_path, lang)`: a cache hit is copied to the output without
      calling gTTS; otherwise gTTS is called once in the mapped language, and its audio is
      written and cached, or its failure answered with an error and nothing else changed. */
  ghost predicate GttsDone(md5: string -> string, s0: ServiceState, text: string, outputPath: string, lang: string,
                           eng: Engines, env: Env, r: Result<string, TtsError>, s1: ServiceState)
  {
    var key := CacheKey(md5, text);
    var hit := Lookup(s0.cache, key);
    if Hit(hit) then r == Ok(outputPath) && s1 == s0.(outputs := s0.outputs[outputPath := hit.value])
    else
      var target := GttsLang(lang);
      && r == GttsAnswer(eng, text, lang, outputPath)
      && s1.calls == s0.calls + [GttsSynthesis(text, target)]
      && s1.coquiModel == s0.coquiModel && s1.coquiLoaded == s0.coquiLoaded
      && s1.outputFolder == s0.outputFolder && s1.cacheDir == s0.cacheDir
      && match eng.gtts(text, target)
         case None => s1 == s0.(calls := s1.calls)
         case Some(b) =>
           && s1.outputs == s0.outputs[outputPath := b]
           && SavedTo(s0.cache, key, b, env.now, env.cacheWritable, s1.cache)
  }

  /** `save_with_coqui_fast(text, output_path, lang, quality)`: a cache hit is copied without
      loading the model; otherwise the model is loaded unless one is held, and the Coqui audio
      is written and cached under the text-only key, or, without a model or when synthesis
      raises, the answer is the gTTS fallback's. */
  ghost predicate CoquiDone(md5: string -> string, s0: ServiceState, text: string, outputPath: string, lang: string,
                            eng: Engines, env: Env, r: Result<string, TtsError>, s1: ServiceState)
  {
    var key := CacheKey(md5, text);
    var hit := Lookup(s0.cache, key);
    if Hit(hit) then r == Ok(outputPath) && s1 == s0.(outputs := s0.outputs[outputPath := hit.value])
    else
      var model := ModelFor(s0, eng);
      && s1.coquiModel == (if model.Some? then model else s0.coquiModel)
      && s1.coquiLoaded == (model.Some? || s0.coquiLoaded)
      && s1.outputFolder == s0.outputFolder && s1.cacheDir == s0.cacheDir
      && match CoquiAudio(s0, eng, text)
         case Some(wav) =>
           && r == Ok(outputPath)
           && s1.calls == s0.calls + LoadCalls(s0) + [CoquiSynthesis(text)]
           && s1.outputs == s0.outputs[outputPath := wav]
           && SavedTo(s0.cache, key, wav, env.now, env.cacheWritable, s1.cache)
         case None =>
           && r == FallBackAnswer(model.None?, eng, text, lang, outputPath)
           && s1.calls == s0.calls + LoadCalls(s0) + CoquiTried(s0, eng, text) + FallBackCalls(model.None?, eng, text, lang)
           && match FallBackAudio(model.None?, eng, text, lang)
              case None => s1.outputs == s0.outputs && s1.cache == s0.cache
              case Some(b) =>
                && s1.outputs == s0.outputs[outputPath := b]
                && SavedTo(s0.cache, key, b, env.now, env.cacheWritable, s1.cache)
  }

  /** `save_with_pyttsx3_unlimited(text, output_path, lang, quality)`: one call with the first
      installed voice matching the language, the quality's rate and volume 0.9, whose audio is
      written or whose failure is an error; the cache is never consulted. */
  ghost predicate Pyttsx3Done(s0: ServiceState, text: string, outputPath: string, lang: string, quality: string,
                              eng: Engines, r: Result<string, TtsError>, s1: ServiceState)
  {
    var voice := ChosenVoice(eng.voices, lang);
    var call := Pyttsx3Synthesis(text, voice, Pyttsx3Rate(quality), Pyttsx3Volume);
    match eng.pyttsx3(text, voice, Pyttsx3Rate(quality), Pyttsx3Volume)
    case None => r == Err(Pyttsx3Error) && s1 == s0.(calls := s0.calls + [call])
    case Some(audio) =>
      r == Ok(outputPath) && s1 == s0.(calls := s0.calls + [call], outputs := s0.outputs[outputPath := audio])
  }

  /** `save_with_elevenlabs(text, output_path, lang, quality)`: nothing happens unless the
      library is installed and a non-empty API key is set; then one call with the language's
      voice and the quality's model, whose audio is written or whose failure is an error. */
  ghost predicate ElevenLabsDone(s0: ServiceState, text: string, outputPath: string, lang: string, quality: string,
                                 eng: Engines, r: Result<string, TtsError>, s1: ServiceState)
  {
    var call := ElevenLabsSynthesis(text, ElevenLabsVoice(lang), ElevenLabsModel(quality));
    if !eng.elevenLabsInstalled then r == Err(ElevenLabsNotInstalled) && s1 == s0
    else if !HasApiKey(eng.apiKey) then r == Err(ElevenLabsMissingKey) && s1 == s0
    else match eng.elevenLabs(text, ElevenLabsVoice(lang), ElevenLabsModel(quality))
      case None => r == Err(ElevenLabsError) && s1 == s0.(calls := s0.calls + [call])
      case Some(audio) =>
        r == Ok(outputPath) && s1 == s0.(calls := s0.calls + [call], outputs := s0.outputs[outputPath := audio])
  }

  /** The class-level state of `TTSService` together with one instance's output folder. */
  class Service {
    const md5: string -> string
    var outputFolder: string
    var cacheDir: string
    var audioCache: map<string, bool>
    var cacheFiles: map<string, CacheFile>
    var savedIndex: Option<map<string, bool>>
    var coquiModel: Option<ModelHandle>
    var coquiLoaded: bool
    var outputs: map<string, Bytes>
    var calls: seq<Call>

    function Cache(): CacheState
      reads this
    {
      CacheState(audioCache, cacheFiles, savedIndex)
    }

    function State(): ServiceState
      reads this
    {
      ServiceState(outputFolder, cacheDir, Cache(), coquiModel, coquiLoaded, outputs, calls)
    }

    /** The first `TTSService(output_folder)` of a process: the cache directory becomes
        `output_folder/.tts_cache` and the saved index, if any, is loaded. `disk` is what that
        directory already holds. */
    constructor (md5: string -> string, outputFolder: string, disk: map<string, CacheFile>, savedIndex: Option<map<string, bool>>)
      ensures this.md5 == md5
      ensures State() == ServiceState(outputFolder, JoinPath(outputFolder, ".tts_cache"),
        CacheState(if savedIndex.Some? then savedIndex.value else map[], disk, savedIndex),
        None, false, map[], [])
    {
      this.md5 := md5;
      this.outputFolder := outputFolder;
      cacheDir := JoinPath(outputFolder, ".tts_cache");
      cacheFiles := disk;
      this.savedIndex := savedIndex;
      audioCache := if savedIndex.Some? then savedIndex.value else map[];
      coquiModel := None;
      coquiLoaded := false;
      outputs := map[];
      calls := [];
    }

    /** A later `TTSService(output_folder)`: the cache directory is already set, so neither it
        nor the index change. */
    method Reopen(folder: string)
      modifies this
      ensures State() == old(State()).(outputFolder := folder)
    {
      outputFolder := folder;
    }

    // -------------------------------------------------------------------------
    // The audio cache

    /** `_cleanup_cache()`: the evicted files, oldest first, are returned. */
    method Cleanup() returns (evicted: seq<string>)
      modifies this
      ensures CleanedUp(old(Cache()), evicted, Cache())
      ensures State() == old(State()).(cache := Cache())
    {
      var listing := ListCacheFiles();
      evicted := [];
      DistinctCard(listing);
      if |listing| > 200 {
        var c0 := Cache();
        assert Listed(listing, cacheFiles) by {
          assert forall i :: 0 <= i < |listing| ==> listing[i] in Elems(listing);
        }
        var sorted := SortByAge(listing, cacheFiles);
        SortedListing(listing, cacheFiles);
        evicted := EvictOldest(sorted);
        savedIndex := Some(audioCache);
        EvictionOutcome(c0, sorted);
      }
    }

    /** The `for cache_file in cache_files[:50]` loop: delete each file and pop its stem. */
    method EvictOldest(sorted: seq<string>) returns (evicted: seq<string>)
      requires |sorted| >= 50 && forall i :: 0 <= i < |sorted| ==> EndsWith(sorted[i], ".wav")
      modifies this
      ensures evicted == sorted[..50]
      ensures cacheFiles == old(cacheFiles) - Elems(evicted)
      ensures audioCache == old(audioCache) - Stems(evicted)
      ensures State() == old(State()).(cache := Cache())
      ensures savedIndex == old(savedIndex)
    {
      var files, index;
      evicted, files, index := DeleteOldest(sorted, cacheFiles, audioCache);
      cacheFiles, audioCache := files, index;
    }

    /** `glob("*.wav")`: every `.wav` file of the cache directory once, in an order the file
        system chooses. */
    method ListCacheFiles() returns (names: seq<string>)
      ensures Distinct(names) && Elems(names) == WavNames(cacheFiles)
    {
      var rest := WavNames(cacheFiles);
      ghost var all := rest;
      names := [];
      while rest != {}
        invariant Distinct(names) && Elems(names) !! rest
        invariant Elems(names) + rest == all
        decreases |rest|
      {
        var n :| n in rest;
        AppendFresh(names, n);
        names := names + [n];
        rest := rest - {n};
      }
    }

    /** `_save_to_cache(key, audio)`; any failure is absorbed. */
    method SaveToCache(key: string, audio: Bytes, env: Env)
      modifies this
      ensures SavedTo(old(Cache()), key, audio, env.now, env.cacheWritable, Cache())
      ensures State() == old(State()).(cache := Cache())
    {
      if env.cacheWritable {
        cacheFiles := cacheFiles[FileName(key) := CacheFile(audio, env.now)];
        audioCache := audioCache[key := true];
        if |audioCache| % 10 == 0 {
          savedIndex := Some(audioCache);
        }
        if |audioCache| > 200 {
          var evicted := Cleanup();
        }
      }
    }

    // -------------------------------------------------------------------------
    // Engines

    /** `_load_coqui_fast_model()`: a model loaded once is handed out again without loading;
        a failed load leaves the fields as they were and answers `None`. */
    method LoadCoquiFastModel(load: Option<ModelHandle>) returns (m: Option<ModelHandle>)
      modifies this
      ensures old(coquiLoaded && coquiModel.Some?) ==> m == old(coquiModel) && State() == old(State())
      ensures !old(coquiLoaded && coquiModel.Some?) ==>
        && m == load
        && State() == old(State()).(
             calls := old(calls) + [LoadCoquiModel],
             coquiModel := if load.Some? then load else old(coquiModel),
             coquiLoaded := load.Some? || old(coquiLoaded))
      ensures CallsBy(Coqui, old(calls), calls)
    {
      if coquiLoaded && coquiModel.Some? {
        m := coquiModel;
        CallsByNone(Coqui, calls);
        return;
      }
      CallsByAppend(Coqui, calls, [LoadCoquiModel]);
      calls := calls + [LoadCoquiModel];
      if load.Some? {
        coquiModel := load;
        coquiLoaded := true;
      }
      m := load;
    }

    /** `save_with_gtts(text, output_path, lang)`: a cache hit is copied to the output without
        calling gTTS; otherwise gTTS speaks the text in the mapped language, the audio is written
        and cached, and a gTTS failure is an error. */
    method SaveWithGtts(text: string, outputPath: string, lang: string, eng: Engines, env: Env)
      returns (r: Result<string, TtsError>)
      modifies this
      ensures GttsDone(md5, old(State()), text, outputPath, lang, eng, env, r, State())
      ensures CallsBy(Gtts, old(calls), calls)
    {
      var key := CacheKey(md5, text);
      var cached := Lookup(Cache(), key);
      if Hit(cached) {
        CallsByNone(Gtts, calls);
        outputs := outputs[outputPath := cached.value];
        return Ok(outputPath);
      }
      var target := GttsLang(lang);
      CallsByAppend(Gtts, calls, [GttsSynthesis(text, target)]);
      calls := calls + [GttsSynthesis(text, target)];
      var audio := eng.gtts(text, target);
      if audio.None? {
        return Err(GttsError);
      }
      outputs := outputs[outputPath := audio.value];
      SaveToCache(key, audio.value, env);
      r := Ok(outputPath);
    }

    /** `save_with_coqui_fast(text, output_path, lang, quality)`: a cache hit is copied without
        loading the model; when the model cannot be loaded or synthesis raises, the answer is
        `save_with_gtts(text, output_path, lang)`; otherwise the Coqui audio is written and
        cached under the same text-only key. */
    method SaveWithCoquiFast(text: string, outputPath: string, lang: string, quality: string, eng: Engines, env: Env)
      returns (r: Result<string, TtsError>)
      modifies this
      ensures CoquiDone(md5, old(State()), text, outputPath, lang, eng, env, r, State())
      ensures CallsBy(Coqui, old(calls), calls)
    {
      var key := CacheKey(md5, text);
      var cached := Lookup(Cache(), key);
      if Hit(cached) {
        CallsByNone(Coqui, calls);
        outputs := outputs[outputPath := cached.value];
        return Ok(outputPath);
      }
      var model := LoadCoquiFastModel(eng.loadCoqui);
      assert model == ModelFor(old(State()), eng);
      assert calls == old(calls) + LoadCalls(old(State()));
      assert Cache() == old(Cache()) && outputs == old(outputs);
      ghost var loaded := calls;
      assert CoquiAudio(old(State()), eng, text) == (if model.Some? then eng.coquiSynth(model.value, text) else None);
      assert CoquiTried(old(State()), eng, text) == (if model.Some? then [CoquiSynthesis(text)] else []);
      r := SynthesizeOrFallBack(text, outputPath, lang, model, eng, env);
      CallsByTrans(Coqui, old(calls), loaded, calls);
    }

    /** The rest of `save_with_coqui_fast` after a cache miss, with the model the loader gave:
        synthesize and cache, or fall back to gTTS when there is no model or synthesis raises. */
    method SynthesizeOrFallBack(text: string, outputPath: string, lang: string, model: Option<ModelHandle>, eng: Engines, env: Env)
      returns (r: Result<string, TtsError>)
      requires !Hit(Lookup(Cache(), CacheKey(md5, text)))
      modifies this
      ensures coquiModel == old(coquiModel) && coquiLoaded == old(coquiLoaded)
      ensures outputFolder == old(outputFolder) && cacheDir == old(cacheDir)
      ensures model.Some? && eng.coquiSynth(model.value, text).Some? ==>
        && r == Ok(outputPath)
        && calls == old(calls) + [CoquiSynthesis(text)]
        && outputs == old(outputs)[outputPath := eng.coquiSynth(model.value, text).value]
        && SavedTo(old(Cache()), CacheKey(md5, text), eng.coquiSynth(model.value, text).value, env.now, env.cacheWritable, Cache())
      ensures !(model.Some? && eng.coquiSynth(model.value, text).Some?) ==>
        && r == FallBackAnswer(model.None?, eng, text, lang, outputPath)
        && calls == old(calls) + (if model.Some? then [CoquiSynthesis(text)] else []) + FallBackCalls(model.None?, eng, text, lang)
        && (FallBackAudio(model.None?, eng, text, lang).None? ==> outputs == old(outputs) && Cache() == old(Cache()))
        && (FallBackAudio(model.None?, eng, text, lang).Some? ==>
              && outputs == old(outputs)[outputPath := FallBackAudio(model.None?, eng, text, lang).value]
              && SavedTo(old(Cache()), CacheKey(md5, text), FallBackAudio(model.None?, eng, text, lang).value, env.now, env.cacheWritable, Cache()))
      ensures CallsBy(Coqui, old(calls), calls)
    {
      var wav: Option<Bytes> := None;
      if model.Some? {
        CallsByAppend(Coqui, calls, [CoquiSynthesis(text)]);
        calls := calls + [CoquiSynthesis(text)];
        wav := eng.coquiSynth(model.value, text);
      } else {
        CallsByNone(Coqui, calls);
      }
      if wav.None? {
        ghost var tried := calls;
        r := FallBackToGtts(text, outputPath, lang, model.None?, eng, env);
        CallsByFallBack(tried, calls);
        CallsByTrans(Coqui, old(calls), tried, calls);
        return;
      }
      outputs := outputs[outputPath := wav.value];
      SaveToCache(CacheKey(md5, text), wav.value, env);
      r := Ok(outputPath);
    }

    /** The gTTS fallback of `save_with_coqui_fast`. With `retry` (no model was loaded) the
        fallback sits inside the outer `try`, whose handler asks gTTS once more after a failure
        and answers with that second request's own outcome. */
    method FallBackToGtts(text: string, outputPath: string, lang: string, retry: bool, eng: Engines, env: Env)
      returns (r: Result<string, TtsError>)
      requires !Hit(Lookup(Cache(), CacheKey(md5, text)))
      modifies this
      ensures coquiModel == old(coquiModel) && coquiLoaded == old(coquiLoaded)
      ensures outputFolder == old(outputFolder) && cacheDir == old(cacheDir)
      ensures r == FallBackAnswer(retry, eng, text, lang, outputPath)
      ensures calls == old(calls) + FallBackCalls(retry, eng, text, lang)
      ensures FallBackAudio(retry, eng, text, lang).None? ==> outputs == old(outputs) && Cache() == old(Cache())
      ensures FallBackAudio(retry, eng, text, lang).Some? ==>
        && outputs == old(outputs)[outputPath := FallBackAudio(retry, eng, text, lang).value]
        && SavedTo(old(Cache()), CacheKey(md5, text), FallBackAudio(retry, eng, text, lang).value, env.now, env.cacheWritable, Cache())
      ensures CallsBy(Gtts, old(calls), calls)
    {
      r := SaveWithGtts(text, outputPath, lang, eng, env);
      if retry && r.Err? {
        ghost var first := calls;
        r := SaveWithGtts(text, outputPath, lang, Retried(eng), env);
        CallsByTrans(Gtts, old(calls), first, calls);
      }
    }

    /** `save_with_pyttsx3_unlimited(text, output_path, lang, quality)`: the first installed
        voice matching the language, the quality's rate and volume 0.9; the cache is never
        consulted. */
    method SaveWithPyttsx3(text: string, outputPath: string, lang: string, quality: string, eng: Engines)
      returns (r: Result<string, TtsError>)
      modifies this
      ensures Pyttsx3Done(old(State()), text, outputPath, lang, quality, eng, r, State())
      ensures CallsBy(Pyttsx3, old(calls), calls)
    {
      var voice := FindVoice(eng.voices, lang);
      var rate := Pyttsx3Rate(quality);
      CallsByAppend(Pyttsx3, calls, [Pyttsx3Synthesis(text, voice, rate, Pyttsx3Volume)]);
      calls := calls + [Pyttsx3Synthesis(text, voice, rate, Pyttsx3Volume)];
      var audio := eng.pyttsx3(text, voice, rate, Pyttsx3Volume);
      if audio.None? {
        return Err(Pyttsx3Error);
      }
      outputs := outputs[outputPath := audio.value];
      r := Ok(outputPath);
    }

    /** `save_with_elevenlabs(text, output_path, lang, quality)`: the library must be installed
        and the API key set and non-empty before anything is generated; the cache is never
        consulted. */
    method SaveWithElevenLabs(text: string, outputPath: string, lang: string, quality: string, eng: Engines)
      returns (r: Result<string, TtsError>)
      modifies this
      ensures ElevenLabsDone(old(State()), text, outputPath, lang, quality, eng, r, State())
      ensures CallsBy(ElevenLabs, old(calls), calls)
    {
      CallsByNone(ElevenLabs, calls);
      if !eng.elevenLabsInstalled {
        return Err(ElevenLabsNotInstalled);
      }
      if !HasApiKey(eng.apiKey) {
        return Err(ElevenLabsMissingKey);
      }
      var voice := ElevenLabsVoice(lang);
      var model := ElevenLabsModel(quality);
      CallsByAppend(ElevenLabs, calls, [ElevenLabsSynthesis(text, voice, model)]);
      calls := calls + [ElevenLabsSynthesis(text, voice, model)];
      var audio := eng.elevenLabs(text, voice, model);
      if audio.None? {
        return Err(ElevenLabsError);
      }
      outputs := outputs[outputPath := audio.value];
      r := Ok(outputPath);
    }

    /** `generate_speech(text, engine, lang, quality)` writing to `speech_{hex}.wav` in the
        output folder: the engine's handler, gTTS for an unknown name. Only the selected
        engine is called, a success names the output file, and only Coqui and gTTS touch the
        cache. */
    method GenerateSpeech(text: string, engine: string, lang: string, quality: string, hex: string, eng: Engines, env: Env)
      returns (r: Result<string, TtsError>)
      modifies this
      ensures var s0, path := old(State()), JoinPath(old(outputFolder), "speech_" + hex + ".wav");
        match HandlerFor(engine)
        case Coqui => CoquiDone(md5, s0, text, path, lang, eng, env, r, State())
        case Gtts => GttsDone(md5, s0, text, path, lang, eng, env, r, State())
        case ElevenLabs => ElevenLabsDone(s0, text, path, lang, quality, eng, r, State())
        case Pyttsx3 => Pyttsx3Done(s0, text, path, lang, quality, eng, r, State())
      ensures r.Ok? ==> r.value == JoinPath(old(outputFolder), "speech_" + hex + ".wav")
      ensures CallsBy(HandlerFor(engine), old(calls), calls)
      ensures HandlerFor(engine) in {Pyttsx3, ElevenLabs} ==> Cache() == old(Cache())
      ensures HandlerFor(engine) != Coqui ==> coquiModel == old(coquiModel) && coquiLoaded == old(coquiLoaded)
      ensures outputFolder == old(outputFolder) && cacheDir == old(cacheDir)
    {
      var outputPath := JoinPath(outputFolder, "speech_" + hex + ".wav");
      match HandlerFor(engine)
      case Coqui => r := SaveWithCoquiFast(text, outputPath, lang, quality, eng, env);
      case Gtts => r := SaveWithGtts(text, outputPath, lang, eng, env);
      case ElevenLabs => r := SaveWithElevenLabs(text, outputPath, lang, quality, eng);
      case Pyttsx3 => r := SaveWithPyttsx3(text, outputPath, lang, quality, eng);
    }
  }

  /** The `for cache_file in cache_files[:50]` loop of `_cleanup_cache` on the directory's
      files and the index: each of the first fifty files is unlinked and its stem popped. */
  method DeleteOldest(sorted: seq<string>, files: map<string, CacheFile>, index: map<string, bool>)
    returns (evicted: seq<string>, files': map<string, CacheFile>, index': map<string, bool>)
    requires |sorted| >= 50 && forall i :: 0 <= i < |sorted| ==> EndsWith(sorted[i], ".wav")
    ensures evicted == sorted[..50]
    ensures files' == files - Elems(evicted)
    ensures index' == index - Stems(evicted)
  {
    evicted, files', index' := [], files, index;
    var i := 0;
    while i < 50
      invariant 0 <= i <= 50
      invariant evicted == sorted[..i]
      invariant files' == files - Elems(evicted)
      invariant index' == index - Stems(evicted)
    {
      var f := sorted[i];
      DeleteStep(sorted, i, files, index);
      files' := files' - {f};
      index' := index' - {Stem(f)};
      evicted := evicted + [f];
      i := i + 1;
    }
  }

  /** Deleting one more file of the sorted listing. */
  lemma {:induction false} DeleteStep(sorted: seq<string>, i: nat, files: map<string, CacheFile>, index: map<string, bool>)
    requires i < |sorted| && forall j :: 0 <= j < |sorted| ==> EndsWith(sorted[j], ".wav")
    ensures sorted[..i + 1] == sorted[..i] + [sorted[i]]
    ensures files - Elems(sorted[..i + 1]) == (files - Elems(sorted[..i])) - {sorted[i]}
    ensures index - Stems(sorted[..i + 1]) == (index - Stems(sorted[..i])) - {Stem(sorted[i])}
  {
    var done, f := sorted[..i], sorted[i];
    assert sorted[..i + 1] == done + [f];
    assert forall j :: 0 <= j < |done| ==> done[j] == sorted[j];
    StemsAppend(done, f);
    ElemsAppend(done, f);
    MapMinus(files, Elems(done), {f});
    MapMinus(index, Stems(done), {Stem(f)});
  }

  /** Sorting a listing of the `.wav` files gives them all, once each, oldest first. */
  lemma {:induction false} SortedListing(listing: seq<string>, files: map<string, CacheFile>)
    requires Distinct(listing) && Elems(listing) == WavNames(files) && Listed(listing, files)
    ensures var sorted := SortByAge(listing, files);
      && |sorted| == |listing| && Distinct(sorted) && ByAge(sorted, files)
      && Elems(sorted) == WavNames(files)
      && forall i :: 0 <= i < |sorted| ==> EndsWith(sorted[i], ".wav")
  {
    SortByAgeFacts(listing, files);
    var sorted := SortByAge(listing, files);
    PermutationDistinct(listing, sorted);
    assert |sorted| == |multiset(sorted)| == |multiset(listing)| == |listing|;
    assert forall i :: 0 <= i < |sorted| ==> sorted[i] in Elems(sorted);
  }

  /** Deleting the first 50 of the sorted `.wav` files and popping their stems is a cleanup. */
  lemma {:induction false} EvictionOutcome(c0: CacheState, sorted: seq<string>)
    requires |WavNames(c0.files)| > 200 && Listed(sorted, c0.files)
    requires Distinct(sorted) && ByAge(sorted, c0.files) && Elems(sorted) == WavNames(c0.files)
    requires |sorted| >= 50 && forall i :: 0 <= i < |sorted| ==> EndsWith(sorted[i], ".wav")
    ensures var ev := sorted[..50];
      CleanedUp(c0, ev, CacheState(c0.index - Stems(ev), c0.files - Elems(ev), Some(c0.index - Stems(ev))))
  {
    var ev := sorted[..50];
    var files1 := c0.files - Elems(ev);
    assert Distinct(ev);
    assert forall i :: 0 <= i < |ev| ==> ev[i] in WavNames(c0.files) by {
      assert forall i :: 0 <= i < |ev| ==> ev[i] == sorted[i] && sorted[i] in Elems(sorted);
    }
    assert WavNames(files1) == Elems(sorted) - Elems(ev);
    EvictedAreOldest(sorted, c0.files, 50);
  }

  lemma {:induction false} ElemsAppend(names: seq<string>, f: string)
    ensures Elems(names + [f]) == Elems(names) + {f}
  {
    assert forall x :: x in names + [f] <==> x in names || x == f;
  }

  lemma {:induction false} MapMinus<K, V>(m: map<K, V>, a: set<K>, b: set<K>)
    ensures m - (a + b) == (m - a) - b
  {
  }

  lemma {:induction false} AppendFresh(names: seq<string>, n: string)
    requires Distinct(names) && n !in Elems(names)
    ensures Distinct(names + [n]) && Elems(names + [n]) == Elems(names) + {n}
  {
    var t := names + [n];
    forall i, j | 0 <= i < j < |t| ensures t[i] != t[j] {
      assert t[i] == names[i];
      if j < |names| { assert t[j] == names[j]; } else { assert names[i] in Elems(names); }
    }
    assert forall x :: x in t <==> x in names || x == n;
  }

  /** The 50 names at the front of a list sorted oldest first are no newer than any name
      left behind them. */
  lemma {:induction false} EvictedAreOldest(sorted: seq<string>, files: map<string, CacheFile>, k: nat)
    requires Listed(sorted, files) && ByAge(sorted, files) && Distinct(sorted) && k <= |sorted|
    ensures forall i, n :: 0 <= i < k && n in Elems(sorted) - Elems(sorted[..k]) ==>
      files[sorted[i]].mtime <= files[n].mtime
  {
    forall i, n | 0 <= i < k && n in Elems(sorted) - Elems(sorted[..k])
      ensures files[sorted[i]].mtime <= files[n].mtime
    {
      var j :| 0 <= j < |sorted| && sorted[j] == n;
    }
  }
}
