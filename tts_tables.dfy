/** The selection tables of the speech service (services/tts_service.py): the gTTS language
    map, the pyttsx3 voice search and rate map, the ElevenLabs voice and model choice, and
    the engine handler table of `generate_speech`. */
module TtsTables {
  import opened Wrappers
  import opened Text

  // ---------------------------------------------------------------------------
  // gTTS

  /** The languages gTTS is asked for by name. */
  predicate IsGttsLanguage(lang: string) {
    lang in {"en", "ur", "hi", "es", "fr", "ar"}
  }

  /** `lang_map.get(lang, 'en')` in `save_with_gtts`. */
  function GttsLang(lang: string): (r: string)
    ensures IsGttsLanguage(r)
    ensures IsGttsLanguage(lang) ==> r == lang
    ensures !IsGttsLanguage(lang) ==> r == "en"
  {
    var langMap := map["en" := "en", "ur" := "ur", "hi" := "hi", "es" := "es", "fr" := "fr", "ar" := "ar"];
    if lang in langMap then langMap[lang] else "en"
  }

  /** Mapping a language a second time changes nothing. */
  lemma {:induction false} GttsLangIdempotent(lang: string)
    ensures GttsLang(GttsLang(lang)) == GttsLang(lang)
  {
  }

  // ---------------------------------------------------------------------------
  // ElevenLabs

  /** `voice_map.get(lang, 'Rachel')`. */
  function ElevenLabsVoice(lang: string): (r: string)
    ensures r in {"Rachel", "Matias", "Charlotte"}
    ensures r == "Matias" <==> lang == "es"
    ensures r == "Charlotte" <==> lang == "fr"
    ensures lang != "es" && lang != "fr" ==> r == "Rachel"
  {
    var voiceMap := map["en" := "Rachel", "es" := "Matias", "fr" := "Charlotte"];
    if lang in voiceMap then voiceMap[lang] else "Rachel"
  }

  /** The multilingual model only for `high` quality. */
  function ElevenLabsModel(quality: string): (r: string)
    ensures r == "eleven_multilingual_v2" <==> quality == "high"
    ensures quality != "high" ==> r == "eleven_monolingual_v1"
  {
    if quality == "high" then "eleven_multilingual_v2" else "eleven_monolingual_v1"
  }

  /** The API key check: a missing or empty `ELEVENLABS_API_KEY` is refused. */
  predicate HasApiKey(apiKey: Option<string>) {
    apiKey.Some? && apiKey.value != ""
  }

  // ---------------------------------------------------------------------------
  // pyttsx3

  /** `rate_map.get(quality, 150)`, in words per minute. */
  function Pyttsx3Rate(quality: string): (r: int)
    ensures 145 <= r <= 155
    ensures r == 145 <==> quality == "high"
    ensures r == 155 <==> quality == "natural"
    ensures quality != "high" && quality != "natural" ==> r == 150
  {
    var rateMap := map["standard" := 150, "high" := 145, "natural" := 155];
    if quality in rateMap then rateMap[quality] else 150
  }

  /** The volume pyttsx3 is always given. */
  const Pyttsx3Volume: real := 0.9

  /** An installed system voice. */
  datatype Voice = Voice(id: string, name: string)

  /** The words looked for in a voice name: the South Asian and Arabic languages share one list. */
  function VoiceKeywords(lang: string): (r: seq<string>)
    ensures lang in {"ur", "hi", "ar"} ==> r == ["urdu", "hindi", "arabic"]
    ensures !(lang in {"ur", "hi", "ar"}) ==> r == ["english"]
  {
    if lang in ["ur", "hi", "ar"] then ["urdu", "hindi", "arabic"] else ["english"]
  }

  /** The lower-cased voice name contains one of the keywords. */
  predicate VoiceMatches(v: Voice, keywords: seq<string>) {
    exists k :: 0 <= k < |keywords| && Contains(Lower(v.name), keywords[k])
  }

  /** The position of the first matching voice, or `|voices|` when none matches. */
  function FirstMatch(voices: seq<Voice>, keywords: seq<string>): (i: nat)
    ensures i <= |voices|
    ensures i < |voices| ==> VoiceMatches(voices[i], keywords)
    ensures forall j :: 0 <= j < i ==> !VoiceMatches(voices[j], keywords)
    decreases |voices|
  {
    if voices == [] then 0
    else if VoiceMatches(voices[0], keywords) then 0
    else 1 + FirstMatch(voices[1..], keywords)
  }

  /** The voice id the search settles on; `None` leaves the engine's default voice. */
  function ChosenVoice(voices: seq<Voice>, lang: string): (r: Option<string>)
    ensures r.Some? <==> exists i :: 0 <= i < |voices| && VoiceMatches(voices[i], VoiceKeywords(lang))
    ensures r.Some? ==> exists i :: (0 <= i < |voices| && VoiceMatches(voices[i], VoiceKeywords(lang))
      && r.value == voices[i].id && forall j :: 0 <= j < i ==> !VoiceMatches(voices[j], VoiceKeywords(lang)))
  {
    var i := FirstMatch(voices, VoiceKeywords(lang));
    if i < |voices| then Some(voices[i].id) else None
  }

  /** Whether the lower-cased `name` contains any of `keywords`, scanning them in order. */
  method AnyKeyword(name: string, keywords: seq<string>) returns (found: bool)
    ensures found <==> exists k :: 0 <= k < |keywords| && Contains(name, keywords[k])
  {
    found := false;
    var k := 0;
    while k < |keywords| && !found
      invariant 0 <= k <= |keywords|
      invariant found <==> exists j :: 0 <= j < k && Contains(name, keywords[j])
    {
      found := Contains(name, keywords[k]);
      k := k + 1;
    }
  }

  /** The `for voice in voices: ... break` search: the id of the first voice whose name
      matches one of the language's keywords. */
  method FindVoice(voices: seq<Voice>, lang: string) returns (r: Option<string>)
    ensures r == ChosenVoice(voices, lang)
    ensures r.Some? <==> exists i :: 0 <= i < |voices| && VoiceMatches(voices[i], VoiceKeywords(lang))
  {
    var keywords := VoiceKeywords(lang);
    r := None;
    var i := 0;
    while i < |voices|
      invariant 0 <= i <= |voices|
      invariant forall j :: 0 <= j < i ==> !VoiceMatches(voices[j], keywords)
      invariant r == None
    {
      var hit := AnyKeyword(Lower(voices[i].name), keywords);
      if hit {
        r := Some(voices[i].id);
        assert FirstMatch(voices, keywords) == i by { FirstMatchAt(voices, keywords, i); }
        return;
      }
      i := i + 1;
    }
    assert FirstMatch(voices, keywords) == |voices| by { FirstMatchAt(voices, keywords, |voices|); }
  }

  /** The first match is the position before which nothing matches and at which a voice does. */
  lemma {:induction false} FirstMatchAt(voices: seq<Voice>, keywords: seq<string>, i: nat)
    requires i <= |voices|
    requires forall j :: 0 <= j < i ==> !VoiceMatches(voices[j], keywords)
    requires i < |voices| ==> VoiceMatches(voices[i], keywords)
    ensures FirstMatch(voices, keywords) == i
    decreases i
  {
    if i > 0 {
      assert !VoiceMatches(voices[0], keywords);
      FirstMatchAt(voices[1..], keywords, i - 1);
    }
  }

  /** Voices that come after the first match never matter. */
  lemma {:induction false} ChosenVoicePrefix(voices: seq<Voice>, more: seq<Voice>, lang: string)
    requires ChosenVoice(voices, lang).Some?
    ensures ChosenVoice(voices + more, lang) == ChosenVoice(voices, lang)
  {
    var keywords := VoiceKeywords(lang);
    var i := FirstMatch(voices, keywords);
    var all := voices + more;
    assert forall j :: 0 <= j <= i ==> all[j] == voices[j];
    FirstMatchAt(all, keywords, i);
  }

  // ---------------------------------------------------------------------------
  // Engine dispatch

  datatype Engine = Coqui | Gtts | ElevenLabs | Pyttsx3

  /** `handlers.get(engine, handlers['gtts'])`: the four known names, gTTS for any other. */
  function HandlerFor(name: string): (e: Engine)
    ensures e == Coqui <==> name == "coqui"
    ensures e == ElevenLabs <==> name == "elevenlabs"
    ensures e == Pyttsx3 <==> name == "pyttsx3"
    ensures e == Gtts <==> !(name in {"coqui", "elevenlabs", "pyttsx3"})
  {
    var handlers := map["coqui" := Coqui, "gtts" := Gtts, "elevenlabs" := ElevenLabs, "pyttsx3" := Pyttsx3];
    if name in handlers then handlers[name] else handlers["gtts"]
  }

  /** The name each engine is selected by. */
  function EngineName(e: Engine): string {
    match e
    case Coqui => "coqui"
    case Gtts => "gtts"
    case ElevenLabs => "elevenlabs"
    case Pyttsx3 => "pyttsx3"
  }

  /** Every engine is reached by its own name, so the table loses none. */
  lemma {:induction false} HandlerForName(e: Engine)
    ensures HandlerFor(EngineName(e)) == e
  {
  }
}
