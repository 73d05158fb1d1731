# Text-to-Humanoid-Voice in Dafny

The model covers the deterministic core of a Flask text-to-speech web application. A user
types text or uploads a document (PDF, DOCX, image or plain text). The application extracts
and cleans the text, chooses a language, prepares the text for speech and asks one of four
engines to speak it: Coqui, gTTS, pyttsx3 or ElevenLabs. Coqui and gTTS share an on-disk
audio cache keyed by the normalised text.

The project has eight modules. They are verified together:

- `Wrappers` (wrappers.dfy): `Option` and `Result`. They stand for the source's `None`
  returns and its raised exceptions.
- `Text` (text.dfy): the Python `str` operations the core uses, modelled on `seq<char>`:
  - `isspace` and the regular-expression class `\s`;
  - `lower`, `strip`, `lstrip` and `rstrip`;
  - `split()` and `split(c)`, `join`, `rfind`, `replace`, `startswith`, `endswith` and `in`.
- `Extractor` (extractor.dfy): `clean_text` step by step, the suffix dispatch of
  `extract_text_from_file`, and the page and paragraph joins of the PDF and DOCX readers.
  The readers work over what the libraries return.
- `LanguageDetector` (language_detector.dfy):
  - the code grouping of `detect_language`, with the detector as an oracle;
  - the regular-expression chain of `preprocess_text`;
  - the greedy sentence packer `split_text_into_chunks`, as a loop proved against a
    definition by sentence groups;
  - the abbreviation loop and the URL and e-mail removal of `normalize_text_for_tts`.
- `TtsTables` (tts_tables.dfy): the selection tables of `TTSService`:
  - the gTTS language map;
  - the ElevenLabs voice and model choice;
  - the pyttsx3 rate map and its voice search, which is a loop;
  - the `generate_speech` handler table.
- `AudioCache` (audio_cache.dfy): the cache as values.
  - The key is computed from the lower-cased, stripped, single-spaced text; the MD5 digest is
    a parameter.
  - Cache files are named `{key}.wav`, and `Path.stem` gives the key back.
  - The mtime sort is an insertion sort over the directory map.
  - `_get_from_cache` is a function `Lookup`. `_save_to_cache` and `_cleanup_cache` are given
    as relations `SavedTo` and `CleanedUp` between the state before and the state after.
- `TtsService` (tts_service.dfy): class `Service`. It holds the class-level state of
  `TTSService`:
  - the `_audio_cache` index;
  - the cache directory as a map from file name to (bytes, mtime);
  - the last index snapshot written to `cache_index.pkl`;
  - the Coqui model handle and its `_coqui_loaded` flag;
  - the output files written;
  - a trace of calls into the speech engines.

  Its methods are `__init__`, `_cleanup_cache` (with its deletion loop), `_save_to_cache`,
  `_load_coqui_fast_model`, the four `save_with_*` paths and `generate_speech`. Each is
  proved against the relations and functions of `AudioCache` and `TtsTables`. The engines
  are oracles in an `Engines` value: each gives audio bytes, or `None` for an exception.
- `Routes` (routes.dfy): the decisions of the live `/process` route as pure functions:
  - `allowed_file`;
  - the combination of typed and extracted text, and the rejection of empty input;
  - the `auto` language default and the engine selection;
  - the displayed excerpt, and the whole path up to the speech call (`Process`).

These patterns are modelled exactly, not approximated:
- the regular expressions of `clean_text`, `preprocess_text` and `split_text_into_chunks`;
- the URL pattern of `normalize_text_for_tts`. Its class `[$-_@.&+]` is the character range
  `$`..`_`, which already holds the digits, the capitals, `%`, `*`, `(`, `)`, `,` and the
  backslash, so only `a-z` and `!` lie outside it;
- the e-mail pattern `\S+@\S+`. It removes exactly the whitespace-delimited words that have an
  `@` with a character on each side.

The UTF-8 encode and decode at the end of `clean_text` (services/extractor.py:150-153) is the
identity on Dafny strings, whose characters are Unicode scalar values, so `CleanText` leaves it
out.

## Model

| member | source | states |
|---|---|---|
| Text.Lower | controllers/routes.py:527 | same length, each character lower-cased (ASCII letters) |
| Text.LastIndexOf | controllers/routes.py:527 | the position of the last occurrence of the character, or -1 when it does not occur |
| Text.StripFacts | services/extractor.py:147 | `strip` gives the slice of the text between an all-whitespace prefix and an all-whitespace suffix, has no whitespace at either end, and is empty exactly when the text is all whitespace |
| Text.JoinSplit | services/extractor.py:143-144 | joining the pieces of `split('\n')` with `'\n'` rebuilds the text |
| Text.WordsStrip | services/tts_service.py:1295-1296 | stripping a text does not change its `split()` words |
| Text.WordsCons | services/extractor.py:140 | one character put in front of two texts with the same words and the same leading whitespace gives the same words again |
| Text.JoinSameWords | services/extractor.py:143-144 | joining, by a whitespace separator, lines that have the same words pairwise gives the same words |
| Text.WordsSplitAt | services/tts_service.py:1296 | a non-empty whitespace run splits the words of the two sides independently |
| Text.ReplaceRemovesChar | services/extractor.py:131 | replacing every occurrence of a character by text without it leaves none |
| Extractor.RemoveControls | services/extractor.py:137 | no character of `[\x00-\x08\x0b-\x1f\x7f-\x9f]` is left, and every character left was in the input |
| Extractor.CollapseSpaces | services/extractor.py:140 | no tab and no two spaces in a row are left; no control character is added; empty exactly when the input is empty |
| Extractor.StripLines | services/extractor.py:143-144 | a text of one line is simply stripped; on text without control characters, tabs or double spaces, every line comes out trimmed and those properties are kept |
| Extractor.BlankRunEndOne | services/extractor.py:134 | a line break followed by no whitespace ends the whitespace run of `\n\s*` right after itself |
| Extractor.CleanText | services/extractor.py:127-147 | `""` gives `""`; the result has no control character and no `\r`, no tab, no double space; every line is trimmed and the whole text is stripped |
| Extractor.CleanTextWords | services/extractor.py:127-147 | on text without control characters, cleaning keeps exactly the `split()` words, in order |
| Extractor.CleanTextExample | test_all_modules.py:42-44 | the cleaned test text has exactly the words `Hello`, `World` and `Test`, in that order |
| Extractor.CollapseBlankLinesWords | services/extractor.py:134 | `\n\s*\n+` to `\n\n` keeps the words and whether the text starts with whitespace |
| Extractor.CollapseBlankLinesNoControl | services/extractor.py:134 | the blank-line collapse adds no control character |
| Extractor.CollapseSpacesWords | services/extractor.py:140 | `[ \t]+` to one space keeps the words and whether the text starts with whitespace |
| Extractor.StripLinesWords | services/extractor.py:143-144 | stripping every line keeps the words of the text |
| Extractor.CleanTextKeepsClean | services/extractor.py:127-147 | a text that already has all those properties and no three line breaks in a row comes back unchanged |
| Extractor.NormalizeLineEndings | services/extractor.py:131 | no `\r` is left, and a text without `\r` is unchanged |
| Extractor.CollapseBlankLines | services/extractor.py:133-134 | no three line breaks in a row are left, the text gets no longer, and a text that does not start with a line break keeps its first character |
| Extractor.BlankRunStops | services/extractor.py:134 | a match of `\n\s*\n+` takes every line break of the leading whitespace run, so what follows it is not a line break |
| Extractor.NoTripleAfterPair | services/extractor.py:134 | the `\n\n` a match becomes, put before text that does not start with a line break, makes no triple break |
| Extractor.CollapseBlankLinesKeeps | services/extractor.py:134 | a text with at most one blank line between lines, and only line breaks as whitespace after a line break, is left unchanged by `\n\s*\n+` |
| Extractor.RemoveControlsKeepsClean | services/extractor.py:137 | a text without control characters is unchanged |
| Extractor.CollapseSpacesKeeps | services/extractor.py:140 | a text without tabs and double spaces is unchanged |
| Extractor.StripLinesKeeps | services/extractor.py:143-144 | a text whose lines are trimmed is unchanged by the per-line strip |
| Extractor.StripKeepsStripped | services/extractor.py:147 | a stripped text is unchanged by `strip` |
| Extractor.ExtractPdfText | services/extractor.py:22-29 | the page loop returns the non-empty page texts joined by `\n` |
| Extractor.PdfPartsAppend | services/extractor.py:25-28 | the parts of consecutive page runs come in page order |
| Extractor.PdfPartsFromPages | services/extractor.py:25-28 | every part is the non-empty text of some page |
| Extractor.DocxKeepsParagraph | services/extractor.py:44 | a paragraph is kept exactly when it holds a non-whitespace character |
| Extractor.DocxPartsAppend | services/extractor.py:44 | kept paragraphs come in document order |
| Extractor.DocxPartsFromParagraphs | services/extractor.py:44 | every kept paragraph is a non-blank paragraph of the document |
| Extractor.ReaderFor | services/extractor.py:90-106 | the lower-cased path picks the PDF reader for `.pdf`, else DOCX for `.docx`, else OCR for the image suffixes, else the text reader |
| Extractor.ExtractText | services/extractor.py:82-113 | the PDF and DOCX readers answer with their joins; the text reader fails exactly when the file cannot be read, as an unsupported type only for a suffix other than `.txt` |
| LanguageDetector.MapDetected | services/language_detector.py:26-36 | ur, ar and fa give ur; en, es and fr give themselves; any other code gives en; the answer is always supported |
| LanguageDetector.DetectLanguage | services/language_detector.py:18-40 | `None` for a text whose stripped length is below 3 or when the detector fails; otherwise the grouped code of the detector's answer |
| LanguageDetector.ShortTextIgnoresDetector | services/language_detector.py:18-19 | a short text gets `None` whatever the detector would say |
| LanguageDetector.KeepUrdu | services/language_detector.py:65 | only characters of the Urdu class survive, and every one of them present in the input does |
| LanguageDetector.MaskLatin | services/language_detector.py:69 | same length; a kept character stays, any other becomes a space |
| LanguageDetector.CollapseWhitespace | services/language_detector.py:72 | the result is single spaced, empty exactly when the input is, and starts with whitespace exactly when the input does |
| LanguageDetector.MarkMatch | services/language_detector.py:75 | a match of `\s*([.,!?;:])\s*` is the leading whitespace followed by a punctuation mark |
| LanguageDetector.SpacePunctuationSpacing | services/language_detector.py:75 | on single-spaced text the punctuation rewrite stays single spaced and puts a space after every mark |
| LanguageDetector.PreprocessText | services/language_detector.py:56-78 | `""` gives `""`; the result is stripped, single spaced, and every punctuation mark is followed by a space unless it ends the text |
| LanguageDetector.PreprocessTextKeeps | services/language_detector.py:62-78 | every character of the result passed the language's filter: Arabic-script letter, whitespace, digit or `.,!?;:-` for Urdu |
| LanguageDetector.NextBreak | services/language_detector.py:98 | the first split point of `(?<=[.!?])\s+` at or after a position |
| LanguageDetector.Sentences | services/language_detector.py:98 | the split gives at least one piece |
| LanguageDetector.SentencesNonEmpty | services/language_detector.py:98 | only the last piece can be empty |
| LanguageDetector.SplitChunks | services/language_detector.py:94-95 | a text no longer than the limit is the single chunk `[text]` |
| LanguageDetector.SplitTextIntoChunks | services/language_detector.py:94-115 | the sentence loop returns exactly the chunks of the sentence-group definition |
| LanguageDetector.AccumulateEmpty | services/language_detector.py:109 | the chunk text is empty exactly when each of its sentences is |
| LanguageDetector.AccumulateJoin | services/language_detector.py:109 | a chunk that starts with a non-empty sentence is its sentences joined by single spaces |
| LanguageDetector.PackGroupsCover | services/language_detector.py:103-113 | the groups hold the sentences in order, each once, except a dropped empty last piece |
| LanguageDetector.PackGroupsShape | services/language_detector.py:105-109 | each group is non-empty with text; each sentence added fitted; each boundary is where the next sentence did not fit |
| LanguageDetector.PackGroupsLead | services/language_detector.py:105-109 | no group starts with an empty sentence |
| LanguageDetector.PackGroupsMembers | services/language_detector.py:103-109 | every sentence of a group comes from the input |
| LanguageDetector.ChunksFollowSentences | services/language_detector.py:98-115 | each chunk is one group of consecutive sentences joined by single spaces and stripped; the groups are the sentences in order |
| LanguageDetector.ChunkBoundaries | services/language_detector.py:105-109 | a new chunk starts only when the open one is non-empty and the next sentence would take it past the limit; within a chunk every added sentence fitted |
| LanguageDetector.ChunkSizes | services/language_detector.py:105-109 | a chunk of two or more sentences is at most the limit plus one; a sentence over the limit is a chunk alone |
| LanguageDetector.UrlMatch | services/language_detector.py:141 | a URL match starts with `http` |
| LanguageDetector.AbbreviationsHaveDots | services/language_detector.py:128-135 | every abbreviation of the table is non-empty and contains a dot |
| LanguageDetector.NotContainsChar | services/language_detector.py:137-138 | a text without some character contains no pattern that has it |
| LanguageDetector.ExpandAbbreviations | services/language_detector.py:137-138 | with a table whose abbreviations all contain a dot, a text without a dot is unchanged by the replacements |
| LanguageDetector.RemoveUrls | services/language_detector.py:141 | the URL removal never makes the text longer, and a text without `http` is unchanged |
| LanguageDetector.RemoveEmails | services/language_detector.py:144 | the e-mail removal never makes the text longer, and a text without `@` is unchanged |
| LanguageDetector.NormalizeForTts | services/language_detector.py:137-149 | the abbreviation loop, URL and e-mail removal and strip give `NormalizedForTts` |
| LanguageDetector.NormalizedForTts | services/language_detector.py:128-149 | the result is stripped; a text with no dot, no `@` and no `http` is only stripped |
| TtsTables.GttsLang | services/tts_service.py:1385-1386 | en, ur, hi, es, fr and ar map to themselves, anything else to en |
| TtsTables.GttsLangIdempotent | services/tts_service.py:1385-1386 | mapping twice is mapping once |
| TtsTables.ElevenLabsVoice | services/tts_service.py:1468-1474 | Matias exactly for es, Charlotte exactly for fr, Rachel otherwise |
| TtsTables.ElevenLabsModel | services/tts_service.py:1469 | the multilingual model exactly for `high` |
| TtsTables.Pyttsx3Rate | services/tts_service.py:1437-1438 | 145 exactly for `high`, 155 exactly for `natural`, 150 otherwise |
| TtsTables.VoiceKeywords | services/tts_service.py:1426-1433 | urdu/hindi/arabic for ur, hi and ar; english otherwise |
| TtsTables.FirstMatch | services/tts_service.py:1427-1435 | the first voice whose name matches, none before it |
| TtsTables.ChosenVoice | services/tts_service.py:1426-1435 | a voice id exactly when some voice's name matches a keyword of the language, and then the id of a matching voice with no matching voice before it |
| TtsTables.AnyKeyword | services/tts_service.py:1428 | true exactly when some keyword occurs in the name |
| TtsTables.FindVoice | services/tts_service.py:1426-1435 | the loop with `break` picks the first matching voice, and finds one exactly when some voice matches |
| TtsTables.ChosenVoicePrefix | services/tts_service.py:1427-1435 | voices listed after the first match do not change the choice |
| TtsTables.HandlerFor | services/tts_service.py:1504-1511 | the four names get their engines and any other name gets gTTS |
| TtsTables.HandlerForName | services/tts_service.py:1504-1511 | every engine is reached by its own name |
| AudioCache.CacheKey | services/tts_service.py:1293-1297 | the key is the digest of the lower-cased text's `split()` words joined by single spaces |
| AudioCache.NormalizedWords | services/tts_service.py:1295-1296 | the normalised text is the lower-cased text's words joined by single spaces |
| AudioCache.SameWordsSameKey | services/tts_service.py:1293-1297 | texts with the same lower-cased words get the same key, whatever engine or language is used |
| AudioCache.KeyIgnoresCase | services/tts_service.py:1295 | lower-casing the text does not change the key |
| AudioCache.KeyIgnoresOuterSpace | services/tts_service.py:1295 | whitespace around the text does not change the key |
| AudioCache.KeyCollapsesSpaceRun | services/tts_service.py:1296 | any inner whitespace run counts as one space |
| AudioCache.FileNameInjective | services/tts_service.py:1335 | different keys have different cache files |
| AudioCache.Stem | services/tts_service.py:1361 | `Path.stem` removes the `.wav` suffix, except from the name `.wav` itself |
| AudioCache.StemFileName | services/tts_service.py:1361 | the stem of a key's cache file is the key |
| AudioCache.Stems | services/tts_service.py:1361 | the set of stems is exactly the stems of the listed names |
| AudioCache.SortByAgeFacts | services/tts_service.py:1356 | the sort orders the files oldest first and is a permutation of the listing |
| AudioCache.Lookup | services/tts_service.py:1320-1330 | bytes exactly when the key is indexed and its file exists, and then the file's bytes |
| AudioCache.Written | services/tts_service.py:1334-1337 | the write adds the key's file with the bytes and time stamp and the key's index entry, and changes no other file or entry |
| AudioCache.SavedWithoutEviction | services/tts_service.py:1332-1346 | a successful save with at most 200 index entries, or at most 200 `.wav` files, ends in the written state |
| AudioCache.SaveThenLookup | services/tts_service.py:1332-1338 | after a successful save that evicts nothing, the key looks up exactly the bytes written and is indexed |
| AudioCache.SaveKeepsOthers | services/tts_service.py:1332-1346 | a save that evicts nothing leaves every other key's lookup unchanged, failed or not |
| AudioCache.SavePersistsIndex | services/tts_service.py:1340-1342 | after a successful save that evicts nothing, the index is snapshotted exactly when its new size is a multiple of 10 |
| AudioCache.SaveWithCleanup | services/tts_service.py:1332-1364 | a successful save past 200 entries is the write followed by a cleanup; it evicts 50 `.wav` files when more than 200 exist and none otherwise; the index is snapshotted when something was evicted or its size is a multiple of 10; an evicted key's lookup fails and any key whose file and stem were not evicted keeps its lookup; when every other file is older, the newly written key survives and looks up its bytes |
| AudioCache.CleanupEvicts | services/tts_service.py:1353-1364 | a cleanup after the write with more than 200 `.wav` files evicts 50 and saves the index, with the lookup outcomes of `SaveWithCleanup` |
| AudioCache.CleanupDeletesNothing | services/tts_service.py:1353-1354 | a cleanup after the write with at most 200 `.wav` files deletes nothing: the key looks up its bytes and every other key is unchanged |
| AudioCache.NewestSurvives | services/tts_service.py:1356-1358 | when every other file is older than the one just written, it is not among the 50 oldest |
| AudioCache.StemIs | services/tts_service.py:1361 | a `.wav` name whose stem is a key is that key's file, or the name `.wav` itself |
| AudioCache.CleanupCount | services/tts_service.py:1353-1364 | a cleanup of more than 200 `.wav` files leaves exactly 50 fewer |
| AudioCache.CleanupKeepsRest | services/tts_service.py:1353-1364 | cleanup keeps every file it does not evict, unchanged, and every index entry no evicted stem names |
| TtsService.JoinPath | services/tts_service.py:1502 | the joined path ends with the file name |
| TtsService.CallsByFallBack | services/tts_service.py:1287 | the calls gTTS may make are calls the Coqui path may make |
| TtsService.FallBackAudio | services/tts_service.py:1231-1287 | the fallback's audio is the first gTTS answer when there is one; after a first failure it is the second request's answer without a model, and none with one |
| TtsService.FallBackAnswer | services/tts_service.py:1231-1287 | the fallback answers the output path exactly when it has audio, and a gTTS error otherwise |
| TtsService.Service.constructor | services/tts_service.py:1133-1141 | the first instance sets the cache directory to `.tts_cache` below the output folder and loads the saved index, if any; the model is not loaded |
| TtsService.Service.Reopen | services/tts_service.py:1133-1138 | a later instance changes only the output folder |
| TtsService.Service.ListCacheFiles | services/tts_service.py:1353 | every `.wav` file of the directory, once each |
| TtsService.Service.Cleanup | services/tts_service.py:1350-1367 | the new cache is a cleanup of the old one: nothing changes with at most 200 files; otherwise the 50 oldest files are deleted, their stems popped and the index saved; nothing else changes |
| TtsService.Service.EvictOldest | services/tts_service.py:1358-1363 | the first 50 sorted files are deleted and their stems popped, and nothing else changes |
| TtsService.DeleteOldest | services/tts_service.py:1358-1363 | the deletion loop removes exactly the first 50 names from the files and their stems from the index |
| TtsService.SortedListing | services/tts_service.py:1353-1356 | the sorted listing holds every `.wav` file once, oldest first |
| TtsService.EvictedAreOldest | services/tts_service.py:1356-1358 | the first files of the sorted listing are no newer than any file left |
| TtsService.EvictionOutcome | services/tts_service.py:1353-1364 | deleting the 50 oldest and popping their stems is a cleanup |
| TtsService.Service.SaveToCache | services/tts_service.py:1332-1348 | the new cache is a save of the key and bytes: a failed write changes nothing; otherwise file and index entry are written, the index is saved at multiples of 10 and cleaned above 200 |
| TtsService.Service.LoadCoquiFastModel | services/tts_service.py:1148-1205 | a loaded model is handed out again without a load; otherwise one load is made and a success sets the model and the flag, while a failure leaves them |
| TtsService.Service.SaveWithGtts | services/tts_service.py:1373-1411 | a cache hit writes the cached bytes to the output without calling gTTS; otherwise gTTS is called once in the mapped language, and its audio is written and saved to the cache, or the call is an error; the model is untouched |
| TtsService.Service.SaveWithCoquiFast | services/tts_service.py:1214-1287 | a cache hit writes the cached bytes without loading; otherwise the model is loaded at most once, its audio is written and cached under the same text-only key, and a missing model or failed synthesis ends with the fallback's outcome, including a successful second gTTS request after a first failure when no model was loaded |
| TtsService.Service.SynthesizeOrFallBack | services/tts_service.py:1236-1287 | with a model whose synthesis succeeds, the audio is written and cached; otherwise the outcome is the gTTS fallback's, answer, output and cache alike |
| TtsService.Service.FallBackToGtts | services/tts_service.py:1231-1234 | the gTTS fallback; without a model a gTTS failure is caught by the outer handler at line 1281 and a second gTTS request is made, and its own outcome is the answer, output and cache write |
| TtsService.Service.SaveWithPyttsx3 | services/tts_service.py:1417-1451 | one call with the first matching voice, the quality's rate and volume 0.9; the cache and model are untouched |
| TtsService.Service.SaveWithElevenLabs | services/tts_service.py:1457-1485 | not installed, or no non-empty API key, fails without a call; otherwise one call with the language's voice and the quality's model; the cache is untouched |
| TtsService.Service.GenerateSpeech | services/tts_service.py:1498-1512 | the output is `speech_{hex}.wav` in the output folder, and the outcome is exactly that of the handler the table picks for the engine name: its cache, model, output and call effects and its answer; only that engine is called |
| Routes.AllowedFile | controllers/routes.py:524-528 | a name without a dot is refused |
| Routes.AllowedFileSuffix | controllers/routes.py:527-528 | only the text after the last dot counts, lower-cased, against the allowed set |
| Routes.UpperCaseAccepted | controllers/routes.py:527 | `A.PDF` is accepted |
| Routes.DoubleSuffixRejected | controllers/routes.py:527-528 | `x.pdf.exe` is refused |
| Routes.DocRejected | controllers/routes.py:521 | `.doc` is not allowed |
| Routes.TifRejected | controllers/routes.py:521 | `.tif` is not allowed |
| Routes.AllowedFileReader | controllers/routes.py:521-560 | an accepted upload's temporary file goes to the text reader only when it ends in `.txt`, so its extraction never fails as an unsupported type |
| Routes.TempSuffix | controllers/routes.py:555-556 | the temporary path ends, lower-cased, in an allowed extension |
| Routes.AllowedSuffix | controllers/routes.py:527-528 | an accepted name ends, lower-cased, in an allowed extension |
| Routes.LowerEndsWith | controllers/routes.py:527 | lower-casing keeps a suffix a suffix |
| Routes.TempPath | controllers/routes.py:555-556 | the temporary path is the upload folder joined with `{hex}_{filename}`, so it ends with the secured name |
| Routes.Uploaded | controllers/routes.py:547-548 | the upload is read exactly when a file is present and its name as sent is non-empty |
| Routes.StatusOf | controllers/routes.py:551-579 | only a failed extraction is answered with 500; the other rejections are 400 |
| Routes.CombineText | controllers/routes.py:571-575 | typed text stripped, plus a blank line and the extracted text when there is any; with nothing typed, the extracted text |
| Routes.CombineTextBlank | controllers/routes.py:577 | the combined text is blank exactly when nothing was typed and the extracted text is blank |
| Routes.ResolveLanguage | controllers/routes.py:585-587 | another choice is kept; `auto` gives a supported code, `en` when detection gives nothing |
| Routes.SelectEngine | controllers/routes.py:603-619 | the route's engine chain picks exactly the handler `generate_speech`'s table gives the name |
| Routes.DisplayText | controllers/routes.py:648 | the first 1000 characters, plus `...` exactly when there are more |
| Routes.ProcessRejects | controllers/routes.py:547-579 | an upload whose secured name is empty or not allowed is refused as a wrong type before extraction; a failed extraction is answered with its error, and is the only 500; blank input is refused exactly when nothing was typed and the extracted text is blank |
| Routes.ProcessAcceptsChoices | controllers/routes.py:581-619 | an accepted request keeps its language or resolves `auto` to a supported code, uses the handler for its engine name, and shows the excerpt of the cleaned text |
| Routes.Process | controllers/routes.py:537-590 | a wrong type is answered exactly when an upload's secured name is not allowed; an extraction failure exactly when an accepted upload's extraction fails, with its error; an accepted request's cleaned and prepared texts have the guarantees of `clean_text` and `preprocess_text` |

## Left out

- Extractor.CollapseBlankLines: does not state in its own contract that it adds no control
  character; `CollapseBlankLinesNoControl` proves it separately.
- Speech engines and model loading: Coqui `TTS`, gTTS, pyttsx3 and ElevenLabs are foreign
  libraries, the network or heavy ML. Torch/CUDA placement too. They are oracles in `Engines`.
  An oracle gives the same answer to the same arguments, except that gTTS has a second
  oracle, `gttsRetry`, for the one repeated request the Coqui fallback can make.
- Audio post-processing (services/tts_service.py:1256-1267, 1491-1496): floating-point
  normalisation and WAV encoding. The Coqui oracle gives the encoded bytes directly.
- MD5 (services/tts_service.py:1297): the digest is a parameter of `Service` and of `CacheKey`.
- AudioCache.CacheKey: does not model that MD5 collisions could give two texts one key, because the digest is a parameter.
- File I/O failures: writes to the output path, reads of cached files, and `unlink` in the
  cleanup loop always succeed. Only a cache write can fail (`Env.cacheWritable`); it fails as
  a whole and is absorbed. Then nothing changes.
- Pickle: the index file is a snapshot. A load that fails, or a failing `_save_cache_index`, is
  not modelled. Exceptions inside `_cleanup_cache` other than a failing `unlink` are not
  modelled either.
- Time, `uuid` and the upload folder: the mtime `now`, the hex names and the upload folder are
  parameters; the temporary path is built from them.
- Printing, stdout redirection, `os.makedirs`.
- Concurrency: the class-level state is modelled sequentially.
- Several `TTSService` instances: modelled only through `Reopen`, on one shared state.
- Text.Lower: lower-cases ASCII letters only, while Python's `str.lower` covers all of Unicode,
  because that case mapping is a large table. The extension check only compares ASCII
  suffixes, and there this is exact. The two other users differ on text that has non-ASCII capitals:
  - `AudioCache.CacheKey` (services/tts_service.py:1295): in the source "Élan" and "élan" share a
    cache key; in the model they do not;
  - the pyttsx3 voice search (services/tts_service.py:1428, 1433): Python lower-cases "HINDİ"
    (a dotted capital I at the end) to "hindi" followed by a combining dot. So the source
    counts that voice as Hindi, and the model does not.
- LanguageDetector.KeepUrdu: Python's Unicode `\d` is a parameter (`CharClasses`), because its
  table is not part of this model.
- LanguageDetector.MaskLatin: Python's Unicode `\w` and `\d` are parameters (`CharClasses`),
  for the same reason.
- LanguageDetector.DetectLanguage: langdetect is an oracle. Any exception it raises is
  `None`, although only `LangDetectException` is caught.
- Extractor.CleanText: takes a `str`; a `None` argument (services/extractor.py:127) is not
  modelled.
- Extractor.CleanText: the result is proved to keep the input's words only for input without
  control characters (`CleanTextWords`). Some control characters (`\x0b`, `\x0c`,
  `\x1c`-`\x1f`) are whitespace to `split()`, and removing them joins words: "a\x1fb" has the
  words `a` and `b` and cleans to `ab`. So for input with control characters the words are not
  stated. For the test text
  `"  Hello   World  \n\n\n  Test  "` (test_all_modules.py:42-44), `CleanTextExample` proves
  the words `Hello`, `World`, `Test`. It does not prove the test's own check, that
  `"Hello World"` with one space occurs in the result as a substring.
- Extraction libraries: pdfplumber, python-docx, pytesseract and the file read of
  `extract_text_from_txt` are results passed in (`LibraryResults`), with `None` for one that
  raises. The error messages are not modelled.
- The speech call inside `process` (controllers/routes.py:596-636): its error messages, the
  `.mp3` output name and the templates. `Process` stops before it.
- Flask plumbing: request parsing, `secure_filename` (the upload carries both the name as sent and
  the secured name; the sanitising itself is not modelled), `url_for`, `send_from_directory`, the `/outputs` route, the temporary file's
  saving and removal, and the `/cleanup` route (controllers/routes.py:674-692), which is a file
  deletion loop.
- pyttsx3: `pyttsx3.init` failures and the engine's own properties are part of the pyttsx3
  oracle's `None`.
- ElevenLabs: the error messages are not modelled. A missing key is its own error value.
- Commented-out historical versions (services/tts_service.py:1-1096,
  controllers/routes.py:1-501): not live code.
