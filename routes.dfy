/** The decisions of the live `/process` route in controllers/routes.py, lifted out as pure
    functions: the upload extension check, the combination of typed and extracted text, the
    rejection of empty input, the `auto` language default, the engine selection and the
    displayed excerpt. */
module Routes {
  import opened Wrappers
  import opened Text
  import opened Extractor
  import opened LanguageDetector
  import opened TtsTables
  import TtsService

  // ---------------------------------------------------------------------------
  // allowed_file

  const AllowedExtensions: set<string> := {".pdf", ".docx", ".png", ".jpg", ".jpeg", ".txt", ".bmp", ".tiff"}

  /** `allowed_file(filename)`: the text after the last dot, lower-cased and with the dot put
      back, must be one of the allowed extensions. */
  function AllowedFile(filename: string): (ok: bool)
    ensures '.' !in filename ==> !ok
  {
    if '.' !in filename then false
    else
      var dot := LastIndexOf(filename, '.');
      "." + Lower(filename[dot + 1..]) in AllowedExtensions
  }

  /** Only the last suffix counts, in any case. */
  lemma {:induction false} AllowedFileSuffix(name: string, ext: string)
    requires '.' !in ext
    ensures AllowedFile(name + "." + ext) <==> "." + Lower(ext) in AllowedExtensions
  {
    var f := name + "." + ext;
    LastDot(name, ext);
    assert f[|name| + 1..] == ext;
  }

  lemma {:induction false} LastDot(name: string, ext: string)
    requires '.' !in ext
    ensures LastIndexOf(name + "." + ext, '.') == |name|
    decreases |ext|
  {
    var f := name + "." + ext;
    if ext == [] {
      assert f[|f| - 1] == '.';
    } else {
      assert f[|f| - 1] == ext[|ext| - 1];
      assert f[..|f| - 1] == name + "." + ext[..|ext| - 1];
      assert '.' !in ext[..|ext| - 1] by {
        assert forall i :: 0 <= i < |ext| - 1 ==> ext[..|ext| - 1][i] == ext[i];
      }
      LastDot(name, ext[..|ext| - 1]);
    }
  }

  /** An upper-case extension is accepted. */
  lemma {:induction false} UpperCaseAccepted()
    ensures AllowedFile("A.PDF")
  {
    AllowedFileSuffix("A", "PDF");
    assert "A" + "." + "PDF" == "A.PDF";
    assert Lower("PDF") == "pdf" by {
      assert Lower("PDF")[0] == 'p' && Lower("PDF")[1] == 'd' && Lower("PDF")[2] == 'f';
    }
    assert "." + "pdf" == ".pdf";
  }

  /** A double suffix is judged by its last part. */
  lemma {:induction false} DoubleSuffixRejected()
    ensures !AllowedFile("x.pdf.exe")
  {
    SplitName("x.pdf", "exe", "x.pdf.exe");
    DottedLower("exe");
    assert ".exe" !in AllowedExtensions by {
      assert forall x :: x in AllowedExtensions ==> x[1] != 'e';
    }
  }

  /** `.doc` is not on the list. */
  lemma {:induction false} DocRejected()
    ensures !AllowedFile("report.doc")
  {
    SplitName("report", "doc", "report.doc");
    DottedLower("doc");
    assert ".doc" !in AllowedExtensions by {
      assert forall x :: x in AllowedExtensions && x[1] == 'd' ==> |x| == 5;
    }
  }

  /** Nor is `.tif`. */
  lemma {:induction false} TifRejected()
    ensures !AllowedFile("scan.tif")
  {
    SplitName("scan", "tif", "scan.tif");
    DottedLower("tif");
    assert ".tif" !in AllowedExtensions by {
      assert forall x :: x in AllowedExtensions && x[1] == 't' && x[2] == 'i' ==> |x| == 5;
    }
  }

  /** `AllowedFileSuffix` for a file name written out whole. */
  lemma {:induction false} SplitName(name: string, ext: string, file: string)
    requires '.' !in ext && file == name + "." + ext
    ensures AllowedFile(file) <==> "." + Lower(ext) in AllowedExtensions
  {
    AllowedFileSuffix(name, ext);
  }

  /** A three-letter lower-case extension with its dot put back. */
  lemma {:induction false} DottedLower(ext: string)
    requires |ext| == 3 && forall i :: 0 <= i < 3 ==> !('A' <= ext[i] <= 'Z')
    ensures "." + Lower(ext) == ['.', ext[0], ext[1], ext[2]]
  {
  }

  lemma {:induction false} SuffixReader(lowered: string, suffix: string)
    requires suffix in AllowedExtensions && EndsWith(lowered, suffix)
    ensures suffix == ".txt" || EndsWith(lowered, ".pdf") || EndsWith(lowered, ".docx") || IsImagePath(lowered)
  {
  }

  /** A suffix of a string is a suffix of it once both are lower-cased. */
  lemma {:induction false} LowerEndsWith(s: string, p: string)
    requires EndsWith(s, p)
    ensures EndsWith(Lower(s), Lower(p))
  {
    assert s == s[..|s| - |p|] + p;
    LowerAppend(s[..|s| - |p|], p);
  }

  lemma {:induction false} LowerDotSuffix(name: string, ext: string)
    ensures Lower(name + "." + ext) == Lower(name) + "." + Lower(ext)
    ensures EndsWith(Lower(name + "." + ext), "." + Lower(ext))
  {
    LowerAppend(name + ".", ext);
    LowerAppend(name, ".");
    assert Lower(".") == ".";
    var s := Lower(name) + "." + Lower(ext);
    assert s[|s| - |"." + Lower(ext)|..] == "." + Lower(ext);
  }

  // ---------------------------------------------------------------------------
  // The decisions of process()

  /** The typed text, stripped, followed by a blank line and the extracted text when there is
      any; with nothing typed, the extracted text alone. */
  function CombineText(textInput: string, extracted: string): (r: string)
    ensures Strip(textInput) == "" ==> r == extracted
    ensures Strip(textInput) != "" && extracted == "" ==> r == Strip(textInput)
    ensures Strip(textInput) != "" && extracted != "" ==> r == Strip(textInput) + "\n\n" + extracted
  {
    var typed := Strip(textInput);
    if typed != "" then typed + (if extracted != "" then "\n\n" + extracted else "") else extracted
  }

  /** The combined text is blank exactly when nothing was typed and the extracted text is
      blank. */
  lemma {:induction false} CombineTextBlank(textInput: string, extracted: string)
    ensures Strip(CombineText(textInput, extracted)) == "" <==> Strip(textInput) == "" && AllSpace(extracted)
  {
    var r := CombineText(textInput, extracted);
    StripFacts(r);
    StripFacts(extracted);
    var typed := Strip(textInput);
    StripFacts(textInput);
    if typed != "" {
      assert r[0] == typed[0];
      assert !AllSpace(r);
    }
  }

  /** `auto` becomes the detected language, or `en` when detection gives nothing; any other
      choice is kept. */
  function ResolveLanguage(language: string, cleaned: string, detector: string -> Option<string>): (r: string)
    ensures language != "auto" ==> r == language
    ensures language == "auto" ==> IsSupportedCode(r)
    ensures language == "auto" && DetectLanguage(cleaned, detector).None? ==> r == "en"
    ensures language == "auto" && |Strip(cleaned)| < 3 ==> r == "en"
  {
    if language == "auto" then DetectLanguage(cleaned, detector).GetOr("en") else language
  }

  /** The route's own `if`/`elif` chain over engine names, the `coqui` branch going through
      the `save_with_coqui_xtts` alias of the fast Coqui path. It selects exactly the handler
      `generate_speech` would. */
  function SelectEngine(name: string): (e: Engine)
    ensures e == HandlerFor(name)
  {
    if name == "coqui" then Coqui
    else if name == "gtts" then Gtts
    else if name == "elevenlabs" then ElevenLabs
    else if name == "pyttsx3" then Pyttsx3
    else Gtts
  }

  /** The first 1000 characters of the cleaned text, with `...` when there were more. */
  function DisplayText(cleaned: string): (r: string)
    ensures |cleaned| <= 1000 ==> r == cleaned
    ensures |cleaned| > 1000 ==> |r| == 1003 && r[..1000] == cleaned[..1000] && r[1000..] == "..."
  {
    (if |cleaned| <= 1000 then cleaned else cleaned[..1000]) + (if |cleaned| > 1000 then "..." else "")
  }

  /** An uploaded file: the name the client sent, the name `secure_filename` made of it, the
      upload folder, the random hex prefix of the temporary name, and what the extraction
      libraries give for the saved file. */
  datatype Upload = Upload(rawName: string, filename: string, folder: string, hex: string, lib: LibraryResults)

  /** `os.path.join(UPLOAD_FOLDER, f"{hex}_{filename}")`, where the file is saved and read. */
  function TempPath(u: Upload): (r: string)
    ensures EndsWith(r, u.filename)
  {
    var r := TtsService.JoinPath(u.folder, u.hex + "_" + u.filename);
    EndsWithTrans(r, u.hex + "_" + u.filename, u.filename);
    r
  }

  /** The form fields of one request. */
  datatype Request = Request(textInput: string, language: string, engine: string, quality: string, upload: Option<Upload>)

  datatype Rejection = InvalidFileType | ExtractionFailed(error: ExtractError) | NoText

  /** The HTTP status each rejection is answered with: only a failed extraction is a server
      error. */
  function StatusOf(r: Rejection): (code: int)
    ensures code == 500 <==> r.ExtractionFailed?
    ensures code != 500 ==> code == 400
  {
    match r
    case InvalidFileType => 400
    case ExtractionFailed(_) => 500
    case NoText => 400
  }

  /** What the route hands to the speech service and shows on the page. */
  datatype Prepared = Prepared(cleaned: string, language: string, preprocessed: string, engine: Engine,
                               quality: string, display: string, wordCount: nat, charCount: nat)

  /** The upload the route reads: only one whose name as sent is non-empty; the secured name
      may still be empty. */
  function Uploaded(req: Request): (up: Option<Upload>)
    ensures up.Some? <==> req.upload.Some? && req.upload.value.rawName != ""
    ensures up.Some? ==> up == req.upload
  {
    if req.upload.Some? && req.upload.value.rawName != "" then req.upload else None
  }

  /** The extraction of an accepted upload, from the temporary file's path. */
  function Extraction(u: Upload): Result<string, ExtractError> {
    ExtractText(TempPath(u), u.lib)
  }

  /** An accepted upload always reaches the extractor of its own type: its temporary file goes
      to the text reader only when it ends in `.txt`, so its extraction never fails as an
      unsupported file type. */
  lemma {:induction false} AllowedFileReader(u: Upload)
    requires AllowedFile(u.filename)
    ensures ReaderFor(TempPath(u)) == TextReader ==> EndsWith(Lower(TempPath(u)), ".txt")
    ensures Extraction(u) != Err(UnsupportedFileType)
  {
    var suffix := TempSuffix(u);
    var path := TempPath(u);
    SuffixReader(Lower(path), suffix);
    assert ReaderFor(path) == TextReader ==> suffix == ".txt";
    var r := ExtractText(path, u.lib);
    assert r.Err? && r.error == UnsupportedFileType ==> ReaderFor(path) == TextReader && !EndsWith(Lower(path), ".txt");
  }

  /** The temporary path ends, lower-cased, in the accepted name's extension. */
  lemma {:induction false} TempSuffix(u: Upload) returns (suffix: string)
    requires AllowedFile(u.filename)
    ensures suffix in AllowedExtensions && EndsWith(Lower(TempPath(u)), suffix)
  {
    suffix := AllowedSuffix(u.filename);
    var path := TempPath(u);
    LowerEndsWith(path, u.filename);
    EndsWithTrans(Lower(path), Lower(u.filename), suffix);
  }

  /** An accepted name ends, lower-cased, in one of the allowed extensions. */
  lemma {:induction false} AllowedSuffix(f: string) returns (suffix: string)
    requires AllowedFile(f)
    ensures suffix in AllowedExtensions && EndsWith(Lower(f), suffix)
  {
    var dot := LastIndexOf(f, '.');
    var name, ext := f[..dot], f[dot + 1..];
    assert f == name + "." + ext;
    assert '.' !in ext by {
      assert forall j :: 0 <= j < |ext| ==> ext[j] == f[dot + 1 + j];
    }
    AllowedFileSuffix(name, ext);
    suffix := "." + Lower(ext);
    LowerDotSuffix(name, ext);
  }

  /** `process()` up to the speech call, with the detector and Python's character classes as
      parameters. A file of the wrong type is refused, exactly, before anything is extracted;
      a failed extraction of an accepted file is answered with its error; the texts of an
      accepted request have the guarantees of `clean_text` and `preprocess_text`. */
  function Process(req: Request, detector: string -> Option<string>, cls: CharClasses): (r: Result<Prepared, Rejection>)
    ensures r == Err(InvalidFileType) <==> Uploaded(req).Some? && !AllowedFile(Uploaded(req).value.filename)
    ensures r.Err? && r.error.ExtractionFailed? <==>
      Uploaded(req).Some? && AllowedFile(Uploaded(req).value.filename) && Extraction(Uploaded(req).value).Err?
    ensures r.Err? && r.error.ExtractionFailed? ==> r.error.error == Extraction(Uploaded(req).value).error
    ensures r.Ok? ==>
      && NoControl(r.value.cleaned) && SpacesCollapsed(r.value.cleaned) && LinesTrimmed(r.value.cleaned) && Stripped(r.value.cleaned)
      && Stripped(r.value.preprocessed) && SingleSpaced(r.value.preprocessed) && PunctSpaced(r.value.preprocessed)
  {
    var up := Uploaded(req);
    if up.Some? && !AllowedFile(up.value.filename) then Err(InvalidFileType)
    else if up.Some? && Extraction(up.value).Err? then Err(ExtractionFailed(Extraction(up.value).error))
    else
      var extracted := if up.Some? then Extraction(up.value).value else "";
      var finalText := CombineText(req.textInput, extracted);
      if Strip(finalText) == "" then Err(NoText)
      else
        var cleaned := CleanText(finalText);
        var language := ResolveLanguage(req.language, cleaned, detector);
        var pre := PreprocessText(cleaned, language, cls);
        Ok(Prepared(cleaned, language, pre, SelectEngine(req.engine), req.quality,
                    DisplayText(cleaned), |Words(pre)|, |pre|))
  }

  /** The rejections: a file of the wrong type before anything is extracted, a failed
      extraction, and blank input exactly when nothing was typed and nothing but whitespace was
      extracted. */
  lemma {:induction false} ProcessRejects(req: Request, detector: string -> Option<string>, cls: CharClasses)
    ensures Uploaded(req).Some? && Uploaded(req).value.filename == "" ==>
      Process(req, detector, cls) == Err(InvalidFileType)
    ensures Process(req, detector, cls).Err? ==>
      (StatusOf(Process(req, detector, cls).error) == 500 <==>
         Uploaded(req).Some? && AllowedFile(Uploaded(req).value.filename) && Extraction(Uploaded(req).value).Err?)
    ensures Uploaded(req).Some? && !AllowedFile(Uploaded(req).value.filename) ==>
      Process(req, detector, cls) == Err(InvalidFileType)
    ensures Uploaded(req).Some? && AllowedFile(Uploaded(req).value.filename) && Extraction(Uploaded(req).value).Err? ==>
      Process(req, detector, cls) == Err(ExtractionFailed(Extraction(Uploaded(req).value).error))
    ensures Uploaded(req).None? ==>
      (Process(req, detector, cls) == Err(NoText) <==> Strip(req.textInput) == "")
    ensures Uploaded(req).Some? && AllowedFile(Uploaded(req).value.filename) && Extraction(Uploaded(req).value).Ok? ==>
      (Process(req, detector, cls) == Err(NoText) <==>
         Strip(req.textInput) == "" && AllSpace(Extraction(Uploaded(req).value).value))
  {
    var up := Uploaded(req);
    var extracted := if up.Some? && Extraction(up.value).Ok? then Extraction(up.value).value else "";
    CombineTextBlank(req.textInput, extracted);
  }

  /** An accepted request keeps its language choice or resolves `auto` to a supported code,
      and uses the handler for its engine name. */
  lemma {:induction false} ProcessAcceptsChoices(req: Request, detector: string -> Option<string>, cls: CharClasses)
    requires Process(req, detector, cls).Ok?
    ensures var p := Process(req, detector, cls).value;
      && (req.language != "auto" ==> p.language == req.language)
      && (req.language == "auto" ==> IsSupportedCode(p.language))
      && p.engine == HandlerFor(req.engine)
      && p.display == DisplayText(p.cleaned)
  {
  }
}
