/**
 * The server's `POST /api/chat` route: the upload filter (PDF type, 10 MiB per file), then the
 * handler, which extracts each file's text in upload order, applies the relevance filter and
 * asks the generative model, and answers with exactly one response.
 *
 * PDF extraction and the model are outside the model: each uploaded file carries the outcome of
 * its extraction, and the model is a function from prompt to outcome.
 */
module ChatEndpoint {
  import opened Wrappers
  import Formatter
  import Relevance

  /** What the PDF parser makes of one stored upload. */
  datatype Extraction = Parsed(text: string) | ParseFailed

  /** One file part of the multipart body: its client-side name, declared type and size. */
  datatype UploadedFile = UploadedFile(originalName: string, mimeType: string, size: nat, extraction: Extraction)

  /** Why the upload middleware refuses a request before the handler runs. */
  datatype UploadError = NotPdf | FileTooLarge

  /** What the generative model makes of a prompt. */
  datatype ModelOutcome = Generated(text: string) | ModelFailed

  datatype Body = Reply(reply: string) | Error(error: string)

  /** A JSON response with its status, or the upload middleware's error, which the framework's
      default error handler renders. */
  datatype Response = Json(status: nat, body: Body) | UploadRejected(reason: UploadError)

  /** One request's observable behaviour: the response, the names of the files whose extraction
      was attempted (in order), and the prompt sent to the model, if any. */
  datatype Trace = Trace(response: Response, extracted: seq<string>, prompt: Option<string>)

  const PdfMimeType := "application/pdf"
  const MaxFileSize := 10 * 1024 * 1024
  const NoFilesError := "No files were uploaded."
  const FileErrorPrefix := "Error processing file "
  const GenericError := "An error occurred while processing the request."
  const NotRelevantReply := "It isn't relevant"

  // ---------------------------------------------------------------------------------------
  // The upload filter
  // ---------------------------------------------------------------------------------------

  /** The upload middleware's verdict on one file: the type filter first, then the size limit. */
  function CheckUpload(file: UploadedFile): (r: Option<UploadError>)
    ensures r.None? <==> file.mimeType == PdfMimeType && file.size <= MaxFileSize
    ensures r == Some(NotPdf) <==> file.mimeType != PdfMimeType
  {
    if file.mimeType != PdfMimeType then Some(NotPdf)
    else if file.size > MaxFileSize then Some(FileTooLarge)
    else None
  }

  /** The verdict on the first file, in upload order, that the middleware refuses. */
  function FirstRejection(files: seq<UploadedFile>): (r: Option<UploadError>)
    ensures r.None? <==> forall i :: 0 <= i < |files| ==> CheckUpload(files[i]).None?
    ensures r.Some? ==>
      exists i :: 0 <= i < |files| && CheckUpload(files[i]) == r && forall j :: 0 <= j < i ==> CheckUpload(files[j]).None?
  {
    if files == [] then None
    else if CheckUpload(files[0]).Some? then CheckUpload(files[0])
    else
      var r := FirstRejection(files[1..]);
      assert forall i :: 1 <= i < |files| ==> files[i] == files[1..][i - 1];
      r
  }

  // ---------------------------------------------------------------------------------------
  // Extraction
  // ---------------------------------------------------------------------------------------

  /** The position of the first file whose extraction fails. */
  function FirstFailure(files: seq<UploadedFile>): (r: Option<nat>)
    ensures r.Some? ==> r.value < |files| && files[r.value].extraction.ParseFailed?
    ensures r.Some? ==> forall j :: 0 <= j < r.value ==> files[j].extraction.Parsed?
    ensures r.None? <==> forall j :: 0 <= j < |files| ==> files[j].extraction.Parsed?
  {
    if files == [] then None
    else if files[0].extraction.ParseFailed? then Some(0)
    else
      match FirstFailure(files[1..])
      case None => None
      case Some(k) => Some(k + 1)
  }

  /** A failing file after a run of parsed ones is the first failure. */
  lemma FirstFailureAt(files: seq<UploadedFile>, i: nat)
    requires i < |files| && files[i].extraction.ParseFailed?
    requires forall j :: 0 <= j < i ==> files[j].extraction.Parsed?
    ensures FirstFailure(files) == Some(i)
  {
  }

  predicate AllParsed(files: seq<UploadedFile>) {
    forall j :: 0 <= j < |files| ==> files[j].extraction.Parsed?
  }

  /** `combinedText`: every file's text followed by a line break, in upload order. */
  function Combined(files: seq<UploadedFile>): (r: string)
    requires AllParsed(files)
    ensures r == [] <==> files == []
    ensures files != [] ==> r[|r| - 1] == '\n'
    ensures |r| >= |files|
  {
    if files == [] then ""
    else Combined(files[..|files| - 1]) + files[|files| - 1].extraction.text + "\n"
  }

  function Names(files: seq<UploadedFile>): (names: seq<string>)
    ensures |names| == |files| && forall i :: 0 <= i < |files| ==> names[i] == files[i].originalName
  {
    seq(|files|, i requires 0 <= i < |files| => files[i].originalName)
  }

  /** The texts keep their upload order: combining two batches is combining each. */
  lemma {:induction false} CombinedAppend(a: seq<UploadedFile>, b: seq<UploadedFile>)
    requires AllParsed(a + b)
    ensures AllParsed(a) && AllParsed(b)
    ensures Combined(a + b) == Combined(a) + Combined(b)
    decreases |b|
  {
    var ab := a + b;
    forall j | 0 <= j < |a| ensures a[j].extraction.Parsed? {
      assert a[j] == ab[j];
    }
    forall j | 0 <= j < |b| ensures b[j].extraction.Parsed? {
      assert b[j] == ab[|a| + j];
    }
    if b == [] {
      assert ab == a;
    } else {
      var init, last := b[..|b| - 1], b[|b| - 1];
      assert ab[..|ab| - 1] == a + init;
      assert ab[|ab| - 1] == last;
      CombinedAppend(a, init);
      calc {
        Combined(ab);
        Combined(a + init) + last.extraction.text + "\n";
        Combined(a) + Combined(init) + last.extraction.text + "\n";
        Combined(a) + (Combined(init) + last.extraction.text + "\n");
        Combined(a) + Combined(b);
      }
    }
  }

  /** Uploading more files can only turn "not relevant" into "relevant". */
  lemma MoreFilesKeepRelevance(message: string, a: seq<UploadedFile>, b: seq<UploadedFile>)
    requires AllParsed(a + b)
    ensures AllParsed(a)
    ensures Relevance.IsRelevant(message, Combined(a)) ==> Relevance.IsRelevant(message, Combined(a + b))
  {
    CombinedAppend(a, b);
    if a != [] {
      var front := Combined(a[..|a| - 1]) + a[|a| - 1].extraction.text;
      assert Combined(a) == front + "\n" + "";
      assert Combined(a + b) == front + "\n" + Combined(b);
      Relevance.VocabularyOfJoin(front, "");
      Relevance.VocabularyOfJoin(front, Combined(b));
    } else {
      assert Relevance.Vocabulary("") == {};
    }
    Relevance.VocabularyMonotone(message, Combined(a), Combined(a + b));
  }

  // ---------------------------------------------------------------------------------------
  // The route
  // ---------------------------------------------------------------------------------------

  /** The handler's extraction loop: each file's text in upload order, stopping at the first
      file the parser cannot read. `failed` is that file's position; `extracted` names every file
      whose extraction was attempted. */
  method ExtractTexts(uploaded: seq<UploadedFile>) returns (failed: Option<nat>, combinedText: string, extracted: seq<string>)
    ensures failed == FirstFailure(uploaded)
    ensures failed.Some? ==> extracted == Names(uploaded[..failed.value + 1])
    ensures failed.None? ==> AllParsed(uploaded) && combinedText == Combined(uploaded) && extracted == Names(uploaded)
  {
    combinedText, extracted := "", [];
    for i := 0 to |uploaded|
      invariant AllParsed(uploaded[..i])
      invariant combinedText == Combined(uploaded[..i])
      invariant extracted == Names(uploaded[..i])
    {
      var file := uploaded[i];
      extracted := extracted + [file.originalName];
      assert uploaded[..i + 1][..i] == uploaded[..i];
      assert extracted == Names(uploaded[..i + 1]);
      match file.extraction
      case ParseFailed =>
        assert forall j :: 0 <= j < i ==> uploaded[j] == uploaded[..i][j];
        FirstFailureAt(uploaded, i);
        return Some(i), combinedText, extracted;
      case Parsed(text) =>
        combinedText := combinedText + text + "\n";
    }
    assert uploaded[..|uploaded|] == uploaded;
    failed := None;
  }

  /** The handler after extraction: no message is the generic error; a question that is not
      relevant gets the fixed reply without a model call; otherwise the prompt is the question,
      ": " and the combined text, and the model's answer is formatted. */
  method Answer(message: Option<string>, combinedText: string, generate: string -> ModelOutcome)
    returns (response: Response, prompt: Option<string>)
    ensures message.None? ==> response == Json(500, Error(GenericError)) && prompt == None
    ensures message.Some? && !Relevance.IsRelevant(message.value, combinedText) ==>
      response == Json(200, Reply(NotRelevantReply)) && prompt == None
    ensures message.Some? && Relevance.IsRelevant(message.value, combinedText) ==>
      prompt == Some(message.value + ": " + combinedText)
      && match generate(prompt.value)
         case Generated(text) => response == Json(200, Reply(Formatter.Format(text)))
         case ModelFailed => response == Json(500, Error(GenericError))
  {
    if message.None? {
      // `isRelevant` lower-cases an undefined message and throws
      return Json(500, Error(GenericError)), None;
    }
    var userMessage := message.value;
    if !Relevance.IsRelevant(userMessage, combinedText) {
      return Json(200, Reply(NotRelevantReply)), None;
    }
    var fullPrompt := userMessage + ": " + combinedText;
    prompt := Some(fullPrompt);
    match generate(fullPrompt)
    case ModelFailed =>
      response := Json(500, Error(GenericError));
    case Generated(text) =>
      var formattedText := Formatter.FormatResponse(text);
      response := Json(200, Reply(formattedText));
  }

  /** `POST /api/chat`: `files` is `req.files` (absent or a list), `message` is
      `req.body.message` (absent or a string), `generate` is the model. */
  method PostChat(files: Option<seq<UploadedFile>>, message: Option<string>, generate: string -> ModelOutcome)
    returns (t: Trace)
    // the upload middleware refuses the request; the handler never runs
    ensures files.Some? && FirstRejection(files.value).Some? ==>
      t == Trace(UploadRejected(FirstRejection(files.value).value), [], None)
    // no files: 400, nothing extracted, no model call
    ensures files.None? || files.value == [] ==>
      t == Trace(Json(400, Error(NoFilesError)), [], None)
    // the first failing extraction ends the request; later files are not touched
    ensures files.Some? && FirstRejection(files.value).None? && FirstFailure(files.value).Some? ==>
      var k := FirstFailure(files.value).value;
      t == Trace(Json(500, Error(FileErrorPrefix + files.value[k].originalName)), Names(files.value[..k + 1]), None)
    // every file extracted: relevance filter, then the model
    ensures files.Some? && files.value != [] && FirstRejection(files.value).None? && FirstFailure(files.value).None? ==>
      var combinedText := Combined(files.value);
      t.extracted == Names(files.value) &&
      match message
      case None => t.response == Json(500, Error(GenericError)) && t.prompt == None
      case Some(m) =>
        if !Relevance.IsRelevant(m, combinedText) then
          t.response == Json(200, Reply(NotRelevantReply)) && t.prompt == None
        else
          var prompt := m + ": " + combinedText;
          t.prompt == Some(prompt) &&
          match generate(prompt)
          case Generated(text) => t.response == Json(200, Reply(Formatter.Format(text)))
          case ModelFailed => t.response == Json(500, Error(GenericError))
  {
    if files.Some? {
      var rejection := FirstRejection(files.value);
      if rejection.Some? {
        return Trace(UploadRejected(rejection.value), [], None);
      }
    }
    if files.None? || |files.value| == 0 {
      return Trace(Json(400, Error(NoFilesError)), [], None);
    }
    var uploaded := files.value;
    var failed, combinedText, extracted := ExtractTexts(uploaded);
    if failed.Some? {
      return Trace(Json(500, Error(FileErrorPrefix + uploaded[failed.value].originalName)), extracted, None);
    }
    var response, prompt := Answer(message, combinedText, generate);
    t := Trace(response, extracted, prompt);
  }
}
