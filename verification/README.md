# gemini-pdf-ai, modelled in Dafny

This project models the logic of the PDF question-answering chat in Dafny and proves properties about it.
The user uploads PDF files and asks a question.
The server extracts the text of the PDFs.
A crude bag-of-words check then decides whether the question concerns that text.
If it does, the server sends `question: text` to a generative model and reflows the model's markdown-ish answer.
The browser keeps a chat transcript with an optimistic user entry and one answer or error entry per submission.

The modules are:

- `Text` (`text.dfy`): JavaScript's `trim` and its whitespace and line-terminator classes.
- `Formatter` (`formatter.dfy`): `formatResponse`.
  - `text.split(/\*\*(.+?)\*\*/)` is modelled exactly as `String.prototype.split` runs a regular expression. Matches are tried left to right at each position. `.+?` is lazy, so the shortest capture wins. `.` matches no line terminator. The captured heading goes into the result between the pieces.
  - The `forEach` that builds `formattedResponse` is a method with a loop. It is proved against the specification function `Format`.
- `Relevance` (`relevance.dfy`): `isRelevant`. `commonWords.length / promptWords.length > 0.1` is modelled as `10 * common > total`.
- `ChatEndpoint` (`chat_endpoint.dfy`): the `POST /api/chat` route.
  - It covers the multer upload filter and the handler's loop with its early returns.
  - `PostChat` returns a `Trace` with three parts: the response, the files whose extraction was attempted, and the prompt sent to the model (if any).
  - PDF extraction is an `Extraction` outcome carried by each uploaded file. The model is a function from prompt to `ModelOutcome`.
- `ChatClient` (`chat_client.dfy`): the `App` component's state, as the class `ChatSession`.
  - `Submit` models `handleUploadFiles` up to the network call. `Complete` models what runs after the call settles, through the `finally` reset.
  - The network result is an `Outcome`. The markdown renderer `marked` is a function parameter.

Where the code and the design description disagree, the model follows the code:

- Temporary upload files are deleted only after a successful extraction (server/index.js:81-85). A failing file and every later file are not deleted. File storage is outside the model in either case.
- A file that the multer filter refuses never reaches the handler. The error goes to the framework's default error handler, not to a JSON 4xx response. The model records the refusal as `UploadRejected` and leaves the rendering alone.
- A question with no words gives `0 / 0`, which is NaN. The comparison with 0.1 is then false, so the question is not relevant.
- The combined text puts a line break after every file's text, the last one included.
- A missing `message` field makes `isRelevant` throw. The outer `catch` turns that into the generic 500 response.

## Model

| member | source | states |
|---|---|---|
| `Text.Trim` | server/index.js:35 | The result is the slice of the input that starts after the leading whitespace. It neither starts nor ends with whitespace, and only whitespace follows it in the input. Whitespace is the ECMAScript WhiteSpace and LineTerminator set. |
| `Formatter.LazyClose` | server/index.js:28 | `.+?` tries to close with `**` before it takes another character. When it finds a capture length, that is the shortest match length from `k` on. When it finds none, no length from `k` on matches. |
| `Formatter.MatchAt` | server/index.js:28 | If it returns a length, `\*\*(.+?)\*\*` matches at `q` with that capture length and no shorter capture matches. If it returns none, nothing matches at `q`. |
| `Formatter.SplitFrom` | server/index.js:28 | The split scan yields an odd number of pieces. Every odd-numbered piece is a captured heading: non-empty, with no line terminator. |
| `Formatter.Split` | server/index.js:28 | `text.split(regex)` alternates text pieces and captured headings, starting and ending with a text piece. |
| `Formatter.SplitRoundTrip` | server/index.js:28 | Splitting loses nothing: putting `**` back around every captured heading rebuilds the text exactly. |
| `Formatter.SplitLeftmostLazy` | server/index.js:28 | The split is leftmost and lazy at every piece. No match of the expression begins anywhere inside any text piece, at that piece's position in the text. Every captured heading is exactly the shortest match at the position of its opening `**`. |
| `Formatter.SplitWithoutMarkers` | server/index.js:28 | A text where the expression matches nowhere splits into the single piece `[text]`. |
| `Formatter.FirstLine` | server/index.js:37 | The heading line of a section is the prefix up to, and not including, its first `\n`. It contains no `\n`. |
| `Formatter.OtherLines` | server/index.js:37-39 | `contentParts.join('\n')` is what follows the first `\n`. Heading, `\n` and content rebuild the section. A section with no `\n` has empty content. |
| `Formatter.BlockLayout` | server/index.js:37-41 | `Block`, the text emitted for a later section, is a blank line and `**`, then the trimmed heading with no line break in it, then `**` and a line break, then the trimmed content. |
| `Formatter.AssembledLayout` | server/index.js:30-43 | `Assembled(sections, n)` is `formattedResponse` after the first `n` sections. It starts with the trimmed first section, and every later section adds a block of at least seven characters (the frame around heading and content). |
| `Formatter.ReplaceBullets` | server/index.js:44 | The global replace never shortens the text. The result's first character is the inserted `\n` when the text starts with `* `, and otherwise the text's own first character. |
| `Formatter.BulletsStartLines` | server/index.js:44 | After the replace, every `* ` in the output is immediately preceded by `\n`. |
| `Formatter.ReplaceBulletsRoundTrip` | server/index.js:44 | The replace inserts exactly one `\n` before every `* ` and keeps every other character. Deleting the `\n` at the start of every `\n* ` (the independent `Unbullet`) gives the text back, for every text. |
| `Formatter.Format` | server/index.js:26-47 | The whole of `formatResponse` as a function. In its result every `* ` starts a line, and undoing the bullet rewrite gives the assembled sections of the split. |
| `Formatter.ReplaceBulletsIdentity` | server/index.js:44 | The replace leaves a text unchanged if and only if the text contains no `* `. |
| `Formatter.CapturedHeadingBlock` | server/index.js:37-41 | A captured heading is emitted as `\n\n**` + trimmed heading + `**\n`, with empty content. |
| `Formatter.SectionOnNewLineHasEmptyHeading` | server/index.js:37-41 | A section that starts with `\n` is emitted as `\n\n****\n` + its trimmed remaining lines. This is the usual text after a `**Heading**` line, so that text gets an empty bold heading. |
| `Formatter.HeadingThenBodySplit` | server/index.js:28 | `**Summary**\nbody` splits into `""`, `Summary` and `\nbody`. The heading and its body land in different sections. |
| `Formatter.CleanTextIsOnlyTrimmed` | server/index.js:26-47 | A text with no `**x**` match and no `* ` is formatted to exactly its trimmed self. |
| `Formatter.AssembleSections` | server/index.js:30-43 | The `forEach` over the sections computes `Assemble(sections)`: the trimmed first section, then for each later section, in order, exactly the block `\n\n**heading**\ncontent` built from its first line and its other lines. |
| `Formatter.FormatResponse` | server/index.js:26-47 | The section loop followed by the replace computes `Format(text)`. That is the first section trimmed, then one `\n\n**heading**\ncontent` block per later section in order, then the bullet rewrite. In the result every `* ` starts a line. |
| `Relevance.ToLower` | server/index.js:57-58 | Lower-casing keeps the length and maps every character through the A-to-Z lower-casing. |
| `Relevance.Tokenize` | server/index.js:56-58 | Every token is a non-empty run of word characters. |
| `Relevance.TokenizeAtSeparator` | server/index.js:56-58 | A non-word character ends the words before it: tokenizing `a + [c] + b` gives the tokens of `a` followed by those of `b`. |
| `Relevance.TokenizeJoinWords` | server/index.js:56-58 | Tokenizing words joined by spaces gives back exactly those words, in order. |
| `Relevance.Vocabulary` | server/index.js:58-59 | The PDF word set holds only words, each without capital letters A to Z. |
| `Relevance.Common` | server/index.js:60 | The filter keeps every occurrence of a prompt word that is in the PDF's word set, with its multiplicity, and drops every other word. |
| `Relevance.IsRelevant` | server/index.js:55-63 | The decision is defined as `10 * common > total`, which is `common / total > 0.1` without division. The contract states that a relevant question has at least one word, so a question with no words (0 / 0, NaN in the source) is never relevant. |
| `Relevance.CommonMonotone` | server/index.js:59-60 | A larger word set finds at least as many prompt words. |
| `Relevance.VocabularyMonotone` | server/index.js:57-62 | The PDF text counts only through its word set. Enlarging that set can turn "not relevant" into "relevant" but never the reverse. |
| `Relevance.FullOverlapIsRelevant` | server/index.js:60-62 | A non-empty question whose words all occur in the PDF is relevant. |
| `Relevance.NoOverlapIsNotRelevant` | server/index.js:60-62 | A question none of whose words occur in the PDF is not relevant. |
| `Relevance.CaseInsensitive` | server/index.js:57-58 | Lower-casing either argument first does not change the decision. |
| `Relevance.VocabularyOfJoin` | server/index.js:58-59 | The word set of two texts joined by `\n` is the union of their word sets. |
| `ChatEndpoint.CheckUpload` | server/index.js:16-21 | A file passes the upload filter if and only if its declared type is exactly `application/pdf` and its size is at most 10×1024×1024 bytes. A wrong type is reported as the type error. |
| `ChatEndpoint.FirstRejection` | server/index.js:13-24 | A batch is refused if and only if one of its files is refused. The reported error is that of the first refused file in upload order. |
| `ChatEndpoint.FirstFailure` | server/index.js:75-89 | Returns the first file whose extraction fails: every earlier file was parsed. It returns none exactly when all files parse. |
| `ChatEndpoint.Combined` | server/index.js:69-79 | The combined text is empty exactly when there are no files. Otherwise it ends with a line break, and it has at least one character (the line break) per file. |
| `ChatEndpoint.CombinedAppend` | server/index.js:75-79 | The combined text keeps upload order: combining `a + b` gives the combined text of `a` followed by that of `b`. |
| `ChatEndpoint.MoreFilesKeepRelevance` | server/index.js:75-92 | Adding files to a batch can turn "not relevant" into "relevant" but never the reverse. |
| `ChatEndpoint.ExtractTexts` | server/index.js:69-90 | The loop stops at the first file whose extraction fails and reports its position. It has attempted exactly the files up to and including that one. When every file parses, the combined text is each file's text followed by `\n`, in upload order. |
| `ChatEndpoint.Answer` | server/index.js:92-108 | No message: generic 500 with no model call. Not relevant: `It isn't relevant` with no model call. Otherwise the prompt is `<message>: <combined text>`. The reply is then `Format(model text)`, or the generic 500 when the model fails. |
| `ChatEndpoint.PostChat` | server/index.js:65-110 | Upload refused: the handler never runs. No or empty file list: 400 `No files were uploaded.`, with no extraction and no model call. First failing extraction: 500 `Error processing file <name>`, with only the files up to it attempted. Missing message: generic 500. Not relevant: `It isn't relevant` with no model call. Otherwise the prompt is `<message>: <combined text>`, and the reply is `Format(model text)`, or the generic 500 when the model fails. |
| `ChatClient.ReplyEntry` | client/src/App.js:59-68 | A settled request yields one AI entry. On success its text is the rendered reply. On failure it is `An error occurred while processing the PDF.` |
| `ChatClient.ChatSession.constructor` | client/src/App.js:8-15 | The initial state has no files, an empty message, an empty transcript and all flags off. |
| `ChatClient.ChatSession.SelectFiles` | client/src/App.js:20-22 | Replaces the selection and changes nothing else. |
| `ChatClient.ChatSession.EditMessage` | client/src/App.js:24-26 | Replaces the message and changes nothing else. |
| `ChatClient.ChatSession.CloseNoPdfPopup` | client/src/App.js:98-100 | Hides the warning and changes nothing else. |
| `ChatClient.ChatSession.Submit` | client/src/App.js:28-48 | While loading, nothing changes and nothing is posted. With no files, the warning is shown and nothing else changes. Otherwise loading and typing are set, exactly one user entry with the message is appended, and the files and message are posted. |
| `ChatClient.ChatSession.Complete` | client/src/App.js:50-73 | Appends exactly one entry for the outcome to the current transcript. Loading and typing become false and the message becomes empty, whatever the outcome. |
| `ChatClient.ChatSession.Clear` | client/src/App.js:76-78 | Empties the transcript and changes nothing else, not even `loading`. |
| `ChatClient.ChatSession.KeyDown` | client/src/App.js:102-107 | Enter submits when not loading. Any other key, or Enter while loading, changes nothing. |
| `ChatClient.ChatSession.SendClick` | client/src/App.js:167-170 | The send button submits only when not loading. |
| `ChatClient.DoubleEnterPostsOnce` | client/src/App.js:102-107 | A second Enter while a submission is in flight posts nothing. The transcript ends as question then answer, and the input is cleared. |
| `ChatClient.ClearDuringRequest` | client/src/App.js:76-78 | Clearing during a request does not cancel it. The answer still arrives and is then the only entry. |
| `ChatClient.NoFilesShowsWarning` | client/src/App.js:31-34 | Submitting with no selection posts nothing, shows the warning and leaves the transcript empty. |

## Left out

- PDF extraction (pdf-parse and the file read) is abstracted: each file carries its extraction outcome. The generative-model client is a function from prompt to outcome, and its `maxTokens` option is dropped.
- The framework is left out: Express, multer's storage, cors and body parsing. The deletion of temporary files is left out too; it only happens after a successful extraction.
- Error rendering: the status and page that the framework's default error handler produces for a refused upload are not modelled.
- Relevance.Tokenize: the `natural` library's word tokenizer is not part of this model. It is approximated by maximal runs of ASCII letters and digits.
- Relevance.ToLower: only A to Z are lower-cased. JavaScript's full Unicode lower-casing is left out.
- Relevance.IsRelevant: floating-point division is replaced by `10 * common > total`. This agrees with the double-precision comparison for every count below about 10^15.
- Strings are sequences of Unicode scalar values, not UTF-16 code units. This changes no boundary of the formatter's matches. The length cap of `split` (2^32 − 1 pieces) is left out.
- Request body fields other than a string or an absent `message` are not modelled.
- ChatClient.ChatSession.Complete requires a submission in flight. A settled request only exists after a `Submit`.
- React is left out: batching, and closures that read a `loading` value from before the re-render. Events are modelled as a sequence.
- Rendering is left out: the splash screen (client/src/SplashScreen.js), the file modal (`openModal`, `closeModal`, `triggerFileInputClick`), the auto-scroll effect and the HTML injection.
- server/models/Conversation.js is not part of this model; the request flow never uses it.
