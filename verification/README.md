# AI resume analyzer: a Dafny model of the wizard and the analysis endpoint

The application takes a resume file and a job description and returns an analysis: a match
score, a suitability assessment, skill gaps, recommendations, and an "optimized" resume as HTML.
It has two halves, and this project models both.

- **The browser client** (`src/static/script.js`) is a three-panel wizard.
  - It validates the uploaded file and tracks progress markers.
  - It enables the analyze button once a file is stored and the trimmed description is 50
    UTF-16 units long (the browser's string length; an astral character counts twice).
  - It sends both to the server. If the request fails, it falls back to a fixed demo result.
  - It renders the result sections as HTML strings and raises one notification at a time.
- **The server endpoint** (`src/routes/analysis.py`) runs an ordered chain of validation checks.
  - Each failing check gives a 400 with its message.
  - Otherwise it extracts the resume text by extension and asks the AI service for an analysis.
    It takes the greedy span from the reply's first `{` to its last `}` as JSON, and the
    outcome is one of four. A span that decodes is passed through as is. A span that raises
    `JSONDecodeError` gives a fixed fallback record. A keyword-matching demo record is built in
    the other cases: the AI call fails, there is no span (no `{` before a `}`), or `json.loads`
    raises any other exception.

The modules follow that structure:

| file | module | what it holds |
|---|---|---|
| `wrappers.dfy` | `Wrappers` | `Option`, and `Result` with a string error (a Python exception's text) |
| `text.dfy` | `Text` | JavaScript `trim` and Python `strip` (different whitespace sets), ASCII `lower`, substring search, `split`/`join`, decimal rendering |
| `results.dfy` | `Results` | the analysis record; every field may be absent |
| `notifications.dfy` | `Notifications` | the notification tray, icons and colours |
| `render.dfy` | `Render` | the result formatters, the displayed score and the client's demo result |
| `wizard.dfy` | `Wizard` | the session state, every event handler, and the session invariant over any run of events |
| `server.dfy` | `Server` | `allowed_file`, extraction dispatch, AI-reply parsing, the fallback and demo records, and the validation chain |
| `handoff.dfy` | `Handoff` | what the client's trimmed description means to the server's strip-based check |

`activateStep(n)` clears every progress marker before marking 1..n, so the markers are not
additive: typing a description (which marks 1 and 2) and then uploading a file leaves only
marker 1 active (`Wizard.UploadAfterTypingShrinksMarkers`).

Both demo results are named rather than spelled out where they are shown. The client's result
view records `DemoView`, which `Render.Screen` draws from the fixed demo result. The server's
payload `Demo(resume, job)` stands for the record `Server.MockAnalysisResult(resume, job)`.

## Model

| member | source | states |
|---|---|---|
| Wizard.AnalyzeEnabled | src/static/script.js:192-196 | an enabled button implies a stored file and a raw description of at least 25 characters, since JavaScript's length counts an astral character as two units and trimming never lengthens |
| Wizard.EnabledOnBmp | src/static/script.js:192-196 | for a description inside the Basic Multilingual Plane, the button is enabled iff a file is stored and the trimmed description has at least 50 characters |
| Wizard.StartGuard | src/static/script.js:207-210 | the guard holds iff a file is stored and the description holds some character that is not JavaScript whitespace |
| Wizard.EnabledPassesGuard | src/static/script.js:192-210 | whenever the analyze button is enabled, startAnalysis's guard passes; the guard alone is strictly weaker (a one-character description passes it but does not enable the button) |
| Wizard.Initial | src/static/script.js:25-50 | after page load nothing is stored, panel 0 is shown, and the button is disabled |
| Wizard.InitialValid | src/static/script.js:25-27 | the page-load state satisfies the session invariant |
| Wizard.ActivateStep | src/static/script.js:165-176 | marker i is active exactly when it exists on the page and 1 <= i <= n |
| Wizard.UploadAfterTypingShrinksMarkers | src/static/script.js:165-176 | typing marks markers {1,2}; an upload afterwards leaves only {1} active |
| Wizard.CheckUpload | src/static/script.js:119-137 | the three verdicts, each as an if-and-only-if: wrong MIME type, too large (only for an allowed type), accepted |
| Wizard.UploadFile | src/static/script.js:119-152 | a rejected file changes only the tray, with the type or size message; an accepted file is stored, marks marker 1, recomputes the button and shows a success message, and nothing else changes |
| Wizard.ReceiveFiles | src/static/script.js:102-117 | drop and select consider only the first file; with no file nothing changes |
| Wizard.UploadBoundaries | src/static/script.js:128-137 | exactly 10 MiB is accepted and one byte more is refused; a wrongly typed file gets the type message whatever its size |
| Wizard.RemoveFile | src/static/script.js:154-162 | removing the resume forgets the file and disables the button; any other kind changes nothing |
| Wizard.InputDescription | src/static/script.js:63-67 | typing stores the text, sets the button from the new text, activates markers 1..2, and nothing else changes |
| Wizard.ClearDescription | src/static/script.js:185-189 | clearing empties the description and disables the button |
| Wizard.ShowStepView | src/static/script.js:811-820 | after showStep(k) exactly one panel is visible (panel k); indicator k, when present, is the only active one; the indicators before an active one are completed and those after it are neither active nor completed; none is both |
| Wizard.ShowStep | src/static/script.js:811-820 | after showStep(k) panel k is the only visible panel, and nothing else in the session changes |
| Wizard.NextFromUpload | src/static/script.js:29-35 | moves to panel 1 iff a file is stored, otherwise only raises the no-file notification |
| Wizard.NextFromDescription | src/static/script.js:39-45 | moves to panel 2 iff the trimmed description's JavaScript length is at least 50, otherwise only raises the short-description notification |
| Wizard.BackToUpload | src/static/script.js:36-38 | going back from panel 1 always lands on panel 0 and changes nothing else |
| Wizard.BackToDescription | src/static/script.js:46-48 | going back from panel 2 always lands on panel 1 and changes nothing else |
| Wizard.DescriptionBoundary | src/static/script.js:39-45 | a 49-character description of the Basic Multilingual Plane without surrounding whitespace does not advance; 50 characters do |
| Wizard.StartAnalysis | src/static/script.js:206-248 | without the guard only an error notification. Otherwise the wizard container is hidden; a successful request stores and shows its result; a failed one shows the demo result and keeps the stored result unchanged |
| Wizard.Download | src/static/script.js:505-542 | nothing is saved iff there is no stored result with a non-empty resume; otherwise the saved document embeds exactly that resume; the matching notification either way |
| Wizard.DownloadAfterFallback | src/static/script.js:242-247 | after a failed request on a fresh session the demo result is on screen, yet downloading saves nothing and reports an error |
| Wizard.ShareText | src/static/script.js:577-591 | the shared text carries any non-zero stored score in decimal, negative ones with their sign, or "high" when there is no score or it is 0 |
| Wizard.ShareTextCarriesScore | src/static/script.js:581 | a positive score is read back exactly from the shared text, between its fixed head and tail |
| Wizard.StartNewAnalysis | src/static/script.js:548-575 | file, result and description are forgotten, and the panel and tray are unchanged. With a step1 marker: only marker 1 is active, the view is hidden and the button is disabled. Without it: the handler stops after clearing the markers. Either way the wizard container keeps its visibility |
| Wizard.WizardStaysHidden | src/static/script.js:548-575 | once the wizard container is hidden, no sequence of events shows it again, start new analysis included |
| Wizard.AnalysisHidesWizardForGood | src/static/script.js:212-213 | after an analysis starts, the wizard panels stay hidden whatever events follow |
| Wizard.ApplyPreservesValid | src/static/script.js:192-196 | every event keeps the invariant: the button reflects the file and description, active markers exist, and notification ids are unique |
| Wizard.RunPreservesValid | src/static/script.js:192-196 | after any sequence of events the button is enabled exactly when a file is stored and the trimmed description is at least 50 UTF-16 units long |
| Notifications.Show | src/static/script.js:594-639 | the tray afterwards holds exactly the new notification, with its message and kind; its id is the next unused one, so it differs from every id handed out earlier |
| Notifications.StaleDismissKeepsNewest | src/static/script.js:633-638 | the timer or close button of any earlier notification, firing after a new one is shown, leaves the new one in place |
| Notifications.Dismiss | src/static/script.js:633-638 | closing removes exactly the notifications with that id |
| Notifications.DismissPreservesWellFormed | src/static/script.js:607 | closing a notification keeps ids unique and below the next id |
| Notifications.ShowTwiceKeepsSecond | src/static/script.js:595-597 | a second notification replaces the first |
| Notifications.ShowAllLeavesLast | src/static/script.js:595-597 | after a run of notifications only the last one is on the page |
| Notifications.Icon | src/static/script.js:641-649 | a known kind gets its own icon; any other kind gets the info icon |
| Notifications.Color | src/static/script.js:651-659 | a known kind gets its own colour; any other kind gets the info colour |
| Notifications.KindStyles | src/static/script.js:641-659 | distinct known kinds differ in both icon and colour; unknown kinds look like info |
| Render.AppendEach | src/static/script.js:363-365 | appending each piece in a loop gives the prefix followed by the pieces in order |
| Render.ListSection | src/static/script.js:359-367 | an absent or empty list renders nothing; otherwise the opening, one bullet per entry in order, and the closing |
| Render.FormatSuitability | src/static/script.js:351-380 | no suitability gives the not-available paragraph; otherwise the overall block followed by the strengths and concerns sections |
| Render.SuitabilityPlaceholder | src/static/script.js:351-357 | the not-available paragraph appears iff the suitability is missing; otherwise the rendering starts with the overall block |
| Render.FormatSkillGaps | src/static/script.js:382-384 | missing skill gaps give the not-available paragraph |
| Render.SkillGapsPlaceholders | src/static/script.js:382-408 | not-available iff missing; "no gaps" iff present with both lists empty; otherwise the missing and weak sections |
| Render.AppendRecs | src/static/script.js:416-421 | the loop appends the numbered items from the current index onward |
| Render.FormatRecommendations | src/static/script.js:410-425 | an absent or empty list gives the placeholder; otherwise the list wrapper around one numbered item per recommendation |
| Render.RecommendationsShape | src/static/script.js:410-425 | the placeholder appears iff there are no recommendations; otherwise the rendered list opens with the first recommendation numbered 1 and closes with the last one numbered with the count |
| Render.FormatResumePreview | src/static/script.js:427-441 | a missing or empty resume gives the failure paragraph; otherwise the fixed header followed by the resume |
| Render.PreviewRoundTrip | src/static/script.js:427-441 | the embedded resume is recovered exactly from the preview, and no resume is recovered from the failure paragraph |
| Render.DisplayedScore | src/static/script.js:275 | the shown score is never 0; a missing or zero score shows as 75 |
| Render.DisplayResultsShape | src/static/script.js:270-291 | each section shows its placeholder exactly when the result lacks it; the score is never 0 and shows a non-zero stored score; the preview gives back the stored resume |
| Render.MockDisplayScore | src/static/script.js:294-332 | the client's demo view shows the score 78 |
| Render.MockDisplay | src/static/script.js:294-332 | the client's demo view lists its five fixed recommendations, numbered 1 to 5 |
| Server.Extension | src/routes/analysis.py:22 | none iff the name has no dot; otherwise a dot-free suffix, with the name equal to stem + "." + suffix |
| Server.ExtensionUnique | src/routes/analysis.py:22 | any split at a dot with a dot-free suffix is the extension (the split is at the last dot) |
| Server.AllowedFile | src/routes/analysis.py:21-22 | allowed_file: the lower-cased text after the last dot is pdf, doc, docx or txt (characterized by Server.AllowedFileSpec) |
| Server.AllowedFileSpec | src/routes/analysis.py:19-22 | a name is allowed iff it splits into a stem and a dot-free extension whose ASCII lower case is pdf, doc, docx or txt |
| Server.AllowedFileExamples | src/routes/analysis.py:19-22 | "resume.PDF" and "cv.final.Docx" are allowed |
| Server.DisallowedFileExamples | src/routes/analysis.py:19-22 | "pdf" and "resume.pdf.exe" are not allowed |
| Server.Wrapped | src/routes/analysis.py:38-39 | a reader's success passes through unchanged; a failure is prefixed with "Error extracting text from <ext> file: " |
| Server.ExtractText | src/routes/analysis.py:24-39 | no dot in the secured name gives the unwrapped IndexError; pdf, doc/docx and txt go to their readers; any other extension fails as unsupported |
| Server.AllowedNamesHaveReaders | src/routes/analysis.py:24-37 | when secure_filename keeps the extension, an allowed name's lower-cased extension picks the PDF, DOCX or UTF-8 reader, and extraction fails exactly when that reader fails |
| Server.JsonCandidate | src/routes/analysis.py:176 | a candidate is the span from the first '{' to the last '}', when that '}' comes after the '{' |
| Server.JsonCandidateNone | src/routes/analysis.py:176-182 | there is no candidate iff no '{' comes before a '}' |
| Server.ParseAiResponse | src/routes/analysis.py:172-184 | no candidate iff the parse reports no JSON; decoded iff json.loads returns, with that value; the fallback record (score 75) iff json.loads raises JSONDecodeError; an uncaught exception iff it raises anything else |
| Server.FallbackEmbedsPrefix | src/routes/analysis.py:221 | the fallback resume embeds exactly the first min(1000, length) characters of the reply, read back out of the HTML |
| Server.FallbackResponse | src/routes/analysis.py:186-222 | the fallback record scores 75 and its resume is the raw-reply HTML |
| Server.Matching | src/routes/analysis.py:284 | a keyword is found iff it is in the list and occurs in both texts; no longer than the list |
| Server.MatchingFilters | src/routes/analysis.py:284 | the found list is the list's entries at strictly increasing positions, and those positions are exactly the ones whose keyword occurs in both texts |
| Server.MatchingDistinct | src/routes/analysis.py:284 | a keyword list without repetitions gives a found list without repetitions |
| Server.MatchingNone | src/routes/analysis.py:284 | no keyword occurring in the resume means nothing is found |
| Server.FoundKeywords | src/routes/analysis.py:279-284 | the found keywords are exactly the eight technology keywords occurring in both lower-cased texts |
| Server.FoundKeywordsInOrder | src/routes/analysis.py:283-284 | found_keywords lists the shared keywords in the order of tech_keywords, each once |
| Server.MockScore | src/routes/analysis.py:287 | the score lies in [60, 95]: 60 for no match, 10n+50 for 1 to 4 matches, 95 from 5 on |
| Server.NoSharedKeywordScores60 | src/routes/analysis.py:279-356 | a resume without any keyword scores 60 and its summary falls back to "software development" |
| Server.FirstName | src/routes/analysis.py:336-339 | the extracted name contains no '@' and is shorter than 50 characters |
| Server.FirstNameDefault | src/routes/analysis.py:331-339 | with no qualifying line the name is "Professional Candidate" |
| Server.FirstNameIsFirst | src/routes/analysis.py:336-339 | the name is the stripped first qualifying line |
| Server.ExtractName | src/routes/analysis.py:330-339 | the extracted name contains no '@' and is shorter than 50 characters |
| Server.ExtractNameIsFirst | src/routes/analysis.py:330-339 | the name is the stripped first qualifying line among the first five lines of the resume |
| Server.FirstEmail | src/routes/analysis.py:342-345 | the extracted e-mail contains both '@' and '.' |
| Server.FirstEmailDefault | src/routes/analysis.py:332-345 | with no qualifying line the e-mail is "candidate@email.com" |
| Server.FirstEmailIsFirst | src/routes/analysis.py:342-345 | the e-mail is the stripped first line holding both '@' and '.' |
| Server.ExtractEmail | src/routes/analysis.py:330-345 | the extracted e-mail contains both '@' and '.' |
| Server.DemoResumeFields | src/routes/analysis.py:326-356 | the demo resume carries the extracted name and e-mail and the fixed phone; its summary lists the first three found keywords, or "software development" |
| Server.MockAnalysisResult | src/routes/analysis.py:275-324 | the demo record's score is the keyword score of the found keywords, hence in [60, 95] |
| Server.FirstFailing | src/routes/analysis.py:224-255 | none iff no check fails; otherwise the index of a failing check with no failing check before it |
| Server.SuccessPayload | src/routes/analysis.py:258-269 | the AI's JSON iff the reply holds a candidate that decodes; the fallback record on JSONDecodeError; the demo record when the call fails, there is no candidate, or json.loads raises anything else |
| Server.AnalyzeResume | src/routes/analysis.py:224-269 | a 400 iff some check fails; a 200 only with a file, a job description and a successful extraction, and its body is the success payload for them |
| Server.AnalyzeResumeRefusals | src/routes/analysis.py:228-255 | the response is a 400 iff the handler's chain of early returns refuses (no resume field, no job field, empty name, disallowed name, short description, extraction error, short resume, in that order), with that step's message |
| Server.RefusalOfIsFirstFailing | src/routes/analysis.py:228-255 | for any combination of the facts the checks look at, the checks evaluated up front fail iff the chain of early returns stops, and the first failing one carries the reason of the step where it stops |
| Server.RefusalIsFirstFailing | src/routes/analysis.py:228-255 | the check list's first failing check is the step at which the chain of early returns stops, with the same message |
| Server.AnalyzeReportsFirstFailure | src/routes/analysis.py:228-255 | a 400 carries the message of the first failing check |
| Server.ServerScores | src/routes/analysis.py:258-269 | every record the server builds scores in [60, 95], the fallback record and the demo record alike; the AI's JSON passes through only when the reply decoded |
| Server.JobDescriptionBoundary | src/routes/analysis.py:246-247 | when the file checks pass, a description stripping to 49 characters fails first at the length check, and 50 characters pass it |
| Handoff.PyOnlyWhitespaceIsDifference | src/routes/analysis.py:246 | Python's strip removes exactly U+001C..U+001F and U+0085 beyond what JavaScript's trim removes |
| Handoff.SentDescriptionPassesServer | src/static/script.js:224 | for a description inside the Basic Multilingual Plane: when the button is enabled and the sent description neither starts nor ends with one of those five characters, the server's strip leaves it unchanged and it passes the length check |
| Handoff.AstralDescriptionRefused | src/routes/analysis.py:246-247 | with a file stored, 25 × U+1F600 has a JavaScript length of 50, so it enables the button and is sent unchanged, yet Python's len counts 25 and the server refuses it |
| Handoff.SeparatorPrefixRefused | src/routes/analysis.py:246-247 | with a file stored, U+001C followed by 49 letters enables the client's button and is sent unchanged, yet the server strips it to 49 characters, below its limit |
| Text.ContainsCorrect | src/routes/analysis.py:284 | substring search succeeds iff the keyword occurs at some position |
| Text.JoinSplit | src/routes/analysis.py:330 | joining the lines of a split with the separator gives back the text |
| Text.SplitJoin | src/routes/analysis.py:330 | splitting a join of separator-free lines gives the lines back |
| Text.Trim | src/static/script.js:194 | JavaScript's trim: the result is the input with its maximal leading and trailing JavaScript whitespace cut away |
| Text.Strip | src/routes/analysis.py:246 | Python's strip: the result is the input with its maximal leading and trailing Python whitespace cut away |
| Text.Lower | src/routes/analysis.py:279-280 | lower: same length, exactly the ASCII capitals change, and each becomes its own lower-case letter |
| Text.Utf16Length | src/static/script.js:194 | JavaScript's length: between the character count and twice it; equal to the count inside the Basic Multilingual Plane and to twice it for astral-only text |
| Text.ParseNatToString | src/static/script.js:581 | reading a rendered number back gives the number |

## Left out

- The DOM, CSS and scrolling are left out. The page is reduced to the session fields that the
  handlers read and write: the stored file, the description, the panel, the stored result, the
  markers, the button, the tray, the result view and whether the wizard container is shown.
  The loading container and `.analyzer-container`, which startNewAnalysis shows, are left out.
  No modelled handler hides `.analyzer-container`. Of the lookups startNewAnalysis makes, only
  a missing `step1` element is modelled as a failure; a missing `.analyzer-container` or
  `#analyzer` element, which would throw just the same, is not.
- The 5-second auto-dismiss timer and the close button are both modelled as `Close(id)`. No
  clock is modelled.
- The loading and score-counting animations (`animateLoadingSteps`, `animateMatchScore`) are
  left out. Only the final score value is modelled.
- `updateCharacterCount`, the navigation-link scroll handlers and the upload area's
  drag-over styling are left out because they only touch presentation.
- `fetch` is a parameter, `FetchOutcome`. Any network error, non-2xx status or undecodable body
  is `FetchFailed`.
- A successful response whose rendering throws part-way is left out. The stored result is set
  before rendering, so the source would store a malformed result and then show the demo. The
  model's result record is always well typed.
- `navigator.share` and the clipboard are left out. `Wizard.ShareText` models only the text
  offered.
- `Wizard.ShareText` renders integer scores only. A fractional JSON score is not modelled.
- Wizard.ActivateStep: one set `markers` stands both for the `.analyzer-step` elements that
  activateStep and startNewAnalysis clear and for the elements with id `step<n>` that they mark.
  An element with such an id but without the class would keep "active" across a clear in the
  browser; the model assumes every `step<n>` element carries the class.
- `Wizard.EditResume` has no contract. It only raises the "coming soon" notification.
- The keys of `getNotificationIcon` and `getNotificationColor` are looked up on a plain object
  in the source. So `Icon("constructor")` in the browser yields an inherited property rather
  than the info icon. The model treats every unknown kind as info.
- `Render.MockDisplay` states the demo view's recommendations and `Render.MockDisplayScore` its
  score; nothing states the demo view's other sections. The client's demo
  resume HTML (`generateMockResume`) is kept only as its opening section, because the full
  template adds nothing that a contract states.
- Handoff.SentDescriptionPassesServer: the lemma is about the text handed to `FormData`
  (`Wizard.SentDescription`), not the field the server reads. The multipart/form-data encoding
  of the request writes every LF or CR that is not already part of a CRLF as CRLF, so the
  server's text is longer by one per such line break. The encoding is not modelled. The
  trimmed text neither starts nor ends with a line break, so Python's strip cuts nothing more
  and the length only grows; the lemma's conclusion still holds for the received text.
- Handoff.SentDescriptionPassesServer: stated for descriptions inside the Basic Multilingual
  Plane only, because outside it the claim is false (`Handoff.AstralDescriptionRefused`).
- Wizard.DescriptionBoundary: stated for Basic Multilingual Plane characters only. For
  astral text the boundary is 25 characters, not 50.
- Render.JsText: a JSON `null` and a missing field are one `None` in the result record. The
  browser writes "null" for `${suitability.overall}` when the AI's JSON holds
  `"overall": null`, and "undefined" when the key is absent; the model writes "undefined" for
  both. List entries that are not strings (null, numbers) are not modelled either.
- `Text.Lower` is ASCII-only. Python's `lower` also folds other characters. For example, the
  Kelvin sign U+212A lowers to 'k', so a resume spelling "docKer" matches "docker" in the
  source and not in the model.
- `secure_filename`, the PDF and DOCX readers and the UTF-8 decoding are parameters of `Upload`.
  The secured name is given alongside the original name, and each reader's outcome is a
  `Result`.
- `json.loads` is a parameter of `ParseAiResponse` and `AnalyzeResume` with three outcomes: a
  decoded value, `JSONDecodeError`, or any other exception. The decoded JSON value is opaque.
- The AI call (`create_analysis_prompt`, `call_together_ai`) is a parameter: its reply or its
  failure. The prompt text is not modelled.
- The endpoint's 500 path (analysis.py lines 271-273) is left out. No modelled step raises
  outside the 400 checks and the AI call.
- The health endpoint and the Flask wiring (`setup.py`, the blueprint registration) are left
  out.
- `Server.Checks` evaluates every check up front, whereas the handler returns at the first
  failure. Both read the same facts, gathered by `Server.Inspect`. `Server.FirstFailing` picks
  the same check and the model has no side effects, so the response is identical.
- `Server.DemoResumeHtml` is the full template with the extracted fields filled in, but no
  lemma unfolds it. It is kept as the one place where the fields are plugged into the fixed
  text; the fields themselves are stated through `Server.DemoResumeFields`.
- The server's `print` logging is left out.
